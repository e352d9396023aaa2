// The meaning of shell expressions, and the theorem that the compiled bytes compute it.

module FinshSemantics {
  import opened FinshMachine
  import opened FinshCompiler
  import opened FinshArith

  // A dword variable: one of the shell's own, or an exported system variable.
  datatype Place = ShellVar(addr: Word) | SystemVar(addr: Word)

  datatype Step = PreInc | PreDec | PostInc | PostDec

  function StepOp(s: Step): BinOp { if s.PreInc? || s.PostInc? then Add else Sub }

  datatype Expr =
    | Const(v: Word)
    | Read(x: Place)
    | Not(e: Expr)
    | Binary(op: BinOp, l: Expr, r: Expr)
    | Assign(x: Place, e: Expr)
    | AssignThrough(p: Expr, e: Expr)
    | Deref(e: Expr)
    | AddressOf(x: Place)
    | AddressOfDeref(e: Expr)
    | Stepped(s: Step, addr: Word)
    | Invoke(f: Word, args: Exprs)

  datatype Exprs = Nil | Cons(head: Expr, tail: Exprs)

  // --- evaluation ------------------------------------------------------------------------------

  datatype Answer = Answer(value: Word, mem: Memory)
  datatype Answers = Answers(values: seq<Word>, mem: Memory)

  // Operands are evaluated left to right; None where C leaves the result undefined.
  function Eval(host: Host, e: Expr, m: Memory): Option<Answer>
    decreases e
  {
    match e
    case Const(v) => Some(Answer(v, m))
    case Read(x) => Some(Answer(host.load(m, x.addr), m))
    case Not(e1) =>
      var a := Eval(host, e1, m);
      if a.None? then None else Some(Answer(BitFlip(a.value.value), a.value.mem))
    case Binary(op, l, r) =>
      var a := Eval(host, l, m);
      if a.None? then None
      else
        var b := Eval(host, r, a.value.mem);
        if b.None? then None
        else
          var v := host.arith(op, a.value.value, b.value.value);
          if v.None? then None else Some(Answer(v.value, b.value.mem))
    case Assign(x, e1) =>
      var a := Eval(host, e1, m);
      if a.None? then None else Some(Answer(a.value.value, host.store(a.value.mem, x.addr, a.value.value)))
    case AssignThrough(p, e1) =>
      var a := Eval(host, p, m);
      if a.None? then None
      else
        var b := Eval(host, e1, a.value.mem);
        if b.None? then None
        else Some(Answer(b.value.value, host.store(b.value.mem, a.value.value, b.value.value)))
    case Deref(e1) =>
      var a := Eval(host, e1, m);
      if a.None? then None else Some(Answer(host.load(a.value.mem, a.value.value), a.value.mem))
    case AddressOf(x) => Some(Answer(x.addr, m))
    case AddressOfDeref(e1) => Eval(host, e1, m)
    case Stepped(s, x) =>
      var before := host.load(m, x);
      var after := host.arith(StepOp(s), before, 1);
      if after.None? then None
      else Some(Answer(if s.PreInc? || s.PreDec? then after.value else before, host.store(m, x, after.value)))
    case Invoke(f, args) =>
      var a := EvalArgs(host, args, m);
      if a.None? then None
      else
        var r := host.calls(f, Passed(a.value.values), a.value.mem);
        Some(Answer(r.0, r.1))
  }

  function EvalArgs(host: Host, es: Exprs, m: Memory): (r: Option<Answers>)
    ensures r.Some? ==> |r.value.values| == Count(es)
    decreases es
  {
    match es
    case Nil => Some(Answers([], m))
    case Cons(e, rest) =>
      var a := Eval(host, e, m);
      if a.None? then None
      else
        var b := EvalArgs(host, rest, a.value.mem);
        if b.None? then None else Some(Answers([a.value.value] + b.value.values, b.value.mem))
  }

  function Count(es: Exprs): nat { if es.Nil? then 0 else 1 + Count(es.tail) }

  // A line: statements separated by ';'.  Its value is that of the last one.
  function EvalLine(host: Host, line: Exprs, m: Memory): Option<Machine> {
    match line
    case Nil => Some(Machine([], m))
    case Cons(e, rest) =>
      var a := Eval(host, e, m);
      if a.None? then None
      else if rest.Nil? then Some(Machine([a.value.value], a.value.mem))
      else EvalLine(host, rest, a.value.mem)
  }

  // --- typing ------------------------------------------------------------------------------------

  // A node takes the type of its first child, and a called function has none.
  predicate Typed(e: Expr) {
    match e
    case Not(e1) => Typed(e1)
    case Binary(_, l, _) => Typed(l)
    case AssignThrough(p, _) => Typed(p)
    case Deref(e1) => Typed(e1)
    case AddressOfDeref(e1) => Typed(e1)
    case Invoke(_, _) => false
    case _ => true
  }

  // Every operator that needs a width has one, and no call passes more than 16 parameters.
  predicate WellTyped(e: Expr)
    decreases e
  {
    match e
    case Not(e1) => Typed(e1) && WellTyped(e1)
    case Binary(_, l, r) => Typed(l) && WellTyped(l) && WellTyped(r)
    case Assign(_, e1) => WellTyped(e1)
    case AssignThrough(p, e1) => Typed(p) && WellTyped(p) && WellTyped(e1)
    case Deref(e1) => Typed(e1) && WellTyped(e1)
    case AddressOfDeref(e1) => WellTyped(e1)
    case Invoke(_, args) => Count(args) <= PARAMETER_MAX && AllWellTyped(args)
    case _ => true
  }

  predicate AllWellTyped(es: Exprs)
    decreases es
  {
    es.Cons? ==> WellTyped(es.head) && AllWellTyped(es.tail)
  }

  // --- the instructions of an expression -----------------------------------------------------------

  function StepKind(s: Step): Kind {
    match s case PreInc => SysPreInc case PreDec => SysPreDec case PostInc => SysInc case PostDec => SysDec
  }

  function Instrs(e: Expr): seq<Instr>
    decreases e
  {
    match e
    case Const(v) => [LdDword(v)]
    case Read(x) => [LdValue(x.addr)]
    case Not(e1) => Instrs(e1) + if Typed(e1) then [BitNot] else []
    case Binary(op, l, r) => Instrs(l) + Instrs(r) + if Typed(l) then [Bin(op)] else []
    case Assign(x, e1) => [LdDword(x.addr)] + Instrs(e1) + [StDword, LdValueStack]
    case AssignThrough(p, e1) => Instrs(p) + Instrs(e1) + if Typed(p) then [StDword, LdValueStack] else []
    case Deref(e1) => Instrs(e1) + if Typed(e1) then [LdValueStack] else []
    case AddressOf(x) => [LdDword(x.addr)]
    case AddressOfDeref(e1) => Instrs(e1)
    case Stepped(s, x) =>
      (if s.PreInc? || s.PreDec? then [LdDword(x)] else [LdValue(x)]) + StepCode(StepKind(s), x)
    case Invoke(f, args) => [LdDword(f)] + ArgInstrs(args) + [Syscall(Count(args) % 256)]
  }

  function ArgInstrs(es: Exprs): seq<Instr>
    decreases es
  {
    match es case Nil => [] case Cons(e, rest) => Instrs(e) + ArgInstrs(rest)
  }

  function LineInstrs(line: Exprs): seq<Instr> {
    match line
    case Nil => []
    case Cons(e, rest) => Instrs(e) + (if rest.Nil? then [] else [Pop]) + LineInstrs(rest)
  }

  // --- stack depth ---------------------------------------------------------------------------------

  function Max(a: nat, b: nat): nat { if a < b then b else a }

  function Depth(e: Expr): nat
    decreases e
  {
    match e
    case Const(_) => 1
    case Read(_) => 1
    case Not(e1) => Depth(e1)
    case Binary(_, l, r) => Max(Depth(l), 1 + Depth(r))
    case Assign(_, e1) => 1 + Depth(e1)
    case AssignThrough(p, e1) => Max(Depth(p), 1 + Depth(e1))
    case Deref(e1) => Depth(e1)
    case AddressOf(_) => 1
    case AddressOfDeref(e1) => Depth(e1)
    case Stepped(s, _) => if s.PreInc? || s.PreDec? then 3 else 4
    case Invoke(_, args) => 1 + ArgDepth(args)
  }

  function ArgDepth(es: Exprs): nat
    decreases es
  {
    match es case Nil => 0 case Cons(e, rest) => Max(Depth(e), 1 + ArgDepth(rest))
  }

  predicate Fits(line: Exprs) { line.Cons? ==> Depth(line.head) <= FINSH_STACK_MAX && Fits(line.tail) }

  // --- the instructions compute the expression -----------------------------------------------------

  function Pushed(st: seq<Word>, a: Option<Answer>): Option<Machine> {
    if a.None? then None else Some(Machine(st + [a.value.value], a.value.mem))
  }

  function PushedAll(st: seq<Word>, a: Option<Answers>): Option<Machine> {
    if a.None? then None else Some(Machine(st + a.value.values, a.value.mem))
  }

  lemma ExecOne(host: Host, i: Instr, s: Machine)
    ensures ExecAll(host, [i], s) == Exec(host, i, s)
  {
    var r := Exec(host, i, s);
    if r.Some? { assert ExecAll(host, [i][1..], r.value) == r; }
  }

  // Running code a, then b, then the single instruction i.
  lemma ExecThen(host: Host, a: seq<Instr>, i: Instr, s: Machine)
    ensures ExecAll(host, a + [i], s) ==
            (var r := ExecAll(host, a, s); if r.None? then None else Exec(host, i, r.value))
  {
    ExecAppend(host, a, [i], s);
    var r := ExecAll(host, a, s);
    if r.Some? { ExecOne(host, i, r.value); }
  }

  // st_dword; ld_value_dword [sp]: store the top at the address below it and leave the value.
  lemma ExecStore(host: Host, st: seq<Word>, a: Word, v: Word, m: Memory)
    requires host.Coherent()
    ensures ExecAll(host, [StDword, LdValueStack], Machine(st + [a, v], m)) ==
            Some(Machine(st + [v], host.store(m, a, v)))
  {
    var s := Machine(st + [a, v], m);
    var n := |s.stack|;
    assert s.stack[..n - 1] == st + [a] && s.stack[n - 2] == a && s.stack[n - 1] == v;
    var s1 := Machine(st + [a], host.store(m, a, v));
    assert Exec(host, StDword, s) == Some(s1);
    assert host.load(host.store(m, a, v), a) == v;
    assert s1.stack[..|s1.stack| - 1] == st;
    assert Exec(host, LdValueStack, s1) == Some(Machine(st + [v], host.store(m, a, v)));
    assert [StDword, LdValueStack][1..] == [LdValueStack];
    ExecOne(host, LdValueStack, s1);
  }

  lemma ExecBin(host: Host, op: BinOp, st: seq<Word>, a: Word, b: Word, m: Memory)
    ensures Exec(host, Bin(op), Machine(st + [a] + [b], m)) ==
            (var v := host.arith(op, a, b); if v.None? then None else Some(Machine(st + [v.value], m)))
  {
    assert (st + [a] + [b])[..|st|] == st;
  }

  lemma ExecPrefix(host: Host, s: Step, x: Word, st: seq<Word>, m: Memory)
    requires host.Coherent()
    requires |st| + 3 <= FINSH_STACK_MAX && (s.PreInc? || s.PreDec?)
    ensures ExecAll(host, Instrs(Stepped(s, x)), Machine(st, m)) == Pushed(st, Eval(host, Stepped(s, x), m))
  {
    var before, op := host.load(m, x), StepOp(s);
    var code := [LdDword(x), LdValue(x), LdDword(1)];
    var s0, s3 := Machine(st, m), Machine(st + [x] + [before] + [1], m);
    Exec3(host, code, s0, Machine(st + [x], m), Machine(st + [x] + [before], m), s3);
    ExecThen(host, code, Bin(op), s0);
    ExecBin(host, op, st + [x], before, 1, m);
    ExecAppend(host, code + [Bin(op)], [StDword, LdValueStack], s0);
    assert Instrs(Stepped(s, x)) == code + [Bin(op)] + [StDword, LdValueStack];
    var after := host.arith(op, before, 1);
    if after.Some? {
      assert st + [x] + [after.value] == st + [x, after.value];
      ExecStore(host, st, x, after.value, m);
    }
  }

  lemma ExecPostfix(host: Host, s: Step, x: Word, st: seq<Word>, m: Memory)
    requires |st| + 4 <= FINSH_STACK_MAX && (s.PostInc? || s.PostDec?)
    ensures ExecAll(host, Instrs(Stepped(s, x)), Machine(st, m)) == Pushed(st, Eval(host, Stepped(s, x), m))
  {
    var before, op := host.load(m, x), StepOp(s);
    var st1 := st + [before];
    var code := [LdDword(x), LdValue(x), LdDword(1)];
    var tail := code + [Bin(op)] + [StDword] + [Pop];
    var s1, s4 := Machine(st1, m), Machine(st1 + [x] + [before] + [1], m);
    Exec3(host, code, s1, Machine(st1 + [x], m), Machine(st1 + [x] + [before], m), s4);
    ExecThen(host, code, Bin(op), s1);
    ExecThen(host, code + [Bin(op)], StDword, s1);
    ExecThen(host, code + [Bin(op)] + [StDword], Pop, s1);
    ExecBin(host, op, st1 + [x], before, 1, m);
    var after := host.arith(op, before, 1);
    if after.Some? { ExecStoreThenPop(host, st1, x, after.value, m); }
    assert Instrs(Stepped(s, x)) == [LdValue(x)] + tail;
    ExecOne(host, LdValue(x), Machine(st, m));
    ExecAppend(host, [LdValue(x)], tail, Machine(st, m));
  }

  lemma ExecStoreThenPop(host: Host, st: seq<Word>, a: Word, v: Word, m: Memory)
    ensures Exec(host, StDword, Machine(st + [a] + [v], m)) == Some(Machine(st + [a], host.store(m, a, v)))
    ensures Exec(host, Pop, Machine(st + [a], host.store(m, a, v))) == Some(Machine(st, host.store(m, a, v)))
  {
    assert (st + [a] + [v])[..|st| + 1] == st + [a];
    assert (st + [a])[..|st|] == st;
  }

  lemma Exec3(host: Host, code: seq<Instr>, s0: Machine, s1: Machine, s2: Machine, s3: Machine)
    requires |code| == 3
    requires Exec(host, code[0], s0) == Some(s1) && Exec(host, code[1], s1) == Some(s2)
    requires Exec(host, code[2], s2) == Some(s3)
    ensures ExecAll(host, code, s0) == Some(s3)
  {
    assert code == [code[0]] + [code[1]] + [code[2]];
    ExecOne(host, code[0], s0);
    ExecThen(host, [code[0]], code[1], s0);
    ExecThen(host, [code[0]] + [code[1]], code[2], s0);
  }

  // The code pushes the answer on st, from memory m; without an answer it is undefined.
  ghost predicate Pushes(host: Host, code: seq<Instr>, st: seq<Word>, m: Memory, a: Option<Answer>) {
    ExecAll(host, code, Machine(st, m)) == Pushed(st, a)
  }

  lemma PushOne(host: Host, i: Instr, st: seq<Word>, m: Memory, v: Word)
    requires Exec(host, i, Machine(st, m)) == Some(Machine(st + [v], m))
    ensures Pushes(host, [i], st, m, Some(Answer(v, m)))
  {
    ExecOne(host, i, Machine(st, m));
  }

  lemma PushNot(host: Host, code: seq<Instr>, st: seq<Word>, m: Memory, a: Option<Answer>)
    requires Pushes(host, code, st, m, a)
    ensures Pushes(host, code + [BitNot], st, m,
                   if a.None? then None else Some(a.value.(value := BitFlip(a.value.value))))
  {
    ExecThen(host, code, BitNot, Machine(st, m));
    if a.Some? { ExecTop(host, st, a.value.value, a.value.mem); }
  }

  lemma PushLoad(host: Host, code: seq<Instr>, st: seq<Word>, m: Memory, a: Option<Answer>)
    requires Pushes(host, code, st, m, a)
    ensures Pushes(host, code + [LdValueStack], st, m,
                   if a.None? then None else Some(a.value.(value := host.load(a.value.mem, a.value.value))))
  {
    ExecThen(host, code, LdValueStack, Machine(st, m));
    if a.Some? { ExecTop(host, st, a.value.value, a.value.mem); }
  }

  lemma ExecTop(host: Host, st: seq<Word>, a: Word, m: Memory)
    ensures Exec(host, BitNot, Machine(st + [a], m)) == Some(Machine(st + [BitFlip(a)], m))
    ensures Exec(host, LdValueStack, Machine(st + [a], m)) == Some(Machine(st + [host.load(m, a)], m))
  {
    assert (st + [a])[..|st|] == st;
  }

  // Code c pushes a, and then code d pushes b.
  ghost predicate PushesBoth(host: Host, c: seq<Instr>, d: seq<Instr>, st: seq<Word>, m: Memory,
                             a: Option<Answer>, b: Option<Answer>) {
    && Pushes(host, c, st, m, a)
    && (a.None? ==> b.None?)
    && (a.Some? ==> Pushes(host, d, st + [a.value.value], a.value.mem, b))
  }

  lemma PushTwo(host: Host, c: seq<Instr>, d: seq<Instr>, st: seq<Word>, m: Memory, a: Option<Answer>,
                b: Option<Answer>)
    requires PushesBoth(host, c, d, st, m, a, b)
    ensures ExecAll(host, c + d, Machine(st, m)) ==
            if b.None? then None else Some(Machine(st + [a.value.value] + [b.value.value], b.value.mem))
  {
    ExecAppend(host, c, d, Machine(st, m));
  }

  lemma PushBinary(host: Host, op: BinOp, c: seq<Instr>, d: seq<Instr>, st: seq<Word>, m: Memory,
                   a: Option<Answer>, b: Option<Answer>)
    requires PushesBoth(host, c, d, st, m, a, b)
    ensures Pushes(host, c + d + [Bin(op)], st, m,
                   if b.None? then None
                   else var v := host.arith(op, a.value.value, b.value.value);
                        if v.None? then None else Some(Answer(v.value, b.value.mem)))
  {
    PushTwo(host, c, d, st, m, a, b);
    ExecThen(host, c + d, Bin(op), Machine(st, m));
    if b.Some? { ExecBin(host, op, st, a.value.value, b.value.value, b.value.mem); }
  }

  lemma PushStore(host: Host, c: seq<Instr>, d: seq<Instr>, st: seq<Word>, m: Memory, a: Option<Answer>,
                  b: Option<Answer>)
    requires host.Coherent()
    requires PushesBoth(host, c, d, st, m, a, b)
    ensures Pushes(host, c + d + [StDword, LdValueStack], st, m,
                   if b.None? then None
                   else Some(Answer(b.value.value, host.store(b.value.mem, a.value.value, b.value.value))))
  {
    PushTwo(host, c, d, st, m, a, b);
    ExecAppend(host, c + d, [StDword, LdValueStack], Machine(st, m));
    if b.Some? {
      assert st + [a.value.value] + [b.value.value] == st + [a.value.value, b.value.value];
      ExecStore(host, st, a.value.value, b.value.value, b.value.mem);
    }
  }

  lemma PushCall(host: Host, f: Word, args: seq<Instr>, k: Byte, st: seq<Word>, m: Memory, a: Option<Answers>)
    requires |st| < FINSH_STACK_MAX && (a.Some? ==> k == |a.value.values| <= PARAMETER_MAX)
    requires ExecAll(host, args, Machine(st + [f], m)) == PushedAll(st + [f], a)
    ensures Pushes(host, [LdDword(f)] + args + [Syscall(k)], st, m,
                   if a.None? then None
                   else var r := host.calls(f, Passed(a.value.values), a.value.mem); Some(Answer(r.0, r.1)))
  {
    ExecOne(host, LdDword(f), Machine(st, m));
    ExecAppend(host, [LdDword(f)], args, Machine(st, m));
    ExecThen(host, [LdDword(f)] + args, Syscall(k), Machine(st, m));
    if a.Some? { ExecSyscall(host, f, a.value.values, st, a.value.mem); }
  }

  lemma ExecSyscall(host: Host, f: Word, vs: seq<Word>, st: seq<Word>, m: Memory)
    requires |vs| <= PARAMETER_MAX
    ensures Exec(host, Syscall(|vs|), Machine(st + [f] + vs, m)) ==
            (var r := host.calls(f, Passed(vs), m); Some(Machine(st + [r.0], r.1)))
  {
    var stack, k := st + [f] + vs, |vs|;
    assert stack[|stack| - k..] == vs;
    assert stack[..|stack| - k - 1] == st;
    assert stack[|stack| - k - 1] == f;
  }

  lemma {:induction false} ExecExpr(host: Host, e: Expr, st: seq<Word>, m: Memory)
    requires host.Coherent()
    requires WellTyped(e) && |st| + Depth(e) <= FINSH_STACK_MAX
    ensures Pushes(host, Instrs(e), st, m, Eval(host, e, m))
    decreases e
  {
    match e
    case Const(v) => PushOne(host, LdDword(v), st, m, v);
    case Read(x) => PushOne(host, LdValue(x.addr), st, m, host.load(m, x.addr));
    case AddressOf(x) => PushOne(host, LdDword(x.addr), st, m, x.addr);
    case AddressOfDeref(e1) => ExecExpr(host, e1, st, m);
    case Stepped(k, x) =>
      if k.PreInc? || k.PreDec? { ExecPrefix(host, k, x, st, m); } else { ExecPostfix(host, k, x, st, m); }
    case Not(e1) => ExecExpr(host, e1, st, m); PushNot(host, Instrs(e1), st, m, Eval(host, e1, m));
    case Deref(e1) => ExecExpr(host, e1, st, m); PushLoad(host, Instrs(e1), st, m, Eval(host, e1, m));
    case Binary(op, l, r) =>
      var b := ExecPair(host, e, l, r, st, m);
      PushBinary(host, op, Instrs(l), Instrs(r), st, m, Eval(host, l, m), b);
    case AssignThrough(p, e1) =>
      var b := ExecPair(host, e, p, e1, st, m);
      PushStore(host, Instrs(p), Instrs(e1), st, m, Eval(host, p, m), b);
    case Assign(x, e1) => ExecExpr(host, e1, st + [x.addr], m); PushAssign(host, x, e1, st, m);
    case Invoke(f, args) => ExecArgs(host, args, st + [f], m); PushInvoke(host, f, args, st, m);
  }

  lemma PushAssign(host: Host, x: Place, e: Expr, st: seq<Word>, m: Memory)
    requires host.Coherent() && |st| < FINSH_STACK_MAX
    requires Pushes(host, Instrs(e), st + [x.addr], m, Eval(host, e, m))
    ensures Pushes(host, Instrs(Assign(x, e)), st, m, Eval(host, Assign(x, e), m))
  {
    PushOne(host, LdDword(x.addr), st, m, x.addr);
    PushStore(host, [LdDword(x.addr)], Instrs(e), st, m, Some(Answer(x.addr, m)), Eval(host, e, m));
  }

  lemma PushInvoke(host: Host, f: Word, args: Exprs, st: seq<Word>, m: Memory)
    requires |st| < FINSH_STACK_MAX && Count(args) <= PARAMETER_MAX
    requires ExecAll(host, ArgInstrs(args), Machine(st + [f], m)) == PushedAll(st + [f], EvalArgs(host, args, m))
    ensures Pushes(host, Instrs(Invoke(f, args)), st, m, Eval(host, Invoke(f, args), m))
  {
    var k: Byte, a := Count(args), EvalArgs(host, args, m);
    PushCall(host, f, ArgInstrs(args), k, st, m, a);
    CallCode(f, args, k);
    var r := if a.None? then None
             else var r := host.calls(f, Passed(a.value.values), a.value.mem); Some(Answer(r.0, r.1));
    assert Eval(host, Invoke(f, args), m) == r;
  }

  lemma CallCode(f: Word, args: Exprs, k: Byte)
    requires k == Count(args)
    ensures Instrs(Invoke(f, args)) == [LdDword(f)] + ArgInstrs(args) + [Syscall(k)]
  {
  }

  lemma {:induction false} ExecPair(host: Host, e: Expr, l: Expr, r: Expr, st: seq<Word>, m: Memory)
    returns (b: Option<Answer>)
    requires host.Coherent()
    requires (e.Binary? && l == e.l && r == e.r) || (e.AssignThrough? && l == e.p && r == e.e)
    requires WellTyped(l) && WellTyped(r) && |st| + Max(Depth(l), 1 + Depth(r)) <= FINSH_STACK_MAX
    ensures b == (var a := Eval(host, l, m); if a.None? then None else Eval(host, r, a.value.mem))
    ensures PushesBoth(host, Instrs(l), Instrs(r), st, m, Eval(host, l, m), b)
    decreases e, 0
  {
    ExecExpr(host, l, st, m);
    var a := Eval(host, l, m);
    if a.None? { return None; }
    ExecExpr(host, r, st + [a.value.value], a.value.mem);
    return Eval(host, r, a.value.mem);
  }

  lemma {:induction false} ExecArgs(host: Host, es: Exprs, st: seq<Word>, m: Memory)
    requires host.Coherent()
    requires AllWellTyped(es) && |st| + ArgDepth(es) <= FINSH_STACK_MAX
    ensures ExecAll(host, ArgInstrs(es), Machine(st, m)) == PushedAll(st, EvalArgs(host, es, m))
    decreases es
  {
    if es.Nil? {
      assert st + [] == st;
    } else {
      ExecExpr(host, es.head, st, m);
      ExecAppend(host, Instrs(es.head), ArgInstrs(es.tail), Machine(st, m));
      var a := Eval(host, es.head, m);
      if a.Some? {
        ExecArgs(host, es.tail, st + [a.value.value], a.value.mem);
        var b := EvalArgs(host, es.tail, a.value.mem);
        if b.Some? {
          assert st + [a.value.value] + b.value.values == st + ([a.value.value] + b.value.values);
        }
      }
    }
  }

  lemma {:induction false} ExecLine(host: Host, line: Exprs, m: Memory)
    requires host.Coherent()
    requires AllWellTyped(line) && Fits(line)
    ensures ExecAll(host, LineInstrs(line), Machine([], m)) == EvalLine(host, line, m)
  {
    if line.Cons? {
      var e, rest := line.head, line.tail;
      ExecExpr(host, e, [], m);
      var a := Eval(host, e, m);
      if rest.Nil? {
        assert LineInstrs(line) == Instrs(e);
        if a.Some? { assert [] + [a.value.value] == [a.value.value]; }
      } else {
        ExecThen(host, Instrs(e), Pop, Machine([], m));
        ExecAppend(host, Instrs(e) + [Pop], LineInstrs(rest), Machine([], m));
        if a.Some? {
          assert ([] + [a.value.value])[..0] == [];
          ExecLine(host, rest, a.value.mem);
        }
      }
    }
  }

  // --- node trees of expressions ----------------------------------------------------------------------

  predicate IsPlace(n: Node, x: Place) {
    n.Node? && n.child.Null? && n.kind == match x case ShellVar(a) => IdVar(a) case SystemVar(a) => IdSysVar(a)
  }

  // n, without its siblings, is the tree the parser builds for e.
  predicate IsTree(n: Node, e: Expr): (b: bool)
    ensures b ==> n.Node?
    decreases e
  {
    && n.Node?
    && match e
       case Const(v) => n.kind == Value(v) && n.child.Null?
       case Read(x) => IsPlace(n, x)
       case Not(e1) => n.kind == SysBitwise && IsTree(n.child, e1) && n.child.sibling.Null?
       case Binary(op, l, r) =>
         n.kind == SysBin(op) && IsTree(n.child, l) && IsTree(n.child.sibling, r) && n.child.sibling.sibling.Null?
       case Assign(x, e1) =>
         n.kind == SysAssign && IsPlace(n.child, x) && IsTree(n.child.sibling, e1) && n.child.sibling.sibling.Null?
       case AssignThrough(p, e1) =>
         && n.kind == SysAssign && n.child.Node? && n.child.kind == SysGetValue
         && IsTree(n.child.child, p) && n.child.child.sibling.Null?
         && IsTree(n.child.sibling, e1) && n.child.sibling.sibling.Null?
       case Deref(e1) => n.kind == SysGetValue && IsTree(n.child, e1) && n.child.sibling.Null?
       case AddressOf(x) => n.kind == SysGetAddr && IsPlace(n.child, x) && n.child.sibling.Null?
       case AddressOfDeref(e1) =>
         && n.kind == SysGetAddr && n.child.Node? && n.child.kind == SysGetValue && n.child.sibling.Null?
         && IsTree(n.child.child, e1) && n.child.child.sibling.Null?
       case Stepped(s, x) => n.kind == StepKind(s) && IsPlace(n.child, ShellVar(x)) && n.child.sibling.Null?
       case Invoke(f, args) =>
         && n.kind == SysFunc && n.child.Node? && n.child.kind == IdSyscall(f) && n.child.child.Null?
         && IsTrees(n.child.sibling, args)
  }

  predicate IsTrees(n: Node, es: Exprs): (b: bool)
    ensures b ==> n.Node? == es.Cons?
    decreases es
  {
    match es
    case Nil => n.Null?
    case Cons(e, rest) => IsTree(n, e) && IsTrees(n.sibling, rest)
  }

  // The code of a node without its siblings.
  function NodeCode(n: Node): seq<Instr>
    requires n.Node?
  {
    Code(n.child, ChildFlag(n.kind, 0)) + FinshCompiler.Own(n, 0)
  }

  lemma {:induction false} TreeType(n: Node, e: Expr)
    requires IsTree(n, e)
    ensures TypeOf(n) == if Typed(e) then Dword else Void
    decreases e
  {
    match e
    case Not(e1) => TreeType(n.child, e1);
    case Binary(_, l, _) => TreeType(n.child, l);
    case AssignThrough(p, _) => TreeType(n.child.child, p);
    case Deref(e1) => TreeType(n.child, e1);
    case AddressOfDeref(e1) => TreeType(n.child.child, e1);
    case _ =>
  }

  // Code of a leaf, of a list of one and of a list of two nodes.
  lemma LoneCode(n: Node)
    requires n.Node? && n.sibling.Null?
    ensures Code(n, 0) == NodeCode(n)
  {
    assert NodeCode(n) + [] == NodeCode(n);
  }

  lemma PairCode(n: Node)
    requires n.Node? && n.sibling.Node? && n.sibling.sibling.Null?
    ensures Code(n, 0) == NodeCode(n) + NodeCode(n.sibling)
  {
    LoneCode(n.sibling);
  }

  lemma PlaceCode(n: Node, x: Place)
    requires IsPlace(n, x)
    ensures TypeOf(n) == Dword && n.kind.IsId()
    ensures Code(n, IDTYPE_ADDRESS) == [LdDword(x.addr)] + Code(n.sibling, 0)
    ensures n.sibling.Null? ==> Code(n, 0) == [LdValue(x.addr)]
    ensures NodeCode(n) == [LdValue(x.addr)]
  {
    assert [] + [LdDword(x.addr)] == [LdDword(x.addr)];
    assert [] + [LdValue(x.addr)] == [LdValue(x.addr)];
    assert [LdValue(x.addr)] + [] == [LdValue(x.addr)];
  }

  // The left side of an assignment through a pointer, and the operand of &*: the pointer's value.
  lemma PointerCode(n: Node, p: Expr)
    requires n.Node? && n.kind == SysGetValue && IsTree(n.child, p) && n.child.sibling.Null?
    requires NodeCode(n.child) == Instrs(p)
    ensures Code(n, IDTYPE_ADDRESS) == Instrs(p) + Code(n.sibling, 0)
  {
    LoneCode(n.child);
    assert Instrs(p) + [] == Instrs(p);
  }

  lemma UnaryCode(n: Node, e: Expr)
    requires n.Node? && n.kind in {SysBitwise, SysGetValue} && IsTree(n.child, e) && n.child.sibling.Null?
    requires NodeCode(n.child) == Instrs(e)
    ensures NodeCode(n) == if n.kind.SysBitwise? then Instrs(Not(e)) else Instrs(Deref(e))
  {
    LoneCode(n.child);
    TreeType(n.child, e);
  }

  lemma BinaryCode(n: Node, op: BinOp, l: Expr, r: Expr)
    requires IsTree(n, Binary(op, l, r)) && n.child.Node? && n.child.sibling.Node?
    requires NodeCode(n.child) == Instrs(l) && NodeCode(n.child.sibling) == Instrs(r)
    ensures NodeCode(n) == Instrs(Binary(op, l, r))
  {
    PairCode(n.child);
    TreeType(n.child, l);
  }

  lemma AssignCode(n: Node, x: Place, e: Expr)
    requires IsTree(n, Assign(x, e)) && n.child.Node? && n.child.sibling.Node? && NodeCode(n.child.sibling) == Instrs(e)
    ensures NodeCode(n) == Instrs(Assign(x, e))
  {
    PlaceCode(n.child, x);
    LoneCode(n.child.sibling);
  }

  lemma AssignThroughCode(n: Node, p: Expr, e: Expr)
    requires IsTree(n, AssignThrough(p, e)) && n.child.Node? && n.child.child.Node? && n.child.sibling.Node?
    requires NodeCode(n.child.child) == Instrs(p) && NodeCode(n.child.sibling) == Instrs(e)
    ensures NodeCode(n) == Instrs(AssignThrough(p, e))
  {
    PointerCode(n.child, p);
    TreeType(n.child.child, p);
    LoneCode(n.child.sibling);
  }

  lemma LeafCode(n: Node, e: Expr)
    requires IsTree(n, e) && (e.Const? || e.Read? || e.AddressOf? || e.Stepped?)
    ensures NodeCode(n) == Instrs(e)
  {
    match e
    case Const(v) => assert [] + [LdDword(v)] == [LdDword(v)];
    case Read(x) => PlaceCode(n, x);
    case AddressOf(x) =>
      PlaceCode(n.child, x);
      assert [LdDword(x.addr)] + [] + [] == [LdDword(x.addr)];
    case Stepped(s, x) =>
      PlaceCode(n.child, ShellVar(x));
      assert [LdDword(x)] + [] == [LdDword(x)];
  }

  lemma {:induction false} TreeCode(n: Node, e: Expr)
    requires IsTree(n, e)
    ensures NodeCode(n) == Instrs(e)
    decreases e
  {
    match e
    case Not(e1) => TreeCode(n.child, e1); UnaryCode(n, e1);
    case Deref(e1) => TreeCode(n.child, e1); UnaryCode(n, e1);
    case Binary(op, l, r) => TreeCode(n.child, l); TreeCode(n.child.sibling, r); BinaryCode(n, op, l, r);
    case Assign(x, e1) => TreeCode(n.child.sibling, e1); AssignCode(n, x, e1);
    case AssignThrough(p, e1) =>
      TreeCode(n.child.child, p);
      TreeCode(n.child.sibling, e1);
      AssignThroughCode(n, p, e1);
    case AddressOfDeref(e1) =>
      TreeCode(n.child.child, e1);
      PointerCode(n.child, e1);
      assert Instrs(e1) + [] + [] == Instrs(e1);
    case Invoke(f, args) => InvokeCode(n, f, args);
    case _ => LeafCode(n, e);
  }

  lemma {:induction false} InvokeCode(n: Node, f: Word, args: Exprs)
    requires IsTree(n, Invoke(f, args))
    ensures NodeCode(n) == Instrs(Invoke(f, args))
    decreases args, 1
  {
    TreesCode(n.child.sibling, args);
    assert [] + [LdDword(f)] == [LdDword(f)];
    assert Code(n.child, 0) == [LdDword(f)] + ArgInstrs(args);
  }

  lemma {:induction false} TreesCode(n: Node, es: Exprs)
    requires IsTrees(n, es)
    ensures Code(n, 0) == ArgInstrs(es) && Siblings(n) == Count(es)
    decreases es, 0
  {
    if es.Cons? {
      TreeCode(n, es.head);
      TreesCode(n.sibling, es.tail);
    }
  }

  lemma {:induction false} LineCode(n: Node, line: Exprs)
    requires IsTrees(n, line)
    ensures ProgramCode(n) == LineInstrs(line)
    decreases line
  {
    if line.Cons? {
      TreeCode(n, line.head);
      LineCode(n.sibling, line.tail);
      assert n.sibling.Node? == line.tail.Cons?;
    }
  }

  lemma {:induction false} TreeShaped(n: Node, e: Expr)
    requires IsTree(n, e) && Shaped(n.sibling)
    ensures Shaped(n)
    decreases e
  {
    match e
    case Not(e1) => TreeShaped(n.child, e1);
    case Deref(e1) => TreeShaped(n.child, e1);
    case Binary(op, l, r) => TreeShaped(n.child.sibling, r); TreeShaped(n.child, l);
    case Assign(x, e1) => TreeShaped(n.child.sibling, e1);
    case AssignThrough(p, e1) => TreeShaped(n.child.sibling, e1); TreeShaped(n.child.child, p);
    case AddressOfDeref(e1) => TreeShaped(n.child.child, e1);
    case Invoke(f, args) => TreesShaped(n.child.sibling, args);
    case _ =>
  }

  lemma {:induction false} TreesShaped(n: Node, es: Exprs)
    requires IsTrees(n, es)
    ensures Shaped(n)
    decreases es
  {
    if es.Cons? {
      TreesShaped(n.sibling, es.tail);
      TreeShaped(n, es.head);
    }
  }

  // --- the node table bounds the stack -----------------------------------------------------------------

  function Nodes(e: Expr): nat
    decreases e
  {
    match e
    case Not(e1) => 1 + Nodes(e1)
    case Binary(_, l, r) => 1 + Nodes(l) + Nodes(r)
    case Assign(_, e1) => 2 + Nodes(e1)
    case AssignThrough(p, e1) => 2 + Nodes(p) + Nodes(e1)
    case Deref(e1) => 1 + Nodes(e1)
    case AddressOf(_) => 2
    case AddressOfDeref(e1) => 2 + Nodes(e1)
    case Stepped(_, _) => 2
    case Invoke(_, args) => 2 + AllNodes(args)
    case _ => 1
  }

  function AllNodes(es: Exprs): nat
    decreases es
  {
    if es.Nil? then 0 else Nodes(es.head) + AllNodes(es.tail)
  }

  lemma {:induction false} DepthBound(e: Expr)
    ensures Depth(e) <= 2 * Nodes(e) && 1 <= Nodes(e)
    decreases e
  {
    match e
    case Not(e1) => DepthBound(e1);
    case Deref(e1) => DepthBound(e1);
    case AddressOfDeref(e1) => DepthBound(e1);
    case Assign(_, e1) => DepthBound(e1);
    case Binary(_, l, r) => DepthBound(l); DepthBound(r);
    case AssignThrough(p, e1) => DepthBound(p); DepthBound(e1);
    case Invoke(_, args) => DepthBounds(args);
    case _ =>
  }

  lemma {:induction false} DepthBounds(es: Exprs)
    ensures ArgDepth(es) <= 2 * AllNodes(es)
    decreases es
  {
    if es.Cons? { DepthBound(es.head); DepthBounds(es.tail); }
  }

  lemma {:induction false} TreeNodes(n: Node, e: Expr)
    requires IsTree(n, e) && Distinct(n)
    ensures |Ids(n)| == Nodes(e) + |Ids(n.sibling)|
    decreases e
  {
    NodeIds(n);
    match e
    case Not(e1) => TreeNodes(n.child, e1);
    case Deref(e1) => TreeNodes(n.child, e1);
    case Binary(_, l, r) => TreeNodes(n.child, l); TreeNodes(n.child.sibling, r);
    case Assign(x, e1) => NodeIds(n.child); TreeNodes(n.child.sibling, e1);
    case AssignThrough(p, e1) =>
      NodeIds(n.child);
      TreeNodes(n.child.child, p);
      TreeNodes(n.child.sibling, e1);
    case AddressOf(x) => NodeIds(n.child);
    case AddressOfDeref(e1) => NodeIds(n.child); TreeNodes(n.child.child, e1);
    case Stepped(_, _) => NodeIds(n.child);
    case Invoke(_, args) => NodeIds(n.child); TreesNodes(n.child.sibling, args);
    case _ =>
  }

  lemma NodeIds(n: Node)
    requires n.Node? && Distinct(n)
    ensures |Ids(n)| == 1 + |Ids(n.child)| + |Ids(n.sibling)|
  {
    assert Ids(n) == {n.id} + (Ids(n.child) + Ids(n.sibling));
  }

  lemma {:induction false} TreesNodes(n: Node, es: Exprs)
    requires IsTrees(n, es) && Distinct(n)
    ensures |Ids(n)| == AllNodes(es)
    decreases es
  {
    if es.Cons? { TreeNodes(n, es.head); TreesNodes(n.sibling, es.tail); }
  }

  lemma {:induction false} ParsedInTable(s: seq<bv8>, d: seq<DataType>, n: Node)
    requires Parsed(s, d, n)
    ensures InTable(n, |s|)
  {
    if n.Node? { ParsedInTable(s, d, n.child); ParsedInTable(s, d, n.sibling); }
  }

  lemma {:induction false} SmallSet(ids: set<nat>, size: nat)
    requires forall i :: i in ids ==> i < size
    ensures |ids| <= size
  {
    if size > 0 {
      SmallSet(ids - {size - 1}, size - 1);
    } else {
      assert ids == {};
    }
  }

  lemma {:induction false} FewNodesFit(line: Exprs)
    requires 2 * AllNodes(line) <= FINSH_STACK_MAX
    ensures Fits(line)
  {
    if line.Cons? { DepthBound(line.head); FewNodesFit(line.tail); }
  }

  const FINSH_NODE_MAX := 16

  // A line whose nodes fit the node table never overflows the stack.
  lemma TableBoundsStack(s: seq<bv8>, d: seq<DataType>, n: Node, line: Exprs)
    requires IsTrees(n, line) && Distinct(n) && Parsed(s, d, n) && |s| <= FINSH_NODE_MAX
    ensures Fits(line)
  {
    TreesNodes(n, line);
    ParsedInTable(s, d, n);
    SmallSet(Ids(n), |s|);
    FewNodesFit(line);
  }

  // --- the theorem ------------------------------------------------------------------------------------

  lemma LineRuns(host: Host, line: Exprs, m: Memory, pad: nat, text: seq<Byte>)
    requires host.Coherent() && AllWellTyped(line) && Fits(line)
    requires text == EncodeAll(LineInstrs(line)) + Zeros(pad)
    ensures RunBytes(host, text, Machine([], m)) == EvalLine(host, line, m)
  {
    var code, s := LineInstrs(line), Machine([], m);
    ExecLine(host, line, m);
    RunEncoded(host, code, pad, s);
  }

  // finsh_compiler_run then finsh_vm_run: the line's value alone on the stack, and its effect
  // on memory; undefined exactly where the line is.
  method CompileAndRun(n: Node, ghost line: Exprs, c: Compiler, vm: Vm, host: Host) returns (ok: bool)
    requires host.Coherent()
    requires c.Valid() && vm.Valid() && c.text == vm.text
    requires IsTrees(n, line) && AllWellTyped(line)
    requires Distinct(n) && Parsed(c.idtype[..], c.dataType[..], n) && c.idtype.Length <= FINSH_NODE_MAX
    requires Length(LineInstrs(line)) <= FINSH_TEXT_MAX
    modifies c, c.text, c.idtype, c.dataType, vm, vm.slots
    ensures vm.Valid()
    ensures ok == EvalLine(host, line, old(vm.mem)).Some?
    ensures ok ==> EvalLine(host, line, old(vm.mem)) == Some(vm.View())
  {
    TableBoundsStack(c.idtype[..], c.dataType[..], n, line);
    TreesShaped(n, line);
    LineCode(n, line);
    ghost var pad, m := FINSH_TEXT_MAX - Length(LineInstrs(line)), vm.mem;
    c.CompileProgram(n);
    ghost var text := c.text[..];
    LineRuns(host, line, m, pad, text);
    ok := vm.Run(host);
  }

  // --- on the real machine ----------------------------------------------------------------------------

  lemma {:induction false} EvalSame(g: Host, h: Host, e: Expr, m: Memory)
    requires Agree(g, h)
    ensures Eval(g, e, m) == Eval(h, e, m)
    decreases e
  {
    match e
    case Not(e1) => EvalSame(g, h, e1, m);
    case Binary(op, l, r) =>
      EvalSame(g, h, l, m);
      var a := Eval(g, l, m);
      if a.Some? { EvalSame(g, h, r, a.value.mem); }
    case Assign(x, e1) => EvalSame(g, h, e1, m);
    case AssignThrough(p, e1) =>
      EvalSame(g, h, p, m);
      var a := Eval(g, p, m);
      if a.Some? { EvalSame(g, h, e1, a.value.mem); }
    case Deref(e1) => EvalSame(g, h, e1, m);
    case AddressOfDeref(e1) => EvalSame(g, h, e1, m);
    case Invoke(f, args) => EvalArgsSame(g, h, args, m);
    case _ =>
  }

  lemma {:induction false} EvalArgsSame(g: Host, h: Host, es: Exprs, m: Memory)
    requires Agree(g, h)
    ensures EvalArgs(g, es, m) == EvalArgs(h, es, m)
    decreases es
  {
    if es.Cons? {
      EvalSame(g, h, es.head, m);
      var a := Eval(g, es.head, m);
      if a.Some? { EvalArgsSame(g, h, es.tail, a.value.mem); }
    }
  }

  lemma {:induction false} EvalLineSame(g: Host, h: Host, line: Exprs, m: Memory)
    requires Agree(g, h)
    ensures EvalLine(g, line, m) == EvalLine(h, line, m)
  {
    if line.Cons? {
      EvalSame(g, h, line.head, m);
      var a := Eval(g, line.head, m);
      if a.Some? { EvalLineSame(g, h, line.tail, a.value.mem); }
    }
  }

  // On the target the machine ends with what evaluation gives under any account h of the operators and the
  // memory that has their meaning: sums, products and shifts modulo 2^32, division that truncates toward zero,
  // bit operators bit by bit, little-endian dwords.
  method CompileAndRunTarget(n: Node, ghost line: Exprs, c: Compiler, vm: Vm, calls: Calls, ghost h: Host)
    returns (ok: bool)
    requires Real(h) && h.calls == calls
    requires c.Valid() && vm.Valid() && c.text == vm.text
    requires IsTrees(n, line) && AllWellTyped(line)
    requires Distinct(n) && Parsed(c.idtype[..], c.dataType[..], n) && c.idtype.Length <= FINSH_NODE_MAX
    requires Length(LineInstrs(line)) <= FINSH_TEXT_MAX
    modifies c, c.text, c.idtype, c.dataType, vm, vm.slots
    ensures vm.Valid()
    ensures ok == EvalLine(h, line, old(vm.mem)).Some?
    ensures ok ==> EvalLine(h, line, old(vm.mem)) == Some(vm.View())
  {
    var host := Target(calls);
    TargetCoherent(calls);
    TargetReal(calls);
    RealAgree(host, h);
    EvalLineSame(host, h, line, vm.mem);
    ok := CompileAndRun(n, line, c, vm, host);
  }

  // A call evaluates its arguments, in order, and passes exactly their values; without arguments it passes a 0.
  lemma InvokePasses(host: Host, f: Word, args: Exprs, m: Memory)
    requires EvalArgs(host, args, m).Some?
    ensures var a := EvalArgs(host, args, m).value;
      var r := host.calls(f, if args.Nil? then [0] else a.values, a.mem);
      Eval(host, Invoke(f, args), m) == Some(Answer(r.0, r.1)) && |a.values| == Count(args)
  {
    assert args.Cons? ==> Count(args) > 0;
  }

  // On the real machine a step adds or subtracts one modulo 2^32, and memory is coherent.
  lemma TargetStep(calls: Calls, s: Step, x: Word, m: Memory)
    ensures Target(calls).Coherent()
    ensures Eval(Target(calls), Stepped(s, x), m) ==
            (var before := Load(m, x);
             var after := Wrap(before + if s.PreInc? || s.PostInc? then 1 else -1);
             Some(Answer(if s.PreInc? || s.PreDec? then after else before, Store(m, x, after))))
  {
    TargetCoherent(calls);
    assert Target(calls).arith(StepOp(s), Load(m, x), 1) == Arith(StepOp(s), Load(m, x), 1);
  }

  // --- what happens to ill-typed operators ---------------------------------------------------------------

  function Delta(i: Instr): int {
    match i
    case Bin(_) => -1
    case LdDword(_) => 1
    case LdValue(_) => 1
    case StDword => -1
    case Pop => -1
    case Syscall(n) => 0 - n as int
    case _ => 0
  }

  function Net(code: seq<Instr>): int {
    if code == [] then 0 else Delta(code[0]) + Net(code[1..])
  }

  lemma {:induction false} NetAppend(c: seq<Instr>, d: seq<Instr>)
    ensures Net(c + d) == Net(c) + Net(d)
  {
    if c == [] {
      assert c + d == d;
    } else {
      assert (c + d)[0] == c[0] && (c + d)[1..] == c[1..] + d;
      NetAppend(c[1..], d);
    }
  }

  lemma ExecHeight(host: Host, i: Instr, s: Machine)
    ensures var r := Exec(host, i, s); r.Some? ==> |r.value.stack| == |s.stack| + Delta(i)
  {
  }

  lemma {:induction false} NetHeight(host: Host, code: seq<Instr>, s: Machine)
    ensures var r := ExecAll(host, code, s); r.Some? ==> |r.value.stack| == |s.stack| + Net(code)
  {
    if code != [] {
      var r := Exec(host, code[0], s);
      ExecHeight(host, code[0], s);
      if r.Some? { NetHeight(host, code[1..], r.value); }
    }
  }

  // Operators of two operands for which no opcode is emitted.
  function Dropped(e: Expr): nat
    decreases e
  {
    match e
    case Not(e1) => Dropped(e1)
    case Binary(_, l, r) => (if Typed(l) then 0 else 1) + Dropped(l) + Dropped(r)
    case Assign(_, e1) => Dropped(e1)
    case AssignThrough(p, e1) => (if Typed(p) then 0 else 1) + Dropped(p) + Dropped(e1)
    case Deref(e1) => Dropped(e1)
    case AddressOfDeref(e1) => Dropped(e1)
    case Invoke(_, args) => AllDropped(args)
    case _ => 0
  }

  function AllDropped(es: Exprs): nat
    decreases es
  {
    if es.Nil? then 0 else Dropped(es.head) + AllDropped(es.tail)
  }

  predicate FewArguments(e: Expr)
    decreases e
  {
    match e
    case Not(e1) => FewArguments(e1)
    case Binary(_, l, r) => FewArguments(l) && FewArguments(r)
    case Assign(_, e1) => FewArguments(e1)
    case AssignThrough(p, e1) => FewArguments(p) && FewArguments(e1)
    case Deref(e1) => FewArguments(e1)
    case AddressOfDeref(e1) => FewArguments(e1)
    case Invoke(_, args) => Count(args) <= PARAMETER_MAX && AllFewArguments(args)
    case _ => true
  }

  predicate AllFewArguments(es: Exprs)
    decreases es
  {
    es.Cons? ==> FewArguments(es.head) && AllFewArguments(es.tail)
  }

  lemma Net3(a: seq<Instr>, b: seq<Instr>, c: seq<Instr>)
    ensures Net(a + b + c) == Net(a) + Net(b) + Net(c)
  {
    NetAppend(a, b);
    NetAppend(a + b, c);
  }

  lemma NetOne(i: Instr)
    ensures Net([i]) == Delta(i)
  {
    assert [i][1..] == [];
  }

  lemma NetStore()
    ensures Net([StDword, LdValueStack]) == -1
  {
    NetOne(StDword);
    NetOne(LdValueStack);
    NetAppend([StDword], [LdValueStack]);
    assert [StDword] + [LdValueStack] == [StDword, LdValueStack];
  }

  lemma NetSteps(s: Step, x: Word)
    ensures Net(Instrs(Stepped(s, x))) == 1
  {
    var op := StepOp(s);
    NetOne(LdDword(x)); NetOne(LdValue(x)); NetOne(LdDword(1)); NetOne(Bin(op)); NetOne(Pop); NetOne(StDword);
    NetStore();
    if s.PreInc? || s.PreDec? {
      Net3([LdDword(x)], [LdValue(x)], [LdDword(1)]);
      Net3([LdDword(x)] + [LdValue(x)] + [LdDword(1)], [Bin(op)], [StDword, LdValueStack]);
      assert Instrs(Stepped(s, x)) == [LdDword(x)] + [LdValue(x)] + [LdDword(1)] + [Bin(op)] + [StDword, LdValueStack];
    } else {
      var head := [LdValue(x)] + [LdDword(x)] + [LdValue(x)];
      Net3([LdValue(x)], [LdDword(x)], [LdValue(x)]);
      Net3(head, [LdDword(1)], [Bin(op)]);
      Net3(head + [LdDword(1)] + [Bin(op)], [StDword], [Pop]);
      assert Instrs(Stepped(s, x)) == head + [LdDword(1)] + [Bin(op)] + [StDword] + [Pop];
    }
  }

  lemma {:induction false} NetExpr(e: Expr)
    requires FewArguments(e)
    ensures Net(Instrs(e)) == 1 + Dropped(e)
    decreases e
  {
    match e
    case AddressOfDeref(e1) => NetExpr(e1);
    case Not(e1) => NetExpr(e1); NetUnary(e1);
    case Deref(e1) => NetExpr(e1); NetUnary(e1);
    case Binary(op, l, r) =>
      NetExpr(l); NetExpr(r); NetOne(Bin(op)); Net3(Instrs(l), Instrs(r), if Typed(l) then [Bin(op)] else []);
    case Assign(x, e1) => NetExpr(e1); NetAssign(x, e1);
    case AssignThrough(p, e1) =>
      NetExpr(p); NetExpr(e1); NetStore();
      Net3(Instrs(p), Instrs(e1), if Typed(p) then [StDword, LdValueStack] else []);
    case Invoke(f, args) => NetArgs(args); NetCall(f, args);
    case _ => NetLeaf(e);
  }

  lemma NetLeaf(e: Expr)
    requires e.Const? || e.Read? || e.AddressOf? || e.Stepped?
    ensures Net(Instrs(e)) == 1
  {
    match e
    case Const(v) => NetOne(LdDword(v));
    case Read(x) => NetOne(LdValue(x.addr));
    case AddressOf(x) => NetOne(LdDword(x.addr));
    case Stepped(s, x) => NetSteps(s, x);
  }

  lemma NetUnary(e: Expr)
    ensures Net(Instrs(Not(e))) == Net(Instrs(Deref(e))) == Net(Instrs(e))
  {
    NetOne(BitNot);
    NetOne(LdValueStack);
    NetAppend(Instrs(e), if Typed(e) then [BitNot] else []);
    NetAppend(Instrs(e), if Typed(e) then [LdValueStack] else []);
  }

  lemma NetAssign(x: Place, e: Expr)
    ensures Net(Instrs(Assign(x, e))) == Net(Instrs(e))
  {
    NetOne(LdDword(x.addr));
    NetStore();
    Net3([LdDword(x.addr)], Instrs(e), [StDword, LdValueStack]);
  }

  lemma NetCall(f: Word, args: Exprs)
    requires Count(args) <= PARAMETER_MAX
    ensures Net(Instrs(Invoke(f, args))) == 1 + Net(ArgInstrs(args)) - Count(args)
  {
    var k: Byte := Count(args);
    NetLoadsAndCall(f, ArgInstrs(args), k);
    assert Instrs(Invoke(f, args)) == [LdDword(f)] + ArgInstrs(args) + [Syscall(k)];
  }

  lemma NetLoadsAndCall(f: Word, loads: seq<Instr>, k: Byte)
    ensures Net([LdDword(f)] + loads + [Syscall(k)]) == 1 + Net(loads) - k
  {
    NetOne(LdDword(f));
    NetOne(Syscall(k));
    Net3([LdDword(f)], loads, [Syscall(k)]);
  }

  lemma {:induction false} NetArgs(es: Exprs)
    requires AllFewArguments(es)
    ensures Net(ArgInstrs(es)) == Count(es) + AllDropped(es)
    decreases es
  {
    if es.Cons? {
      NetExpr(es.head);
      NetArgs(es.tail);
      NetAppend(Instrs(es.head), ArgInstrs(es.tail));
    }
  }

  // Whatever runs to its end leaves exactly one slot if and only if no two-operand operator
  // takes its type from a call.
  lemma OneSlotIffTyped(host: Host, e: Expr, st: seq<Word>, m: Memory)
    requires FewArguments(e)
    ensures var r := ExecAll(host, Instrs(e), Machine(st, m));
            r.Some? ==> (|r.value.stack| == |st| + 1 <==> Dropped(e) == 0)
  {
    NetExpr(e);
    NetHeight(host, Instrs(e), Machine(st, m));
  }

  // f() + 1 leaves two slots, the result of f and 1: no machine adds them.
  lemma SumOfCallIsNotAdded(host: Host, f: Word, m: Memory)
    ensures var e := Binary(Add, Invoke(f, Nil), Const(1));
            && Dropped(e) == 1
            && ExecAll(host, Instrs(e), Machine([], m)) ==
               Some(Machine([host.calls(f, [0], m).0, 1], host.calls(f, [0], m).1))
  {
    var call := Invoke(f, Nil);
    ExecOne(host, LdDword(f), Machine([], m));
    assert [LdDword(f)] + [] == [LdDword(f)] && [] + [f] == [f] && [f] + [] == [f];
    PushCall(host, f, [], 0, [], m, Some(Answers([], m)));
    var r := host.calls(f, [0], m);
    assert Instrs(call) == [LdDword(f)] + [Syscall(0)];
    assert Dropped(call) == AllDropped(Nil) == 0;
    ExecThen(host, Instrs(call), LdDword(1), Machine([], m));
    assert [] + [r.0] == [r.0] && [r.0] + [1] == [r.0, 1];
    assert Instrs(Binary(Add, call, Const(1))) == Instrs(call) + [LdDword(1)];
  }

  // --- what the code computes instead --------------------------------------------------------------------

  // The expression without the operators of one operand that take their type from a call.
  function Erase(e: Expr): Expr
    decreases e
  {
    match e
    case Not(e1) => if Typed(e1) then Not(Erase(e1)) else Erase(e1)
    case Binary(op, l, r) => Binary(op, Erase(l), Erase(r))
    case Assign(x, e1) => Assign(x, Erase(e1))
    case AssignThrough(p, e1) => AssignThrough(Erase(p), Erase(e1))
    case Deref(e1) => if Typed(e1) then Deref(Erase(e1)) else Erase(e1)
    case AddressOfDeref(e1) => AddressOfDeref(Erase(e1))
    case Invoke(f, args) => Invoke(f, EraseAll(args))
    case _ => e
  }

  function EraseAll(es: Exprs): Exprs
    decreases es
  {
    match es case Nil => Nil case Cons(e, rest) => Cons(Erase(e), EraseAll(rest))
  }

  // It has the same type and the same code.
  lemma {:induction false} EraseCode(e: Expr)
    ensures Typed(Erase(e)) == Typed(e) && Instrs(Erase(e)) == Instrs(e) && Depth(Erase(e)) == Depth(e)
    decreases e
  {
    match e
    case Not(e1) => EraseCode(e1); assert Instrs(e1) + [] == Instrs(e1);
    case Binary(op, l, r) => EraseCode(l); EraseCode(r);
    case Assign(x, e1) => EraseCode(e1);
    case AssignThrough(p, e1) => EraseCode(p); EraseCode(e1);
    case Deref(e1) => EraseCode(e1); assert Instrs(e1) + [] == Instrs(e1);
    case AddressOfDeref(e1) => EraseCode(e1);
    case Invoke(f, args) => EraseArgs(args);
    case _ =>
  }

  lemma {:induction false} EraseArgs(es: Exprs)
    ensures Count(EraseAll(es)) == Count(es) && ArgInstrs(EraseAll(es)) == ArgInstrs(es)
    ensures ArgDepth(EraseAll(es)) == ArgDepth(es)
    decreases es
  {
    if es.Cons? { EraseCode(es.head); EraseArgs(es.tail); }
  }

  lemma {:induction false} EraseWell(e: Expr)
    requires FewArguments(e) && Dropped(e) == 0
    ensures WellTyped(Erase(e))
    decreases e
  {
    EraseCode(e);
    match e
    case Not(e1) => EraseCode(e1); EraseWell(e1);
    case Binary(op, l, r) => EraseCode(l); EraseWell(l); EraseWell(r);
    case Assign(x, e1) => EraseWell(e1);
    case AssignThrough(p, e1) => EraseCode(p); EraseWell(p); EraseWell(e1);
    case Deref(e1) => EraseCode(e1); EraseWell(e1);
    case AddressOfDeref(e1) => EraseWell(e1);
    case Invoke(f, args) => EraseArgs(args); EraseAllWell(args);
    case _ =>
  }

  lemma {:induction false} EraseAllWell(es: Exprs)
    requires AllFewArguments(es) && AllDropped(es) == 0
    ensures AllWellTyped(EraseAll(es))
    decreases es
  {
    if es.Cons? { EraseWell(es.head); EraseAllWell(es.tail); }
  }

  // A well-typed expression loses nothing.
  lemma {:induction false} EraseNothing(e: Expr)
    requires WellTyped(e)
    ensures Erase(e) == e && Dropped(e) == 0 && FewArguments(e)
    decreases e
  {
    match e
    case Not(e1) => EraseNothing(e1);
    case Binary(op, l, r) => EraseNothing(l); EraseNothing(r);
    case Assign(x, e1) => EraseNothing(e1);
    case AssignThrough(p, e1) => EraseNothing(p); EraseNothing(e1);
    case Deref(e1) => EraseNothing(e1);
    case AddressOfDeref(e1) => EraseNothing(e1);
    case Invoke(f, args) => EraseNone(args);
    case _ =>
  }

  lemma {:induction false} EraseNone(es: Exprs)
    requires AllWellTyped(es)
    ensures EraseAll(es) == es && AllDropped(es) == 0 && AllFewArguments(es)
    decreases es
  {
    if es.Cons? { EraseNothing(es.head); EraseNone(es.tail); }
  }

  lemma PushedSame(st: seq<Word>, a: Option<Answer>, b: Option<Answer>)
    ensures Pushed(st, a) == Pushed(st, b) <==> a == b
  {
    if a.Some? && b.Some? && Pushed(st, a) == Pushed(st, b) {
      assert (st + [a.value.value])[|st|] == (st + [b.value.value])[|st|];
    }
  }

  // For every expression: code that leaves one slot leaves the value of the expression without the
  // operators that were dropped; so whatever runs to its end is right exactly if no operator of two
  // operands was dropped and the others that were make no difference to the value.
  lemma RightIff(host: Host, e: Expr, st: seq<Word>, m: Memory)
    requires host.Coherent() && FewArguments(e) && |st| + Depth(e) <= FINSH_STACK_MAX
    ensures var r := ExecAll(host, Instrs(e), Machine(st, m));
      && (Dropped(e) == 0 ==> r == Pushed(st, Eval(host, Erase(e), m)))
      && (r.Some? ==>
            (r == Pushed(st, Eval(host, e, m)) <==> Dropped(e) == 0 && Eval(host, Erase(e), m) == Eval(host, e, m)))
  {
    EraseCode(e);
    OneSlotIffTyped(host, e, st, m);
    PushedSame(st, Eval(host, Erase(e), m), Eval(host, e, m));
    if Dropped(e) == 0 {
      EraseWell(e);
      ExecExpr(host, Erase(e), st, m);
    }
  }

  lemma CallAlone(f: Word)
    ensures var call := Invoke(f, Nil);
      && FewArguments(call) && Dropped(call) == 0 && Depth(call) == 1 && Erase(call) == call && !Typed(call)
  {
    assert AllFewArguments(Nil) && AllDropped(Nil) == 0 && ArgDepth(Nil) == 0 && EraseAll(Nil) == Nil;
  }

  // ~f() computes f(), which is never right.
  lemma NotOfCall(host: Host, f: Word, st: seq<Word>, m: Memory)
    requires host.Coherent() && |st| < FINSH_STACK_MAX
    ensures var e := Not(Invoke(f, Nil)); var r := ExecAll(host, Instrs(e), Machine(st, m));
      Dropped(e) == 0 && r == Pushed(st, Eval(host, Invoke(f, Nil), m)) && r.Some? && r != Pushed(st, Eval(host, e, m))
  {
    CallAlone(f);
    RightIff(host, Not(Invoke(f, Nil)), st, m);
    var a := Eval(host, Invoke(f, Nil), m);
    assert EvalArgs(host, Nil, m).Some? && a.Some?;
    PushedSame(st, a, Eval(host, Not(Invoke(f, Nil)), m));
  }

  // *f() computes f(), which is right only where a word holds its own address.
  lemma DerefOfCall(host: Host, f: Word, st: seq<Word>, m: Memory)
    requires host.Coherent() && |st| < FINSH_STACK_MAX
    ensures var e := Deref(Invoke(f, Nil)); var a := Eval(host, Invoke(f, Nil), m);
      && a.Some? && ExecAll(host, Instrs(e), Machine(st, m)) == Pushed(st, a)
      && (Pushed(st, a) == Pushed(st, Eval(host, e, m)) <==> host.load(a.value.mem, a.value.value) == a.value.value)
  {
    CallAlone(f);
    RightIff(host, Deref(Invoke(f, Nil)), st, m);
    assert EvalArgs(host, Nil, m).Some?;
    PushedSame(st, Eval(host, Invoke(f, Nil), m), Eval(host, Deref(Invoke(f, Nil)), m));
  }

  // ~~f() computes f(), which is right although it is not well-typed.
  lemma NotNotOfCall(host: Host, f: Word, st: seq<Word>, m: Memory)
    requires host.Coherent() && |st| < FINSH_STACK_MAX
    ensures var e := Not(Not(Invoke(f, Nil)));
      !WellTyped(e) && ExecAll(host, Instrs(e), Machine(st, m)) == Pushed(st, Eval(host, e, m))
  {
    CallAlone(f);
    var call := Invoke(f, Nil);
    assert Dropped(Not(call)) == 0 && Erase(Not(call)) == call && !Typed(Not(call));
    RightIff(host, Not(Not(call)), st, m);
    var a := Eval(host, call, m);
    assert EvalArgs(host, Nil, m).Some? && a.Some?;
    assert Eval(host, Not(call), m) == Some(Answer(BitFlip(a.value.value), a.value.mem));
    assert Eval(host, Not(Not(call)), m) == a;
  }
}
