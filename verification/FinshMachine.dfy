// The 32-bit part of the finsh stack machine: little-endian operands, byte-addressed memory,
// the dword instructions, and the fetch/dispatch loop over the text segment.

module FinshMachine {

  const WORD_SPAN := 0x1_0000_0000

  type Word = w: int | 0 <= w < WORD_SPAN
  type Byte = b: int | 0 <= b < 256

  const FINSH_STACK_MAX := 64
  const FINSH_TEXT_MAX := 128
  const PARAMETER_MAX := 16

  // --- operands: FINSH_SET32 and FINSH_GET32 (shifts and masks written as / and %) -----------

  function Set32(v: Word): (bs: seq<Byte>)
    ensures |bs| == 4
  {
    [v % 0x100, v / 0x100 % 0x100, v / 0x1_0000 % 0x100, v / 0x100_0000]
  }

  function Get32(b0: Byte, b1: Byte, b2: Byte, b3: Byte): Word {
    b0 + b1 * 0x100 + b2 * 0x1_0000 + b3 * 0x100_0000
  }

  lemma OperandRoundTrip(v: Word)
    ensures var bs := Set32(v); Get32(bs[0], bs[1], bs[2], bs[3]) == v
  {
    var h := v / 0x100;
    assert v / 0x1_0000 == h / 0x100 && v / 0x100_0000 == h / 0x100 / 0x100;
  }

  // --- memory: little-endian dwords over bytes; the address space wraps at 2^32 -----------

  type Memory = map<Word, Byte>

  function Peek(m: Memory, a: int): Byte {
    var w: Word := a % WORD_SPAN;
    if w in m then m[w] else 0
  }

  function Poke(m: Memory, a: int, b: Byte): Memory { m[a % WORD_SPAN := b] }

  function Load(m: Memory, a: Word): Word {
    Get32(Peek(m, a), Peek(m, a + 1), Peek(m, a + 2), Peek(m, a + 3))
  }

  function Store(m: Memory, a: Word, v: Word): Memory {
    var bs := Set32(v);
    Poke(Poke(Poke(Poke(m, a, bs[0]), a + 1, bs[1]), a + 2, bs[2]), a + 3, bs[3])
  }

  lemma PeekPoke(m: Memory, a: Word, i: nat, j: nat, b: Byte)
    requires i < 4 && j < 4
    ensures Peek(Poke(m, a + i, b), a + j) == if i == j then b else Peek(m, a + j)
  {
    if i != j {
      assert (a + i) % WORD_SPAN != (a + j) % WORD_SPAN;
    }
  }

  lemma LoadAfterStore(m: Memory, a: Word, v: Word)
    ensures Load(Store(m, a, v), a) == v
  {
    var bs := Set32(v);
    var m1 := Poke(m, a + 0, bs[0]);
    var m2 := Poke(m1, a + 1, bs[1]);
    var m3 := Poke(m2, a + 2, bs[2]);
    var m4 := Poke(m3, a + 3, bs[3]);
    assert Peek(m4, a + 0) == bs[0] by {
      PeekPoke(m, a, 0, 0, bs[0]); PeekPoke(m1, a, 1, 0, bs[1]);
      PeekPoke(m2, a, 2, 0, bs[2]); PeekPoke(m3, a, 3, 0, bs[3]);
    }
    assert Peek(m4, a + 1) == bs[1] by {
      PeekPoke(m1, a, 1, 1, bs[1]); PeekPoke(m2, a, 2, 1, bs[2]); PeekPoke(m3, a, 3, 1, bs[3]);
    }
    assert Peek(m4, a + 2) == bs[2] by { PeekPoke(m2, a, 2, 2, bs[2]); PeekPoke(m3, a, 3, 2, bs[3]); }
    assert Peek(m4, a + 3) == bs[3] by { PeekPoke(m3, a, 3, 3, bs[3]); }
    OperandRoundTrip(v);
  }

  // --- dword arithmetic --------------------------------------------------------------------

  datatype Option<+T> = None | Some(value: T)

  datatype BinOp = Add | Sub | Mul | Div | Mod | And | Or | Xor | Shl | Shr

  function Wrap(i: int): Word { i % WORD_SPAN }

  // The two's complement reading of a word.
  function Signed(a: Word): int { if a < 0x8000_0000 then a else a - WORD_SPAN }

  function Abs(i: int): nat { if i < 0 then -i else i }

  // C division and remainder truncate toward zero.
  function TruncDiv(i: int, j: int): int
    requires j != 0
  {
    var q := Abs(i) / Abs(j);
    if (i < 0) != (j < 0) then -q else q
  }

  function TruncMod(i: int, j: int): int
    requires j != 0
  {
    var r := Abs(i) % Abs(j);
    if i < 0 then -r else r
  }

  function Pow2(n: nat): (p: nat)
    ensures p > 0
  {
    if n == 0 then 1 else 2 * Pow2(n - 1)
  }

  lemma WordBits()
    ensures Pow2(32) == WORD_SPAN
  {
    assert Pow2(8) == 0x100;
    assert Pow2(16) == 0x1_0000;
    assert Pow2(24) == 0x100_0000;
  }

  // The word whose low n bits combine those of a and b by f.
  function Bitwise(f: (bool, bool) -> bool, a: nat, b: nat, n: nat): (r: nat)
    ensures r < Pow2(n)
    decreases n
  {
    if n == 0 then 0
    else (if f(a % 2 == 1, b % 2 == 1) then 1 else 0) + 2 * Bitwise(f, a / 2, b / 2, n - 1)
  }

  function BitAnd(a: Word, b: Word): Word { WordBits(); Bitwise((x, y) => x && y, a, b, 32) }
  function BitOr(a: Word, b: Word): Word { WordBits(); Bitwise((x, y) => x || y, a, b, 32) }
  function BitXor(a: Word, b: Word): Word { WordBits(); Bitwise((x, y) => x != y, a, b, 32) }
  function BitFlip(a: Word): Word { WORD_SPAN - 1 - a }

  // C leaves division by zero and shifts by 32 or more undefined: no value.
  function Arith(op: BinOp, a: Word, b: Word): Option<Word> {
    match op
    case Add => Some(Wrap(a + b))
    case Sub => Some(Wrap(a - b))
    case Mul => Some(Wrap(Signed(a) * Signed(b)))
    case Div => if b == 0 then None else Some(Wrap(TruncDiv(Signed(a), Signed(b))))
    case Mod => if b == 0 then None else Some(Wrap(TruncMod(Signed(a), Signed(b))))
    case And => Some(BitAnd(a, b))
    case Or => Some(BitOr(a, b))
    case Xor => Some(BitXor(a, b))
    case Shl => if b < 32 then Some(Wrap(a * Pow2(b))) else None
    case Shr => if b < 32 then Some(Wrap(Signed(a) / Pow2(b))) else None
  }

  // --- instructions ------------------------------------------------------------------------

  datatype Instr =
    | Noop
    | Bin(op: BinOp)
    | BitNot
    | LdDword(v: Word)
    | LdValue(a: Word)
    | LdValueStack
    | StDword
    | Pop
    | Syscall(n: Byte)

  function BinCode(op: BinOp): Byte {
    match op
    case Add => 0x03
    case Sub => 0x06
    case Div => 0x09
    case Mod => 0x0C
    case Mul => 0x0F
    case And => 0x12
    case Or => 0x15
    case Xor => 0x18
    case Shl => 0x1E
    case Shr => 0x21
  }

  const OP_NOOP: Byte := 0x00
  const OP_BITWISE_DWORD: Byte := 0x1B
  const OP_LD_DWORD: Byte := 0x24
  const OP_LD_VALUE_DWORD: Byte := 0x27
  const OP_ST_DWORD: Byte := 0x2A
  const OP_POP: Byte := 0x2B
  const OP_SYSCALL: Byte := 0x2C
  const OP_LD_VALUE_DWORD_STACK: Byte := 0x2F

  function Encode(i: Instr): (bs: seq<Byte>)
    ensures 1 <= |bs| <= 5
  {
    match i
    case Noop => [OP_NOOP]
    case Bin(op) => [BinCode(op)]
    case BitNot => [OP_BITWISE_DWORD]
    case LdDword(v) => [OP_LD_DWORD] + Set32(v)
    case LdValue(a) => [OP_LD_VALUE_DWORD] + Set32(a)
    case LdValueStack => [OP_LD_VALUE_DWORD_STACK]
    case StDword => [OP_ST_DWORD]
    case Pop => [OP_POP]
    case Syscall(n) => [OP_SYSCALL, n]
  }

  function EncodeAll(code: seq<Instr>): seq<Byte> {
    if code == [] then [] else Encode(code[0]) + EncodeAll(code[1..])
  }

  function BinOf(b: Byte): Option<BinOp> {
    if b == 0x03 then Some(Add) else if b == 0x06 then Some(Sub) else if b == 0x09 then Some(Div)
    else if b == 0x0C then Some(Mod) else if b == 0x0F then Some(Mul) else if b == 0x12 then Some(And)
    else if b == 0x15 then Some(Or) else if b == 0x18 then Some(Xor) else if b == 0x1E then Some(Shl)
    else if b == 0x21 then Some(Shr) else None
  }

  // The first instruction of the bytes, with its length.  None: no dword handler is selected by
  // the byte, or its operand runs past the end.
  function Decode(bs: seq<Byte>): (r: Option<(Instr, nat)>)
    ensures r.Some? ==> 0 < r.value.1 <= |bs|
  {
    if bs == [] then None
    else
      var op := bs[0];
      if op == OP_NOOP then Some((Noop, 1))
      else if BinOf(op).Some? then Some((Bin(BinOf(op).value), 1))
      else if op == OP_BITWISE_DWORD then Some((BitNot, 1))
      else if op == OP_LD_VALUE_DWORD_STACK then Some((LdValueStack, 1))
      else if op == OP_ST_DWORD then Some((StDword, 1))
      else if op == OP_POP then Some((Pop, 1))
      else if op == OP_SYSCALL && |bs| > 1 then Some((Syscall(bs[1]), 2))
      else if op == OP_LD_DWORD && |bs| > 4 then Some((LdDword(Get32(bs[1], bs[2], bs[3], bs[4])), 5))
      else if op == OP_LD_VALUE_DWORD && |bs| > 4 then Some((LdValue(Get32(bs[1], bs[2], bs[3], bs[4])), 5))
      else None
  }

  lemma DecodeEncode(i: Instr, post: seq<Byte>)
    ensures Decode(Encode(i) + post) == Some((i, |Encode(i)|))
  {
    var bs := Encode(i) + post;
    assert forall k :: 0 <= k < |Encode(i)| ==> bs[k] == Encode(i)[k];
    assert bs[0] == Encode(i)[0];
    match i
    case LdDword(v) => OperandRoundTrip(v);
    case LdValue(a) => OperandRoundTrip(a);
    case Bin(op) => assert BinOf(BinCode(op)) == Some(op);
    case _ =>
  }

  // --- execution ---------------------------------------------------------------------------

  // What a system call does: from its address, its arguments and memory to a result and memory.
  type Calls = (Word, seq<Word>, Memory) -> (Word, Memory)

  // The machine the shell runs on: its dword arithmetic, its memory access and its system calls.
  datatype Host = Host(
    arith: (BinOp, Word, Word) -> Option<Word>,
    load: (Memory, Word) -> Word,
    store: (Memory, Word, Word) -> Memory,
    calls: Calls)
  {
    // What the compiler counts on: a stored dword reads back.
    ghost predicate Coherent() { forall m, a, v :: load(store(m, a, v), a) == v }
  }

  function Target(calls: Calls): Host {
    Host((op, a, b) => Arith(op, a, b), (m, a) => Load(m, a), (m, a, v) => Store(m, a, v), calls)
  }

  lemma TargetCoherent(calls: Calls)
    ensures Target(calls).Coherent()
  {
    forall m, a, v ensures Target(calls).load(Target(calls).store(m, a, v), a) == v { LoadAfterStore(m, a, v); }
  }

  datatype Machine = Machine(stack: seq<Word>, mem: Memory)

  // OP_call passes a single 0 to a function called without parameters.
  function Passed(args: seq<Word>): seq<Word> { if args == [] then [0] else args }

  // None: the C handler would leave its stack, its parameter array or the defined arithmetic.
  function Exec(host: Host, i: Instr, s: Machine): (r: Option<Machine>)
    ensures r.Some? && |s.stack| <= FINSH_STACK_MAX ==> |r.value.stack| <= FINSH_STACK_MAX
  {
    var n := |s.stack|;
    match i
    case Noop => Some(s)
    case Bin(op) =>
      if n < 2 then None
      else
        var v := host.arith(op, s.stack[n - 2], s.stack[n - 1]);
        if v.None? then None else Some(s.(stack := s.stack[..n - 2] + [v.value]))
    case BitNot => if n < 1 then None else Some(s.(stack := s.stack[..n - 1] + [BitFlip(s.stack[n - 1])]))
    case LdDword(v) => if n >= FINSH_STACK_MAX then None else Some(s.(stack := s.stack + [v]))
    case LdValue(a) => if n >= FINSH_STACK_MAX then None else Some(s.(stack := s.stack + [host.load(s.mem, a)]))
    case LdValueStack =>
      if n < 1 then None else Some(s.(stack := s.stack[..n - 1] + [host.load(s.mem, s.stack[n - 1])]))
    case StDword =>
      if n < 2 then None
      else Some(Machine(s.stack[..n - 1], host.store(s.mem, s.stack[n - 2], s.stack[n - 1])))
    case Pop => if n < 1 then None else Some(s.(stack := s.stack[..n - 1]))
    case Syscall(b) =>
      var k: nat := b;
      if k > PARAMETER_MAX || n < k + 1 then None
      else
        var r := host.calls(s.stack[n - k - 1], Passed(s.stack[n - k..]), s.mem);
        Some(Machine(s.stack[..n - k - 1] + [r.0], r.1))
  }

  function ExecAll(host: Host, code: seq<Instr>, s: Machine): Option<Machine> {
    if code == [] then Some(s)
    else
      var r := Exec(host, code[0], s);
      if r.None? then None else ExecAll(host, code[1..], r.value)
  }

  lemma {:induction false} ExecAppend(host: Host, c: seq<Instr>, d: seq<Instr>, s: Machine)
    ensures ExecAll(host, c + d, s) ==
            (var r := ExecAll(host, c, s); if r.None? then None else ExecAll(host, d, r.value))
  {
    if c == [] {
      assert c + d == d;
    } else {
      assert (c + d)[0] == c[0] && (c + d)[1..] == c[1..] + d;
      var r := Exec(host, c[0], s);
      if r.Some? { ExecAppend(host, c[1..], d, r.value); }
    }
  }

  lemma {:induction false} EncodeAppend(c: seq<Instr>, d: seq<Instr>)
    ensures EncodeAll(c + d) == EncodeAll(c) + EncodeAll(d)
  {
    if c == [] {
      assert c + d == d;
    } else {
      assert (c + d)[0] == c[0] && (c + d)[1..] == c[1..] + d;
      EncodeAppend(c[1..], d);
    }
  }

  // The loop of finsh_vm_run over the bytes from pc on.
  function RunBytes(host: Host, bs: seq<Byte>, s: Machine): Option<Machine> {
    if bs == [] then Some(s)
    else
      var d := Decode(bs);
      if d.None? then None
      else
        var r := Exec(host, d.value.0, s);
        if r.None? then None else RunBytes(host, bs[d.value.1..], r.value)
  }

  function Zeros(n: nat): (z: seq<Byte>)
    ensures |z| == n && forall k :: 0 <= k < n ==> z[k] == 0
  {
    seq(n, k => 0)
  }

  lemma {:induction false} ZeroTailIsNoop(host: Host, n: nat, s: Machine)
    ensures RunBytes(host, Zeros(n), s) == Some(s)
  {
    if n > 0 {
      assert Decode(Zeros(n)) == Some((Noop, 1));
      assert Zeros(n)[1..] == Zeros(n - 1);
      ZeroTailIsNoop(host, n - 1, s);
    }
  }

  // Running encoded bytes followed by the cleared rest of the text segment is executing the
  // instructions they encode.
  lemma {:induction false} RunEncoded(host: Host, code: seq<Instr>, n: nat, s: Machine)
    ensures RunBytes(host, EncodeAll(code) + Zeros(n), s) == ExecAll(host, code, s)
    decreases |code|
  {
    if code == [] {
      assert EncodeAll(code) + Zeros(n) == Zeros(n);
      ZeroTailIsNoop(host, n, s);
    } else {
      var i, rest := code[0], EncodeAll(code[1..]) + Zeros(n);
      assert EncodeAll(code) + Zeros(n) == Encode(i) + rest;
      RunOne(host, i, rest, s);
      var r := Exec(host, i, s);
      if r.Some? { RunEncoded(host, code[1..], n, r.value); }
    }
  }

  lemma RunOne(host: Host, i: Instr, rest: seq<Byte>, s: Machine)
    ensures RunBytes(host, Encode(i) + rest, s) ==
            (var r := Exec(host, i, s); if r.None? then None else RunBytes(host, rest, r.value))
  {
    DecodeEncode(i, rest);
    RunDecoded(host, Encode(i) + rest, i, |Encode(i)|, s);
    assert (Encode(i) + rest)[|Encode(i)|..] == rest;
  }

  lemma RunDecoded(host: Host, bs: seq<Byte>, i: Instr, n: nat, s: Machine)
    requires Decode(bs) == Some((i, n))
    ensures RunBytes(host, bs, s) ==
            (var r := Exec(host, i, s); if r.None? then None else RunBytes(host, bs[n..], r.value))
  {
  }

  // --- the machine itself --------------------------------------------------------------------

  class Vm {
    const text: array<Byte>
    const slots: array<Word>
    var sp: nat
    var pc: nat
    var mem: Memory

    ghost predicate Valid()
      reads this
    {
      && text.Length == FINSH_TEXT_MAX
      && slots.Length == FINSH_STACK_MAX
      && sp <= slots.Length
    }

    ghost function View(): Machine
      reads this, slots
      requires Valid()
    {
      Machine(slots[..sp], mem)
    }

    constructor (mem: Memory)
      ensures Valid() && fresh(text) && fresh(slots)
      ensures this.mem == mem
    {
      text := new Byte[FINSH_TEXT_MAX](_ => 0);
      slots := new Word[FINSH_STACK_MAX](_ => 0);
      sp, pc := 0, 0;
      this.mem := mem;
    }

    // OP_BIN_DWORD
    method OpBin(op: BinOp, host: Host) returns (ok: bool)
      requires Valid()
      modifies this`sp, slots
      ensures Valid()
      ensures ok == Exec(host, Bin(op), old(View())).Some?
      ensures ok ==> Exec(host, Bin(op), old(View())) == Some(View())
    {
      ghost var s := View();
      if sp < 2 { return false; }
      var v := host.arith(op, slots[sp - 2], slots[sp - 1]);
      if v.None? { return false; }
      slots[sp - 2] := v.value;
      sp := sp - 1;
      assert View().stack == s.stack[..|s.stack| - 2] + [v.value];
      ok := true;
    }

    method Push(v: Word) returns (ok: bool)
      requires Valid()
      modifies this`sp, slots
      ensures Valid() && ok == (old(sp) < FINSH_STACK_MAX)
      ensures ok ==> View() == Machine(old(View()).stack + [v], old(mem))
    {
      if sp >= FINSH_STACK_MAX { return false; }
      slots[sp] := v;
      sp := sp + 1;
      ok := true;
    }

    // OP_call: the parameters are popped last to first, then the function address.
    method OpCall(n: Byte, host: Host) returns (ok: bool)
      requires Valid()
      modifies this`sp, this`mem, slots
      ensures Valid()
      ensures ok == Exec(host, Syscall(n), old(View())).Some?
      ensures ok ==> Exec(host, Syscall(n), old(View())) == Some(View())
    {
      ghost var s := View();
      var parameters: nat := n;
      if parameters > PARAMETER_MAX || sp < parameters + 1 { return false; }
      var f, args := PopArguments(parameters);
      var r := host.calls(f, Passed(args), mem);
      slots[sp] := r.0;
      sp := sp + 1;
      mem := r.1;
      assert View().stack == s.stack[..|s.stack| - parameters - 1] + [r.0];
      ok := true;
    }

    method PopArguments(parameters: nat) returns (f: Word, args: seq<Word>)
      requires Valid() && parameters <= PARAMETER_MAX && parameters + 1 <= sp
      modifies this`sp
      ensures Valid() && sp == old(sp) - parameters - 1
      ensures f == slots[sp] && args == slots[old(sp) - parameters..old(sp)]
    {
      var parameterv := new Word[PARAMETER_MAX](_ => 0);
      var i := 0;
      sp := sp - 1;
      while i < parameters
        invariant 0 <= i <= parameters
        invariant sp == old(sp) - 1 - i
        invariant forall k :: parameters - i <= k < parameters ==>
                    parameterv[k] == slots[old(sp) - parameters + k]
      {
        parameterv[parameters - 1 - i] := slots[sp];
        sp := sp - 1;
        i := i + 1;
      }
      f := slots[sp];
      args := parameterv[..parameters];
    }

    // The remaining handlers.
    method Dispatch(i: Instr, host: Host) returns (ok: bool)
      requires Valid()
      modifies this`sp, this`mem, slots
      ensures Valid()
      ensures ok == Exec(host, i, old(View())).Some?
      ensures ok ==> Exec(host, i, old(View())) == Some(View())
    {
      ghost var s := View();
      ok := true;
      match i
      case Noop =>
      case Bin(op) => ok := OpBin(op, host);
      case BitNot =>
        if sp < 1 { return false; }
        slots[sp - 1] := BitFlip(slots[sp - 1]);
        assert View().stack == s.stack[..sp - 1] + [BitFlip(s.stack[sp - 1])];
      case LdDword(v) => ok := Push(v);
      case LdValue(a) => ok := Push(host.load(mem, a));
      case LdValueStack =>
        if sp < 1 { return false; }
        slots[sp - 1] := host.load(mem, slots[sp - 1]);
        assert View().stack == s.stack[..sp - 1] + [host.load(mem, s.stack[sp - 1])];
      case StDword =>
        if sp < 2 { return false; }
        mem := host.store(mem, slots[sp - 2], slots[sp - 1]);
        sp := sp - 1;
        assert View().stack == s.stack[..sp];
      case Pop =>
        if sp < 1 { return false; }
        sp := sp - 1;
        assert View().stack == s.stack[..sp];
      case Syscall(n) => ok := OpCall(n, host);
    }

    // finsh_vm_run.  It ends for every content of the text segment: pc only grows.
    method Run(host: Host) returns (ok: bool)
      requires Valid()
      modifies this, slots
      ensures Valid() && text[..] == old(text[..])
      ensures ok == RunBytes(host, old(text[..]), Machine([], old(mem))).Some?
      ensures ok ==> RunBytes(host, old(text[..]), Machine([], old(mem))) == Some(View())
    {
      sp := 0;
      pc := 0;
      ghost var whole := text[..];
      ghost var result := RunBytes(host, whole, Machine([], mem));
      assert whole[0..] == whole && View() == Machine([], mem);
      while pc < FINSH_TEXT_MAX
        invariant Valid() && pc <= FINSH_TEXT_MAX && text[..] == whole
        invariant RunBytes(host, whole[pc..], View()) == result
        decreases FINSH_TEXT_MAX - pc
      {
        var d := Decode(text[pc..]);
        assert text[pc..] == whole[pc..];
        if d.None? { return false; }
        RunDecoded(host, whole[pc..], d.value.0, d.value.1, View());
        assert whole[pc..][d.value.1..] == whole[pc + d.value.1..];
        pc := pc + d.value.1;
        ok := Dispatch(d.value.0, host);
        if !ok { return false; }
      }
      ok := true;
    }
  }
}
