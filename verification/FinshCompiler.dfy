// finsh_type_check, finsh_compile and finsh_compiler_run over child/sibling node trees.
// The trees are fixed by the parser; the two fields the compiler rewrites, idtype and
// data_type, live in the node table and are updated in place.

module FinshCompiler {
  import opened FinshMachine

  // node_type together with the value or identifier a node carries.  Identifiers are the
  // dword variables (int, long and pointer types other than void pointers).
  datatype Kind =
    | IdVar(addr: Word)
    | IdSysVar(addr: Word)
    | IdSyscall(func: Word)
    | Value(v: Word)
    | SysBin(op: BinOp)
    | SysBitwise
    | SysFunc
    | SysAssign
    | SysPreInc
    | SysPreDec
    | SysInc
    | SysDec
    | SysGetValue
    | SysGetAddr
  {
    predicate IsId() { IdVar? || IdSysVar? || IdSyscall? }
    predicate IsStep() { SysPreInc? || SysPreDec? || SysInc? || SysDec? }
  }

  datatype Node = Null | Node(id: nat, kind: Kind, child: Node, sibling: Node)

  datatype DataType = Void | Dword

  const IDTYPE_VAR: bv8 := 0x01
  const IDTYPE_SYSVAR: bv8 := 0x02
  const IDTYPE_SYSCALL: bv8 := 0x04
  const IDTYPE_ADDRESS: bv8 := 0x08

  type AddrFlag = f: bv8 | f == 0 || f == IDTYPE_ADDRESS

  // idtype as the parser leaves it.
  function ParsedIdType(k: Kind): bv8 {
    match k
    case IdVar(_) => IDTYPE_VAR
    case IdSysVar(_) => IDTYPE_SYSVAR
    case IdSyscall(_) => IDTYPE_SYSCALL
    case _ => 0
  }

  // --- what type checking leaves behind ------------------------------------------------------

  function ChildFlag(k: Kind, isAddr: AddrFlag): AddrFlag {
    if k.SysAssign? || k.SysPreInc? || k.SysPreDec? || k.SysGetAddr? then IDTYPE_ADDRESS
    else if k.SysGetValue? && isAddr != 0 then 0
    else isAddr
  }

  function IdType(k: Kind, isAddr: AddrFlag): bv8 {
    if ParsedIdType(k) == IDTYPE_SYSCALL then IDTYPE_SYSCALL else ParsedIdType(k) | isAddr
  }

  function TypeOf(n: Node): DataType
    requires n.Node?
  {
    if n.child.Node? then TypeOf(n.child)
    else if n.kind.IdVar? || n.kind.IdSysVar? || n.kind.Value? then Dword
    else Void
  }

  ghost function Ids(n: Node): set<nat> {
    if n.Null? then {} else {n.id} + Ids(n.child) + Ids(n.sibling)
  }

  ghost predicate Distinct(n: Node) {
    n.Node? ==>
      && n.id !in Ids(n.child) && n.id !in Ids(n.sibling) && Ids(n.child) !! Ids(n.sibling)
      && Distinct(n.child) && Distinct(n.sibling)
  }

  ghost predicate InTable(n: Node, size: nat) { forall i :: i in Ids(n) ==> i < size }

  // The table still holds what the parser wrote.
  ghost predicate Parsed(idt: seq<bv8>, dts: seq<DataType>, n: Node)
  {
    n.Node? ==>
      && n.id < |idt| && n.id < |dts|
      && idt[n.id] == ParsedIdType(n.kind) && dts[n.id] == Void
      && Parsed(idt, dts, n.child) && Parsed(idt, dts, n.sibling)
  }

  ghost predicate Checked(idt: seq<bv8>, dts: seq<DataType>, n: Node, isAddr: AddrFlag)
    decreases n
  {
    n.Node? ==>
      && n.id < |idt| && n.id < |dts|
      && idt[n.id] == IdType(n.kind, isAddr) && dts[n.id] == TypeOf(n)
      && Checked(idt, dts, n.child, ChildFlag(n.kind, isAddr)) && Checked(idt, dts, n.sibling, 0)
  }

  ghost predicate SameOutside(s: seq<bv8>, s': seq<bv8>, d: seq<DataType>, d': seq<DataType>, ids: set<nat>) {
    && |s| == |s'| && |d| == |d'|
    && (forall i :: 0 <= i < |s| && i !in ids ==> s'[i] == s[i])
    && (forall i :: 0 <= i < |d| && i !in ids ==> d'[i] == d[i])
  }

  lemma {:induction false} ParsedFrame(s: seq<bv8>, s': seq<bv8>, d: seq<DataType>, d': seq<DataType>, ids: set<nat>,
                                       n: Node)
    requires SameOutside(s, s', d, d', ids) && ids !! Ids(n) && Parsed(s, d, n)
    ensures Parsed(s', d', n)
  {
    if n.Node? {
      ParsedFrame(s, s', d, d', ids, n.child);
      ParsedFrame(s, s', d, d', ids, n.sibling);
    }
  }

  lemma {:induction false} CheckedFrame(s: seq<bv8>, s': seq<bv8>, d: seq<DataType>, d': seq<DataType>, ids: set<nat>,
                                        n: Node, isAddr: AddrFlag)
    requires SameOutside(s, s', d, d', ids) && ids !! Ids(n) && Checked(s, d, n, isAddr)
    ensures Checked(s', d', n, isAddr)
    decreases n
  {
    if n.Node? {
      CheckedFrame(s, s', d, d', ids, n.child, ChildFlag(n.kind, isAddr));
      CheckedFrame(s, s', d, d', ids, n.sibling, 0);
    }
  }

  // After the children and then the siblings have been checked.
  lemma CheckedChild(s0: seq<bv8>, s1: seq<bv8>, s2: seq<bv8>, d0: seq<DataType>, d1: seq<DataType>, d2: seq<DataType>,
                     n: Node, flag: AddrFlag)
    requires n.Node? && Distinct(n) && Parsed(s0, d0, n)
    requires SameOutside(s0, s1, d0, d1, Ids(n.child)) && SameOutside(s1, s2, d1, d2, Ids(n.sibling))
    requires Checked(s1, d1, n.child, flag)
    ensures Checked(s2, d2, n.child, flag)
    ensures s2[n.id] == s0[n.id] && d2[n.id] == d0[n.id]
    ensures SameOutside(s0, s2, d0, d2, Ids(n.child) + Ids(n.sibling))
  {
    CheckedFrame(s1, s2, d1, d2, Ids(n.sibling), n.child, flag);
  }

  lemma CheckedNode(s0: seq<bv8>, s2: seq<bv8>, d0: seq<DataType>, d2: seq<DataType>, n: Node, isAddr: AddrFlag)
    requires n.Node? && Distinct(n) && n.id < |s2| && n.id < |d2|
    requires SameOutside(s0, s2, d0, d2, Ids(n.child) + Ids(n.sibling))
    requires Checked(s2, d2, n.child, ChildFlag(n.kind, isAddr)) && Checked(s2, d2, n.sibling, 0)
    ensures var s3, d3 := s2[n.id := IdType(n.kind, isAddr)], d2[n.id := TypeOf(n)];
            Checked(s3, d3, n, isAddr) && SameOutside(s0, s3, d0, d3, Ids(n))
  {
    var s3, d3 := s2[n.id := IdType(n.kind, isAddr)], d2[n.id := TypeOf(n)];
    CheckedFrame(s2, s3, d2, d3, {n.id}, n.child, ChildFlag(n.kind, isAddr));
    CheckedFrame(s2, s3, d2, d3, {n.id}, n.sibling, 0);
  }

  // --- the code of a tree ----------------------------------------------------------------------

  function Siblings(n: Node): nat { if n.Null? then 0 else 1 + Siblings(n.sibling) }

  // ld &id; ld 1; op; st; the prefix forms reload the variable, the postfix ones drop its address.
  function StepCode(k: Kind, addr: Word): seq<Instr>
    requires k.IsStep()
  {
    var op := if k.SysPreInc? || k.SysInc? then Add else Sub;
    if k.SysPreInc? || k.SysPreDec? then [LdValue(addr), LdDword(1), Bin(op), StDword, LdValueStack]
    else [LdDword(addr), LdValue(addr), LdDword(1), Bin(op), StDword, Pop]
  }

  function Own(n: Node, isAddr: AddrFlag): seq<Instr>
    requires n.Node?
  {
    match n.kind
    case IdVar(a) => if isAddr != 0 then [LdDword(a)] else [LdValue(a)]
    case IdSysVar(a) => if isAddr != 0 then [LdDword(a)] else [LdValue(a)]
    case IdSyscall(f) => [LdDword(f)]
    case Value(v) => [LdDword(v)]
    case SysBin(op) => if TypeOf(n) == Dword then [Bin(op)] else []
    case SysBitwise => if TypeOf(n) == Dword then [BitNot] else []
    case SysFunc => if n.child.Node? then [Syscall(Siblings(n.child.sibling) % 256)] else []
    case SysAssign =>
      if n.child.Node? && (n.child.kind.IsId() || n.child.kind.SysGetValue?) && TypeOf(n.child) == Dword
      then [StDword, LdValueStack] else []
    case SysGetValue => if isAddr == 0 && TypeOf(n) == Dword then [LdValueStack] else []
    case SysGetAddr => []
    case _ =>
      if n.child.Node? && n.child.kind.IdVar? && TypeOf(n) == Dword then StepCode(n.kind, n.child.kind.addr) else []
  }

  // finsh_error_set(FINSH_ERROR_UNKNOWN_TYPE)
  predicate Rejected(n: Node)
    requires n.Node?
  {
    && n.kind.SysAssign? && n.child.Node?
    && (n.child.kind.IsId() || n.child.kind.SysGetValue?) && TypeOf(n.child) != Dword
  }

  function Code(n: Node, isAddr: AddrFlag): seq<Instr>
    decreases n
  {
    if n.Null? then []
    else Code(n.child, ChildFlag(n.kind, isAddr)) + Own(n, isAddr) + Code(n.sibling, 0)
  }

  // Statements are siblings; the value of every statement but the last is popped.
  function ProgramCode(n: Node): seq<Instr> {
    if n.Null? then []
    else
      Code(n.child, ChildFlag(n.kind, 0)) + Own(n, 0)
      + (if n.sibling.Node? then [Pop] else []) + ProgramCode(n.sibling)
  }

  // What the compiler relies on without checking: an assignment has a left side, and an
  // increment or decrement steps a shell variable (its id is read as one).
  ghost predicate Shaped(n: Node) {
    n.Node? ==>
      && (n.kind.SysAssign? ==> n.child.Node?)
      && (n.kind.IsStep() && n.child.Node? && n.child.kind.IsId() ==> n.child.kind.IdVar?)
      && Shaped(n.child) && Shaped(n.sibling)
  }

  function Length(code: seq<Instr>): nat { |EncodeAll(code)| }

  lemma Assoc<T>(t: seq<T>, a: seq<T>, b: seq<T>, c: seq<T>)
    ensures t + (a + b + c) == t + a + b + c
  {
  }

  lemma Assoc2<T>(t: seq<T>, a: seq<T>, b: seq<T>)
    ensures t + (a + b) == t + a + b
  {
  }

  lemma Encode3(c1: seq<Instr>, c2: seq<Instr>, c3: seq<Instr>)
    ensures EncodeAll(c1 + c2 + c3) == EncodeAll(c1) + EncodeAll(c2) + EncodeAll(c3)
  {
    EncodeAppend(c1, c2);
    EncodeAppend(c1 + c2, c3);
  }

  lemma EncodeParts(t: seq<Byte>, n: Node, isAddr: AddrFlag)
    requires n.Node?
    ensures
      var b1, b2 := EncodeAll(Code(n.child, ChildFlag(n.kind, isAddr))), EncodeAll(Own(n, isAddr));
      var b3 := EncodeAll(Code(n.sibling, 0));
            && t + EncodeAll(Code(n, isAddr)) == t + b1 + b2 + b3
            && Length(Code(n, isAddr)) == |b1| + |b2| + |b3|
  {
    var c1, c2, c3 := Code(n.child, ChildFlag(n.kind, isAddr)), Own(n, isAddr), Code(n.sibling, 0);
    Encode3(c1, c2, c3);
    Assoc(t, EncodeAll(c1), EncodeAll(c2), EncodeAll(c3));
  }

  lemma DropEmpty<T>(done: seq<T>, a: seq<T>, b: seq<T>, p: seq<T>, rest: seq<T>)
    ensures done + (a + b + p + rest) == done + (a + b + []) + p + rest
  {
    assert a + b + [] == a + b;
  }

  lemma StatementCode(done: seq<Instr>, current: Node, sibling: Node)
    requires current.Node? && current.sibling == Null
    ensures done + ProgramCode(current.(sibling := sibling)) ==
            done + Code(current, 0) + (if sibling.Node? then [Pop] else []) + ProgramCode(sibling)
  {
    var n := current.(sibling := sibling);
    assert TypeOf(n) == TypeOf(current);
    assert Own(n, 0) == Own(current, 0);
    DropEmpty(done, Code(current.child, ChildFlag(current.kind, 0)), Own(n, 0),
              if sibling.Node? then [Pop] else [], ProgramCode(sibling));
  }

  lemma EncodeOne(i: Instr)
    ensures EncodeAll([i]) == Encode(i)
  {
    assert EncodeAll([i]) == Encode(i) + EncodeAll([]);
  }

  class Compiler {
    const idtype: array<bv8>
    const dataType: array<DataType>
    const text: array<Byte>
    var pc: nat
    var unknownType: bool

    ghost predicate Valid()
      reads this
    {
      && idtype.Length == dataType.Length && text.Length == FINSH_TEXT_MAX && pc <= text.Length
      && idtype as object != dataType as object
      && idtype as object != text as object && dataType as object != text as object
    }

    // Nothing but the cleared text segment lies after pc.
    ghost predicate Cleared()
      reads this, text
    {
      forall k :: pc <= k < text.Length ==> text[k] == 0
    }

    constructor (idtype: array<bv8>, dataType: array<DataType>, text: array<Byte>)
      requires idtype.Length == dataType.Length && text.Length == FINSH_TEXT_MAX
      requires idtype as object != dataType as object
      requires idtype as object != text as object && dataType as object != text as object
      ensures Valid() && this.idtype == idtype && this.dataType == dataType && this.text == text
    {
      this.idtype, this.dataType, this.text := idtype, dataType, text;
      pc, unknownType := 0, false;
    }

    // finsh_type_check
    method TypeCheck(n: Node, isAddr: AddrFlag)
      requires Valid()
      requires Distinct(n) && Parsed(idtype[..], dataType[..], n)
      modifies idtype, dataType
      ensures Checked(idtype[..], dataType[..], n, isAddr)
      ensures SameOutside(old(idtype[..]), idtype[..], old(dataType[..]), dataType[..], Ids(n))
      decreases n
    {
      if n.Node? {
        ghost var s0, d0 := idtype[..], dataType[..];
        var flag: AddrFlag := isAddr;
        if n.kind.SysAssign? || n.kind.SysPreInc? || n.kind.SysPreDec? || n.kind.SysGetAddr? {
          flag := IDTYPE_ADDRESS;
        } else if n.kind.SysGetValue? && isAddr != 0 {
          flag := 0;
        }
        TypeCheck(n.child, flag);
        ghost var s1, d1 := idtype[..], dataType[..];
        ParsedFrame(s0, s1, d0, d1, Ids(n.child), n.sibling);
        TypeCheck(n.sibling, 0);
        ghost var s2, d2 := idtype[..], dataType[..];
        CheckedChild(s0, s1, s2, d0, d1, d2, n, flag);
        SetAttributes(n, isAddr);
        CheckedNode(s0, s2, d0, d2, n, isAddr);
      }
    }

    // The end of finsh_type_check: the attributes of the current node.
    method SetAttributes(n: Node, isAddr: AddrFlag)
      requires Valid() && n.Node? && n.id < idtype.Length
      requires idtype[n.id] == ParsedIdType(n.kind) && dataType[n.id] == Void
      requires n.child.Node? ==> n.child.id < dataType.Length && dataType[n.child.id] == TypeOf(n.child)
      modifies idtype, dataType
      ensures idtype[..] == old(idtype[..])[n.id := IdType(n.kind, isAddr)]
      ensures dataType[..] == old(dataType[..])[n.id := TypeOf(n)]
    {
      if idtype[n.id] != IDTYPE_SYSCALL { idtype[n.id] := idtype[n.id] | isAddr; }
      if n.child.Node? {
        dataType[n.id] := dataType[n.child.id];
      } else if n.kind.IsId() {
        if idtype[n.id] & IDTYPE_VAR != 0 {
          dataType[n.id] := Dword;
        } else if idtype[n.id] & IDTYPE_SYSVAR != 0 {
          dataType[n.id] := Dword;
        }
      } else if n.kind.Value? {
        dataType[n.id] := Dword;
      }
    }

    // finsh_code_byte and finsh_code_dword, one instruction at a time.
    method Emit(i: Instr)
      requires Valid() && Cleared() && pc + |Encode(i)| <= text.Length
      modifies text, this`pc
      ensures Valid() && Cleared() && text[..pc] == old(text[..pc]) + Encode(i)
    {
      var bs := Encode(i);
      var k := 0;
      while k < |bs|
        invariant 0 <= k <= |bs| && pc == old(pc) + k && pc <= text.Length && Cleared()
        invariant text[..pc] == old(text[..pc]) + bs[..k]
      {
        text[pc] := bs[k];
        pc := pc + 1;
        k := k + 1;
      }
    }

    method EmitAll(code: seq<Instr>)
      requires Valid() && Cleared() && pc + Length(code) <= text.Length
      modifies text, this`pc
      ensures Valid() && Cleared() && text[..pc] == old(text[..pc]) + EncodeAll(code)
      decreases |code|
    {
      if code != [] {
        Emit(code[0]);
        EmitAll(code[1..]);
        Assoc2(old(text[..pc]), Encode(code[0]), EncodeAll(code[1..]));
      }
    }

    // The loop over the arguments of a call
    method CountParameters(first: Node) returns (parameters: nat)
      ensures parameters == Siblings(first)
    {
      parameters := 0;
      var sibling := first;
      while sibling.Node?
        invariant parameters + Siblings(sibling) == Siblings(first)
        decreases sibling
      {
        parameters := parameters + 1;
        sibling := sibling.sibling;
      }
    }

    // The switch over node_type, driven by the idtype and data_type found in the table.
    method Select(n: Node, ghost isAddr: AddrFlag) returns (code: seq<Instr>)
      requires Valid() && n.Node? && Shaped(n)
      requires Checked(idtype[..], dataType[..], n, isAddr)
      modifies this`unknownType
      ensures code == Own(n, isAddr)
      ensures unknownType == (old(unknownType) || Rejected(n))
    {
      code := [];
      match n.kind
      case IdVar(a) =>
        code := if idtype[n.id] & IDTYPE_ADDRESS != 0 then [LdDword(a)] else [LdValue(a)];
      case IdSysVar(a) =>
        code := if idtype[n.id] & IDTYPE_ADDRESS != 0 then [LdDword(a)] else [LdValue(a)];
      case IdSyscall(f) => code := [LdDword(f)];
      case Value(v) => code := [LdDword(v)];
      case SysBin(op) => if dataType[n.id] == Dword { code := [Bin(op)]; }
      case SysBitwise => if dataType[n.id] == Dword { code := [BitNot]; }
      case SysFunc =>
        if n.child.Node? {
          var parameters := CountParameters(n.child.sibling);
          code := [Syscall(parameters % 256)];
        }
      case SysAssign =>
        if n.child.kind.IsId() || n.child.kind.SysGetValue? {
          if dataType[n.child.id] == Dword {
            code := [StDword, LdValueStack];
          } else {
            unknownType := true;
          }
        }
      case SysGetValue =>
        if idtype[n.id] & IDTYPE_ADDRESS == 0 && dataType[n.id] == Dword { code := [LdValueStack]; }
      case SysGetAddr =>
      case _ =>
        if n.child.Node? && n.child.kind.IsId() && dataType[n.id] == Dword {
          code := StepCode(n.kind, n.child.kind.addr);
        }
    }

    // finsh_compile: children, the node itself, then its siblings.
    method Compile(n: Node, ghost isAddr: AddrFlag)
      requires Valid() && Cleared() && Shaped(n)
      requires Checked(idtype[..], dataType[..], n, isAddr)
      requires pc + Length(Code(n, isAddr)) <= text.Length
      modifies text, this`pc, this`unknownType
      ensures Valid() && Cleared() && text[..pc] == old(text[..pc]) + EncodeAll(Code(n, isAddr))
      decreases n
    {
      if n.Node? {
        ghost var s, d := idtype[..], dataType[..];
        EncodeParts(old(text[..pc]), n, isAddr);
        Compile(n.child, ChildFlag(n.kind, isAddr));
        assert idtype[..] == s && dataType[..] == d;
        var own := Select(n, isAddr);
        EmitAll(own);
        assert idtype[..] == s && dataType[..] == d;
        Compile(n.sibling, 0);
      }
    }

    // One turn of the loop of finsh_compiler_run.
    method CompileStatement(current: Node, more: bool)
      requires Valid() && Cleared() && Shaped(current)
      requires Checked(idtype[..], dataType[..], current, 0)
      requires pc + Length(Code(current, 0)) + (if more then 1 else 0) <= text.Length
      modifies text, this`pc, this`unknownType
      ensures Valid() && Cleared()
      ensures text[..pc] == old(text[..pc]) + EncodeAll(Code(current, 0)) + EncodeAll(if more then [Pop] else [])
    {
      Compile(current, 0);
      if more {
        EncodeOne(Pop);
        Emit(Pop);
      }
    }

    method CompileStatements(n: Node)
      requires Valid() && Cleared() && Shaped(n) && pc == 0
      requires Checked(idtype[..], dataType[..], n, 0)
      requires Length(ProgramCode(n)) <= FINSH_TEXT_MAX
      modifies text, this`pc, this`unknownType
      ensures Valid() && Cleared() && text[..pc] == EncodeAll(ProgramCode(n))
    {
      ghost var s, d := idtype[..], dataType[..];
      ghost var done: seq<Instr> := [];
      var sibling := n;
      while sibling.Node?
        invariant Valid() && Cleared() && Shaped(sibling)
        invariant idtype[..] == s && dataType[..] == d
        invariant Checked(s, d, sibling, 0)
        invariant ProgramCode(n) == done + ProgramCode(sibling)
        invariant text[..pc] == EncodeAll(done)
        decreases sibling
      {
        var current := sibling;
        sibling := current.sibling;
        current := current.(sibling := Null);
        ghost var c, p := Code(current, 0), if sibling.Node? then [Pop] else [];
        StatementCode(done, current, sibling);
        Encode3(done, c, p);
        EncodeAppend(done + c + p, ProgramCode(sibling));
        EncodeOne(Pop);
        CompileStatement(current, sibling.Node?);
        done := done + c + p;
      }
      assert ProgramCode(n) == done;
    }

    // finsh_compiler_run
    method CompileProgram(n: Node)
      requires Valid() && Shaped(n)
      requires Distinct(n) && Parsed(idtype[..], dataType[..], n)
      requires Length(ProgramCode(n)) <= FINSH_TEXT_MAX
      modifies this, text, idtype, dataType
      ensures Valid()
      ensures text[..] == EncodeAll(ProgramCode(n)) + Zeros(FINSH_TEXT_MAX - Length(ProgramCode(n)))
    {
      TypeCheck(n, 0);
      ghost var s, d := idtype[..], dataType[..];
      forall k | 0 <= k < text.Length { text[k] := 0; }
      pc := 0;
      assert idtype[..] == s && dataType[..] == d;
      CompileStatements(n);
      assert text[..] == text[..pc] + text[pc..];
      assert text[pc..] == Zeros(FINSH_TEXT_MAX - pc);
    }
  }
}
