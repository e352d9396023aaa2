// What the operators of the machine compute, said without the way they compute it.

module FinshArith {
  import opened FinshMachine

  // --- signed words ----------------------------------------------------------------------------------

  // The two differ by a multiple of 2^32.
  predicate Congruent(x: int, y: int) { (x - y) % WORD_SPAN == 0 }

  // v is the number that the bits of a stand for in two's complement.
  predicate Reads(a: Word, v: int) { -0x8000_0000 <= v < 0x8000_0000 && Congruent(a, v) }

  lemma SignedReads(a: Word, v: int)
    ensures Reads(a, v) <==> v == Signed(a)
  {
  }

  lemma WrapCongruent(i: int)
    ensures Congruent(Wrap(i), i)
  {
    var q := i / WORD_SPAN;
    assert Wrap(i) - i == 0 - q * WORD_SPAN;
  }

  lemma CongruentWord(a: Word, b: Word, i: int)
    requires Congruent(a, i) && Congruent(b, i)
    ensures a == b
  {
  }

  // --- bits --------------------------------------------------------------------------------------------

  predicate Bit(a: nat, k: nat)
    decreases k
  {
    if k == 0 then a % 2 == 1 else Bit(a / 2, k - 1)
  }

  lemma {:induction false} BitwiseBit(f: (bool, bool) -> bool, a: nat, b: nat, n: nat, k: nat)
    requires k < n
    ensures Bit(Bitwise(f, a, b, n), k) == f(Bit(a, k), Bit(b, k))
    decreases n
  {
    var low, high := if f(a % 2 == 1, b % 2 == 1) then 1 else 0, Bitwise(f, a / 2, b / 2, n - 1);
    assert (low + 2 * high) % 2 == low && (low + 2 * high) / 2 == high;
    if k > 0 { BitwiseBit(f, a / 2, b / 2, n - 1, k - 1); }
  }

  // All ones without a.
  lemma {:induction false} FlipBit(a: nat, n: nat, k: nat)
    requires a < Pow2(n) && k < n
    ensures Bit(Pow2(n) - 1 - a, k) == !Bit(a, k)
    decreases n
  {
    var b := Pow2(n) - 1 - a;
    assert b % 2 == 1 - a % 2 && b / 2 == Pow2(n - 1) - 1 - a / 2;
    if k > 0 { FlipBit(a / 2, n - 1, k - 1); }
  }

  lemma {:induction false} SameBits(a: nat, b: nat, n: nat)
    requires a < Pow2(n) && b < Pow2(n) && forall k: nat :: k < n ==> Bit(a, k) == Bit(b, k)
    ensures a == b
    decreases n
  {
    if n > 0 {
      assert Bit(a, 0) == Bit(b, 0);
      forall k: nat | k < n - 1 ensures Bit(a / 2, k) == Bit(b / 2, k) { assert Bit(a, k + 1) == Bit(b, k + 1); }
      SameBits(a / 2, b / 2, n - 1);
    }
  }

  // --- division ----------------------------------------------------------------------------------------

  // Division that truncates toward zero: the remainder is smaller than the divisor and has the sign of i.
  ghost predicate Divides(i: int, j: int, q: int, r: int) {
    i == q * j + r && Abs(r) < Abs(j) && (r == 0 || (r < 0 <==> i < 0))
  }

  lemma Quotient(m: nat, n: nat)
    requires n > 0
    ensures m == m / n * n + m % n && 0 <= m % n < n
  {
  }

  lemma TruncDivides(i: int, j: int)
    requires j != 0
    ensures Divides(i, j, TruncDiv(i, j), TruncMod(i, j))
  {
    var q, r := Abs(i) / Abs(j), Abs(i) % Abs(j);
    Quotient(Abs(i), Abs(j));
    assert Abs(i) == q * Abs(j) + r;
    if i >= 0 && j < 0 { assert (-q) * j == q * (-j); }
    if i < 0 && j > 0 { assert (-q) * j == -(q * j); }
    if i < 0 && j < 0 { assert q * j == -(q * (-j)); }
  }

  lemma Grows(a: int, b: int, k: int)
    requires a <= b && k >= 0
    ensures a * k <= b * k
  {
  }

  lemma Multiple(d: int, j: int)
    requires d != 0
    ensures Abs(d * j) >= Abs(j)
  {
    var e, k := Abs(d), Abs(j);
    Grows(1, e, k);
    SignsOf(d, j);
  }

  lemma SignsOf(d: int, j: int)
    ensures d * j == Abs(d) * Abs(j) || d * j == -(Abs(d) * Abs(j))
  {
    if d < 0 { assert d * j == -((-d) * j); }
    if j < 0 { assert Abs(d) * j == -(Abs(d) * (-j)); }
  }

  lemma DividesUnique(i: int, j: int, q: int, r: int, q': int, r': int)
    requires j != 0 && Divides(i, j, q, r) && Divides(i, j, q', r')
    ensures q == q' && r == r'
  {
    assert (q - q') * j == r' - r;
    if q != q' { Multiple(q - q', j); }
  }

  // --- the operators -----------------------------------------------------------------------------------

  function Combine(op: BinOp, x: bool, y: bool): bool
    requires op.And? || op.Or? || op.Xor?
  {
    match op case And => x && y case Or => x || y case Xor => x != y
  }

  // r is what the operator makes of the words a and b; None where C leaves it undefined.
  ghost predicate Means(op: BinOp, a: Word, b: Word, r: Option<Word>) {
    match op
    case Add => r.Some? && Congruent(r.value, a + b)
    case Sub => r.Some? && Congruent(r.value, a - b)
    case Mul => r.Some? && Congruent(r.value, a * b)
    case Div =>
      if b == 0 then r.None?
      else r.Some? && exists i, j, q, m :: Reads(a, i) && Reads(b, j) && Divides(i, j, q, m) && Congruent(r.value, q)
    case Mod =>
      if b == 0 then r.None?
      else r.Some? && exists i, j, q, m :: Reads(a, i) && Reads(b, j) && Divides(i, j, q, m) && Reads(r.value, m)
    case Shl => if b < 32 then r.Some? && Congruent(r.value, a * Pow2(b)) else r.None?
    case Shr =>
      if b < 32 then
        r.Some? && exists i, q :: Reads(a, i) && Reads(r.value, q) && Floors(i, Pow2(b), q)
      else r.None?
    case _ => r.Some? && forall k: nat :: k < 32 ==> Bit(r.value, k) == Combine(op, Bit(a, k), Bit(b, k))
  }

  lemma CongruentProduct(x: int, x': int, y: int, y': int)
    requires Congruent(x, x') && Congruent(y, y')
    ensures Congruent(x * y, x' * y')
  {
    var p, q := (x - x') / WORD_SPAN, (y - y') / WORD_SPAN;
    assert x == x' + p * WORD_SPAN && y == y' + q * WORD_SPAN;
    var k := x' * q + p * y' + p * q * WORD_SPAN;
    assert x * y == x' * y' + k * WORD_SPAN by { Expand(x', p, y', q); }
    assert (k * WORD_SPAN) % WORD_SPAN == 0;
  }

  lemma Expand(x: int, p: int, y: int, q: int)
    ensures (x + p * WORD_SPAN) * (y + q * WORD_SPAN) == x * y + (x * q + p * y + p * q * WORD_SPAN) * WORD_SPAN
  {
    assert (x + p * WORD_SPAN) * (y + q * WORD_SPAN) == x * (y + q * WORD_SPAN) + p * WORD_SPAN * (y + q * WORD_SPAN);
    assert x * (y + q * WORD_SPAN) == x * y + x * q * WORD_SPAN;
    assert p * WORD_SPAN * (y + q * WORD_SPAN) == p * y * WORD_SPAN + p * q * WORD_SPAN * WORD_SPAN;
  }

  lemma MulMeans(a: Word, b: Word)
    ensures Means(Mul, a, b, Arith(Mul, a, b))
  {
    SignedReads(a, Signed(a));
    SignedReads(b, Signed(b));
    CongruentProduct(a, Signed(a), b, Signed(b));
    WrapCongruent(Signed(a) * Signed(b));
    CongruentTrans(Wrap(Signed(a) * Signed(b)), Signed(a) * Signed(b), a * b);
  }

  lemma CongruentTrans(x: int, y: int, z: int)
    requires Congruent(x, y) && Congruent(z, y)
    ensures Congruent(x, z)
  {
  }

  lemma DivMeans(a: Word, b: Word)
    requires b != 0
    ensures Means(Div, a, b, Arith(Div, a, b)) && Means(Mod, a, b, Arith(Mod, a, b))
  {
    var i, j := Signed(a), Signed(b);
    SignedReads(a, i);
    SignedReads(b, j);
    assert j != 0;
    var q, m := TruncDiv(i, j), TruncMod(i, j);
    TruncDivides(i, j);
    WrapCongruent(q);
    WrapCongruent(m);
    assert Reads(a, i) && Reads(b, j) && Divides(i, j, q, m) && Congruent(Wrap(q), q) && Reads(Wrap(m), m);
  }

  lemma ShrMeans(a: Word, b: Word)
    requires b < 32
    ensures Means(Shr, a, b, Arith(Shr, a, b))
  {
    var i, p := Signed(a), Pow2(b);
    var q := i / p;
    SignedReads(a, i);
    FloorBounds(i, p);
    WrapCongruent(q);
    assert Reads(a, i) && Reads(Wrap(q), q) && Floors(i, p, q);
  }

  // Division that rounds down.
  ghost predicate Floors(i: int, p: int, q: int) { q * p <= i < (q + 1) * p }

  lemma FloorBounds(i: int, p: nat)
    requires p > 0 && -0x8000_0000 <= i < 0x8000_0000
    ensures Floors(i, p, i / p) && -0x8000_0000 <= i / p < 0x8000_0000
  {
    var q := i / p;
    assert i == q * p + i % p;
    assert (q + 1) * p == q * p + p;
    Between(i, p, q);
  }

  lemma Between(i: int, p: nat, q: int)
    requires p > 0 && Floors(i, p, q)
    ensures (i >= 0 ==> 0 <= q <= i) && (i < 0 ==> i <= q < 0)
  {
    if q < 0 { Grows(q + 1, 0, p); }
    if q >= 0 { Grows(1, p, q); }
    if q + 1 < 0 { Grows(1, p, -(q + 1)); }
  }

  lemma BitsMean(op: BinOp, a: Word, b: Word)
    requires op.And? || op.Or? || op.Xor?
    ensures Means(op, a, b, Arith(op, a, b))
  {
    WordBits();
    forall k: nat | k < 32 ensures Bit(Arith(op, a, b).value, k) == Combine(op, Bit(a, k), Bit(b, k)) {
      match op
      case And => BitwiseBit((x, y) => x && y, a, b, 32, k);
      case Or => BitwiseBit((x, y) => x || y, a, b, 32, k);
      case Xor => BitwiseBit((x, y) => x != y, a, b, 32, k);
    }
  }

  // Every operator computes what it means, on all words.
  lemma ArithMeans(op: BinOp, a: Word, b: Word)
    ensures Means(op, a, b, Arith(op, a, b))
  {
    match op
    case Add => WrapCongruent(a + b);
    case Sub => WrapCongruent(a - b);
    case Mul => MulMeans(a, b);
    case Div => if b != 0 { DivMeans(a, b); }
    case Mod => if b != 0 { DivMeans(a, b); }
    case Shl => if b < 32 { WrapCongruent(a * Pow2(b)); }
    case Shr => if b < 32 { ShrMeans(a, b); }
    case _ => BitsMean(op, a, b);
  }

  lemma FlipMeans(a: Word, k: nat)
    requires k < 32
    ensures Bit(BitFlip(a), k) == !Bit(a, k)
  {
    WordBits();
    FlipBit(a, 32, k);
  }

  // And nothing else has that meaning.
  lemma MeansUnique(op: BinOp, a: Word, b: Word, r: Option<Word>, s: Option<Word>)
    requires Means(op, a, b, r) && Means(op, a, b, s)
    ensures r == s
  {
    match op
    case Add => CongruentWord(r.value, s.value, a + b);
    case Sub => CongruentWord(r.value, s.value, a - b);
    case Mul => CongruentWord(r.value, s.value, a * b);
    case Div => if b != 0 { DivUnique(a, b, r.value, s.value); }
    case Mod => if b != 0 { ModUnique(a, b, r.value, s.value); }
    case Shl => if b < 32 { CongruentWord(r.value, s.value, a * Pow2(b)); }
    case Shr => if b < 32 { ShrUnique(a, b, r.value, s.value); }
    case _ =>
      WordBits();
      SameBits(r.value, s.value, 32);
  }

  lemma ReadsUnique(a: Word, i: int, i': int)
    requires Reads(a, i) && Reads(a, i')
    ensures i == i'
  {
    SignedReads(a, i);
    SignedReads(a, i');
  }

  lemma ReadsZero(b: Word, j: int)
    requires Reads(b, j) && b != 0
    ensures j != 0
  {
    SignedReads(b, j);
  }

  lemma DivUnique(a: Word, b: Word, r: Word, s: Word)
    requires b != 0 && Means(Div, a, b, Some(r)) && Means(Div, a, b, Some(s))
    ensures r == s
  {
    var i, j, q, m :| Reads(a, i) && Reads(b, j) && Divides(i, j, q, m) && Congruent(r, q);
    var i', j', q', m' :| Reads(a, i') && Reads(b, j') && Divides(i', j', q', m') && Congruent(s, q');
    ReadsUnique(a, i, i');
    ReadsUnique(b, j, j');
    ReadsZero(b, j);
    DividesUnique(i, j, q, m, q', m');
    CongruentWord(r, s, q);
  }

  lemma ModUnique(a: Word, b: Word, r: Word, s: Word)
    requires b != 0 && Means(Mod, a, b, Some(r)) && Means(Mod, a, b, Some(s))
    ensures r == s
  {
    var i, j, q, m :| Reads(a, i) && Reads(b, j) && Divides(i, j, q, m) && Reads(r, m);
    var i', j', q', m' :| Reads(a, i') && Reads(b, j') && Divides(i', j', q', m') && Reads(s, m');
    ReadsUnique(a, i, i');
    ReadsUnique(b, j, j');
    ReadsZero(b, j);
    DividesUnique(i, j, q, m, q', m');
    CongruentWord(r, s, m);
  }

  lemma ShrUnique(a: Word, b: Word, r: Word, s: Word)
    requires b < 32 && Means(Shr, a, b, Some(r)) && Means(Shr, a, b, Some(s))
    ensures r == s
  {
    var p := Pow2(b);
    var i, q :| Reads(a, i) && Reads(r, q) && Floors(i, p, q);
    var i', q' :| Reads(a, i') && Reads(s, q') && Floors(i', p, q');
    ReadsUnique(a, i, i');
    FloorUnique(i, p, q, q');
    CongruentWord(r, s, q);
  }

  lemma FloorUnique(i: int, p: nat, q: int, q': int)
    requires Floors(i, p, q) && Floors(i, p, q')
    ensures q == q'
  {
    if q < q' { Grows(q + 1, q', p); }
    if q' < q { Grows(q' + 1, q, p); }
  }

  // --- memory --------------------------------------------------------------------------------------------

  // The i-th byte of the dword at a, in an address space that wraps.
  function Cell(a: Word, i: nat): Word { (a + i) % WORD_SPAN }

  // A byte never written reads as 0.
  function ByteAt(m: Memory, w: Word): (b: int)
    ensures 0 <= b < 256
  {
    if w in m then m[w] else 0
  }

  // v is the little-endian dword at a.
  ghost predicate LoadMeans(m: Memory, a: Word, v: Word) {
    v == ByteAt(m, Cell(a, 0)) + 0x100 * ByteAt(m, Cell(a, 1))
         + 0x1_0000 * ByteAt(m, Cell(a, 2)) + 0x100_0000 * ByteAt(m, Cell(a, 3))
  }

  // The four bytes of v, low first, are written at a and nothing else is.
  ghost predicate StoreMeans(m: Memory, a: Word, v: Word, m': Memory) {
    && m'.Keys == m.Keys + {Cell(a, 0), Cell(a, 1), Cell(a, 2), Cell(a, 3)}
    && LoadMeans(m', a, v)
    && forall w :: w in m && w !in {Cell(a, 0), Cell(a, 1), Cell(a, 2), Cell(a, 3)} ==> w in m' && m'[w] == m[w]
  }

  lemma LoadRight(m: Memory, a: Word)
    ensures LoadMeans(m, a, Load(m, a))
  {
    forall i: nat | i < 4 ensures Peek(m, a + i) == ByteAt(m, Cell(a, i)) { }
  }

  lemma StoreRight(m: Memory, a: Word, v: Word)
    ensures StoreMeans(m, a, v, Store(m, a, v))
  {
    LoadAfterStore(m, a, v);
    LoadRight(Store(m, a, v), a);
    StoreKeys(m, a, v);
  }

  lemma StoreKeys(m: Memory, a: Word, v: Word)
    ensures var m', cells := Store(m, a, v), {Cell(a, 0), Cell(a, 1), Cell(a, 2), Cell(a, 3)};
      m'.Keys == m.Keys + cells && forall w :: w in m && w !in cells ==> w in m' && m'[w] == m[w]
  {
    var bs := Set32(v);
    assert Store(m, a, v) == m[Cell(a, 0) := bs[0]][Cell(a, 1) := bs[1]][Cell(a, 2) := bs[2]][Cell(a, 3) := bs[3]];
  }

  // Four bytes and the dword they make determine each other.
  lemma BytesUnique(b0: Byte, b1: Byte, b2: Byte, b3: Byte, c0: Byte, c1: Byte, c2: Byte, c3: Byte)
    requires b0 + 0x100 * b1 + 0x1_0000 * b2 + 0x100_0000 * b3 == c0 + 0x100 * c1 + 0x1_0000 * c2 + 0x100_0000 * c3
    ensures b0 == c0 && b1 == c1 && b2 == c2 && b3 == c3
  {
  }

  lemma StoreUnique(m: Memory, a: Word, v: Word, p: Memory, q: Memory)
    requires StoreMeans(m, a, v, p) && StoreMeans(m, a, v, q)
    ensures p == q
  {
    BytesUnique(p[Cell(a, 0)], p[Cell(a, 1)], p[Cell(a, 2)], p[Cell(a, 3)],
                q[Cell(a, 0)], q[Cell(a, 1)], q[Cell(a, 2)], q[Cell(a, 3)]);
    assert p.Keys == q.Keys;
    forall w | w in p ensures w in q && p[w] == q[w] { }
  }

  // --- the machine -----------------------------------------------------------------------------------------

  // A machine whose dword operators and memory are those of the source's target.
  ghost predicate Real(h: Host) {
    && (forall op, a, b :: Means(op, a, b, h.arith(op, a, b)))
    && (forall m, a :: LoadMeans(m, a, h.load(m, a)))
    && (forall m, a, v :: StoreMeans(m, a, v, h.store(m, a, v)))
  }

  lemma TargetReal(calls: Calls)
    ensures Real(Target(calls))
  {
    var h := Target(calls);
    forall op, a, b ensures Means(op, a, b, h.arith(op, a, b)) { ArithMeans(op, a, b); }
    forall m, a ensures LoadMeans(m, a, h.load(m, a)) { LoadRight(m, a); }
    forall m, a, v ensures StoreMeans(m, a, v, h.store(m, a, v)) { StoreRight(m, a, v); }
  }

  // Two hosts do the same.
  ghost predicate Agree(g: Host, h: Host) {
    && (forall op, a, b :: g.arith(op, a, b) == h.arith(op, a, b))
    && (forall m, a :: g.load(m, a) == h.load(m, a))
    && (forall m, a, v :: g.store(m, a, v) == h.store(m, a, v))
    && (forall f, vs, m :: g.calls(f, vs, m) == h.calls(f, vs, m))
  }

  lemma RealAgree(g: Host, h: Host)
    requires Real(g) && Real(h) && g.calls == h.calls
    ensures Agree(g, h)
  {
    forall op, a, b ensures g.arith(op, a, b) == h.arith(op, a, b) {
      MeansUnique(op, a, b, g.arith(op, a, b), h.arith(op, a, b));
    }
    forall m, a, v ensures g.store(m, a, v) == h.store(m, a, v) {
      StoreUnique(m, a, v, g.store(m, a, v), h.store(m, a, v));
    }
  }
}
