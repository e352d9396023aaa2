// The ready bitmap of the scheduler, with one level (up to 32 priorities) or two (up to 256), and
// the find-first-set routine on which it rests.

module Bitmap {

  // --- bits of a word --------------------------------------------------------------------------------

  predicate Bit(w: nat, i: nat)
    decreases i
  {
    if i == 0 then w % 2 == 1 else Bit(w / 2, i - 1)
  }

  // w | (1 << i)
  function SetBit(w: nat, i: nat): nat
    decreases i
  {
    if i == 0 then w - w % 2 + 1 else w % 2 + 2 * SetBit(w / 2, i - 1)
  }

  // w & ~(1 << i)
  function ClearBit(w: nat, i: nat): nat
    decreases i
  {
    if i == 0 then w - w % 2 else w % 2 + 2 * ClearBit(w / 2, i - 1)
  }

  // w fits in n bits.
  predicate Fits(w: nat, n: nat)
    decreases n
  {
    if n == 0 then w == 0 else Fits(w / 2, n - 1)
  }

  lemma {:induction false} SetBitBits(w: nat, i: nat, j: nat)
    ensures Bit(SetBit(w, i), j) <==> j == i || Bit(w, j)
    decreases i
  {
    if i > 0 && j > 0 { SetBitBits(w / 2, i - 1, j - 1); }
  }

  lemma {:induction false} ClearBitBits(w: nat, i: nat, j: nat)
    ensures Bit(ClearBit(w, i), j) <==> j != i && Bit(w, j)
    decreases i
  {
    if i > 0 && j > 0 { ClearBitBits(w / 2, i - 1, j - 1); }
  }

  lemma {:induction false} SetBitFits(w: nat, i: nat, n: nat)
    requires Fits(w, n) && i < n
    ensures Fits(SetBit(w, i), n) && Fits(ClearBit(w, i), n)
    decreases n
  {
    if i > 0 { SetBitFits(w / 2, i - 1, n - 1); }
  }

  lemma {:induction false} SetBitPositive(w: nat, i: nat)
    ensures SetBit(w, i) > 0
    decreases i
  {
    if i > 0 { SetBitPositive(w / 2, i - 1); }
  }

  // A word with no 1 bit is zero.
  lemma {:induction false} SomeBit(w: nat) returns (i: nat)
    requires w > 0
    ensures Bit(w, i)
  {
    if w % 2 == 1 { i := 0; } else { var j := SomeBit(w / 2); i := j + 1; }
  }

  lemma {:induction false} NoBit(i: nat)
    ensures !Bit(0, i)
  {
    if i > 0 { NoBit(i - 1); }
  }

  // --- the lowest 1 bit --------------------------------------------------------------------------------

  function Lowest(w: nat): nat
    requires w > 0
  {
    if w % 2 == 1 then 0 else 1 + Lowest(w / 2)
  }

  lemma {:induction false} LowestIs(w: nat, j: nat)
    requires w > 0
    ensures Bit(w, Lowest(w)) && (Bit(w, j) ==> Lowest(w) <= j)
  {
    if w % 2 == 0 {
      LowestIs(w / 2, if j > 0 then j - 1 else 0);
    }
  }

  lemma {:induction false} LowestFits(w: nat, n: nat)
    requires w > 0 && Fits(w, n)
    ensures Lowest(w) < n
    decreases n
  {
    if w % 2 == 0 { LowestFits(w / 2, n - 1); }
  }

  // Higher bits do not change the lowest one: p has no bit below j, a has some.
  predicate Aligned(p: nat, j: nat)
    decreases j
  {
    j == 0 || (p % 2 == 0 && Aligned(p / 2, j - 1))
  }

  lemma {:induction false} LowestLow(a: nat, p: nat, j: nat)
    requires a > 0 && Fits(a, j) && Aligned(p, j)
    ensures Lowest(a + p) == Lowest(a)
    decreases j
  {
    if a % 2 == 0 {
      assert (a + p) / 2 == a / 2 + p / 2;
      LowestLow(a / 2, p / 2, j - 1);
    }
  }

  lemma ByteAligned(b: nat)
    ensures Aligned(256 * b, 8)
  {
    assert Aligned(4 * b, 2) by { assert 4 * b / 2 == 2 * b; assert 2 * b / 2 == b; }
    assert 8 * b / 2 == 4 * b && Aligned(8 * b, 3);
    assert 16 * b / 2 == 8 * b && Aligned(16 * b, 4);
    assert 32 * b / 2 == 16 * b && Aligned(32 * b, 5);
    assert 64 * b / 2 == 32 * b && Aligned(64 * b, 6);
    assert 128 * b / 2 == 64 * b && Aligned(128 * b, 7);
    assert 256 * b / 2 == 128 * b;
  }

  lemma ByteShift(b: nat)
    requires b > 0
    ensures Lowest(256 * b) == 8 + Lowest(b)
  {
    assert Lowest(4 * b) == 2 + Lowest(b) by { assert 4 * b / 2 == 2 * b; assert 2 * b / 2 == b; }
    assert Lowest(16 * b) == 4 + Lowest(b) by { assert 16 * b / 2 == 8 * b; assert 8 * b / 2 == 4 * b; }
    assert Lowest(64 * b) == 6 + Lowest(b) by { assert 64 * b / 2 == 32 * b; assert 32 * b / 2 == 16 * b; }
    assert 256 * b / 2 == 128 * b;
    assert 128 * b / 2 == 64 * b;
  }

  lemma ByteFits(a: nat)
    requires a < 256
    ensures Fits(a, 8)
  {
    assert a / 2 < 128 && a / 2 / 2 < 64 && a / 2 / 2 / 2 < 32 && a / 2 / 2 / 2 / 2 < 16;
    NibbleFits(a / 2 / 2 / 2 / 2);
  }

  lemma NibbleFits(a: nat)
    requires a < 16
    ensures Fits(a, 4)
  {
  }

  // --- __rt_ffs ---------------------------------------------------------------------------------------------

  // __lowest_bit_bitmap: sixteen rows that differ in their first entry only.
  const ROW: seq<nat> := [0, 0, 1, 0, 2, 0, 1, 0, 3, 0, 1, 0, 2, 0, 1, 0]
  const FIRST: seq<nat> := [0, 4, 5, 4, 6, 4, 5, 4, 7, 4, 5, 4, 6, 4, 5, 4]

  function LowestBitBitmap(b: nat): nat
    requires b < 256
  {
    if b % 16 == 0 then FIRST[b / 16] else ROW[b % 16]
  }

  lemma RowRight(b: nat)
    requires 0 < b < 16
    ensures ROW[b] == Lowest(b) && FIRST[b] == 4 + Lowest(b)
  {
  }

  lemma NibbleShift(h: nat)
    requires h > 0
    ensures Lowest(16 * h) == 4 + Lowest(h)
  {
    assert Lowest(4 * h) == 2 + Lowest(h) by { assert 4 * h / 2 == 2 * h; assert 2 * h / 2 == h; }
    assert 16 * h / 2 == 8 * h;
    assert 8 * h / 2 == 4 * h;
  }

  lemma NibbleAligned(h: nat)
    ensures Aligned(16 * h, 4)
  {
    assert Aligned(4 * h, 2) by { assert 4 * h / 2 == 2 * h; assert 2 * h / 2 == h; }
    assert 8 * h / 2 == 4 * h && Aligned(8 * h, 3);
    assert 16 * h / 2 == 8 * h;
  }

  lemma EntryRight(h: nat, l: nat)
    requires h < 16 && l < 16 && 0 < h + l
    ensures (if l == 0 then FIRST[h] else ROW[l]) == Lowest(l + 16 * h)
  {
    if l == 0 {
      RowRight(h);
      NibbleShift(h);
    } else {
      RowRight(l);
      NibbleFits(l);
      NibbleAligned(h);
      LowestLow(l, 16 * h, 4);
    }
  }

  lemma TableRight(b: nat)
    requires 0 < b < 256
    ensures LowestBitBitmap(b) == Lowest(b)
  {
    EntryRight(b / 16, b % 16);
    assert b == b % 16 + 16 * (b / 16);
  }

  // __rt_ffs, byte by byte from the low end
  function Ffs(value: nat): nat
    requires value < 0x1_0000_0000
  {
    if value == 0 then 0
    else if value % 256 != 0 then LowestBitBitmap(value % 256) + 1
    else if value / 0x100 % 256 != 0 then LowestBitBitmap(value / 0x100 % 256) + 9
    else if value / 0x1_0000 % 256 != 0 then LowestBitBitmap(value / 0x1_0000 % 256) + 17
    else LowestBitBitmap(value / 0x100_0000 % 256) + 25
  }

  // The index, from 1, of the lowest 1 bit of a 32-bit word, or 0 for a zero word.
  lemma FfsRight(value: nat)
    requires value < 0x1_0000_0000
    ensures if value == 0 then Ffs(value) == 0 else Ffs(value) == Lowest(value) + 1
  {
    var w1, w2, w3 := value / 0x100, value / 0x1_0000, value / 0x100_0000;
    assert w1 / 256 == w2 && w2 / 256 == w3 && w3 < 256;
    if value % 256 != 0 {
      FfsByte(value);
    } else if value != 0 {
      FfsZero(value);
      FfsUpper(w1, w2, w3);
    }
  }

  lemma FfsUpper(w1: nat, w2: nat, w3: nat)
    requires w1 > 0 && w2 == w1 / 256 && w3 == w2 / 256 && w3 < 256
    ensures Lowest(w1) ==
      if w1 % 256 != 0 then LowestBitBitmap(w1 % 256)
      else if w2 % 256 != 0 then LowestBitBitmap(w2 % 256) + 8
      else LowestBitBitmap(w3 % 256) + 16
  {
    if w1 % 256 != 0 {
      FfsByte(w1);
    } else {
      FfsZero(w1);
      if w2 % 256 != 0 {
        FfsByte(w2);
      } else {
        FfsZero(w2);
        FfsByte(w3);
      }
    }
  }

  lemma FfsByte(w: nat)
    requires w % 256 != 0
    ensures Lowest(w) == LowestBitBitmap(w % 256)
  {
    TableRight(w % 256);
    ByteFits(w % 256);
    ByteAligned(w / 256);
    LowestLow(w % 256, 256 * (w / 256), 8);
  }

  lemma FfsZero(w: nat)
    requires w % 256 == 0 && w > 0
    ensures w / 256 > 0 && Lowest(w) == 8 + Lowest(w / 256)
  {
    ByteShift(w / 256);
  }

  function Pow2(n: nat): nat { if n == 0 then 1 else 2 * Pow2(n - 1) }

  lemma {:induction false} FitsBound(w: nat, n: nat)
    requires Fits(w, n)
    ensures w < Pow2(n)
    decreases n
  {
    if n > 0 { FitsBound(w / 2, n - 1); }
  }

  lemma Pow2Byte(n: nat)
    ensures Pow2(n + 8) == 256 * Pow2(n)
  {
    assert Pow2(n + 2) == 4 * Pow2(n);
    assert Pow2(n + 4) == 4 * Pow2(n + 2);
    assert Pow2(n + 6) == 4 * Pow2(n + 4);
  }

  lemma Word(w: nat)
    requires Fits(w, 32)
    ensures w < 0x1_0000_0000
  {
    FitsBound(w, 32);
    Pow2Byte(24);
    Pow2Byte(16);
    Pow2Byte(8);
    Pow2Byte(0);
  }

  // --- the bitmap -------------------------------------------------------------------------------------------

  // With wide set, table[n] has a bit for each of the priorities 8n to 8n+7, and group a bit for each
  // byte of the table that is not zero; otherwise group has a bit for each priority.
  datatype Map = Map(wide: bool, group: nat, table: seq<nat>)

  function Levels(wide: bool): int { if wide then 256 else 32 }

  ghost predicate ByteOk(m: Map, n: nat)
    requires n < |m.table|
  {
    Fits(m.table[n], 8) && (Bit(m.group, n) <==> m.table[n] != 0)
  }

  ghost predicate MapOk(m: Map) {
    Fits(m.group, 32) && |m.table| == 32 && (m.wide ==> forall n: nat :: n < 32 ==> ByteOk(m, n))
  }

  predicate Has(m: Map, p: nat)
    requires |m.table| == 32 && p < Levels(m.wide)
  {
    if m.wide then Bit(m.table[p / 8], p % 8) else Bit(m.group, p)
  }

  // The marking in rt_schedule_insert_thread
  function Marked(m: Map, p: nat): Map
    requires |m.table| == 32 && p < Levels(m.wide)
  {
    if m.wide then
      var n := p / 8;
      m.(table := m.table[n := SetBit(m.table[n], p % 8)], group := SetBit(m.group, n))
    else m.(group := SetBit(m.group, p))
  }

  // The clearing in rt_schedule_remove_thread
  function Cleared(m: Map, p: nat): Map
    requires |m.table| == 32 && p < Levels(m.wide)
  {
    if m.wide then
      var n := p / 8;
      var byte := ClearBit(m.table[n], p % 8);
      m.(table := m.table[n := byte], group := if byte == 0 then ClearBit(m.group, n) else m.group)
    else m.(group := ClearBit(m.group, p))
  }

  lemma MarkedHas(m: Map, p: nat, q: nat)
    requires |m.table| == 32 && p < Levels(m.wide) && q < Levels(m.wide)
    ensures Has(Marked(m, p), q) <==> q == p || Has(m, q)
    ensures Has(Cleared(m, p), q) <==> q != p && Has(m, q)
  {
    if m.wide {
      var byte := m.table[p / 8];
      SetBitBits(byte, p % 8, q % 8);
      ClearBitBits(byte, p % 8, q % 8);
      assert p == q <==> p / 8 == q / 8 && p % 8 == q % 8;
    } else {
      SetBitBits(m.group, p, q);
      ClearBitBits(m.group, p, q);
    }
  }

  lemma MarkedOk(m: Map, p: nat)
    requires MapOk(m) && p < Levels(m.wide)
    ensures MapOk(Marked(m, p)) && MapOk(Cleared(m, p))
  {
    SetBitFits(m.group, if m.wide then p / 8 else p, 32);
    if m.wide {
      var m1, m2 := Marked(m, p), Cleared(m, p);
      forall n: nat | n < 32 ensures ByteOk(m1, n) && ByteOk(m2, n) { MarkedByte(m, p, n); }
    }
  }

  lemma MarkedByte(m: Map, p: nat, n: nat)
    requires MapOk(m) && m.wide && p < 256 && n < 32
    ensures ByteOk(Marked(m, p), n) && ByteOk(Cleared(m, p), n)
  {
    assert ByteOk(m, n) && ByteOk(m, p / 8);
    var byte := m.table[p / 8];
    SetBitFits(byte, p % 8, 8);
    SetBitPositive(byte, p % 8);
    SetBitBits(m.group, p / 8, n);
    ClearBitBits(m.group, p / 8, n);
    if byte == 0 && n == p / 8 { ClearZero(p % 8); }
  }

  lemma {:induction false} ClearZero(i: nat)
    ensures ClearBit(0, i) == 0
  {
    if i > 0 { ClearZero(i - 1); }
  }

  // The look-up of rt_schedule
  function Highest(m: Map): int
    requires MapOk(m)
  {
    Word(m.group);
    if m.wide then
      var number := Ffs(m.group) - 1;
      if 0 <= number < 32 then
        assert ByteOk(m, number);
        FitsBound(m.table[number], 8);
        Pow2Byte(0);
        number * 8 + Ffs(m.table[number]) - 1
      else -1
    else Ffs(m.group) - 1
  }

  // The first 1 bit of a word that has one.
  lemma FirstBit(w: nat, n: nat, j: nat)
    requires Fits(w, n) && (n == 8 || n == 32) && Bit(w, j)
    ensures 0 < w < 0x1_0000_0000 && Ffs(w) == Lowest(w) + 1
    ensures Lowest(w) <= j && Lowest(w) < n && Bit(w, Lowest(w))
  {
    if w == 0 { NoBit(j); }
    if n == 8 {
      FitsBound(w, 8);
      Pow2Byte(0);
    } else {
      Word(w);
    }
    FfsRight(w);
    LowestIs(w, j);
    LowestFits(w, n);
  }

  // It finds the most urgent marked priority.
  lemma HighestRight(m: Map, q: nat)
    requires MapOk(m) && q < Levels(m.wide) && Has(m, q)
    ensures 0 <= Highest(m) <= q && Has(m, Highest(m))
  {
    if m.wide { HighestWide(m, q / 8, q % 8); } else { FirstBit(m.group, 32, q); }
  }

  lemma HighestWide(m: Map, n: nat, j: nat)
    requires MapOk(m) && m.wide && n < 32 && j < 8 && Bit(m.table[n], j)
    ensures 0 <= Highest(m) <= n * 8 + j && Highest(m) < 256 && Has(m, Highest(m))
  {
    assert ByteOk(m, n);
    if m.table[n] == 0 { NoBit(j); }
    FirstBit(m.group, 32, n);
    var number := Lowest(m.group);
    assert ByteOk(m, number);
    var some := SomeBit(m.table[number]);
    FirstBit(m.table[number], 8, if number == n then j else some);
    HighestAt(m, number, Lowest(m.table[number]));
  }

  lemma HighestAt(m: Map, number: nat, low: nat)
    requires MapOk(m) && m.wide && number < 32 && low < 8 && Bit(m.table[number], low)
    requires 0 < m.group < 0x1_0000_0000 && Ffs(m.group) == number + 1
    requires 0 < m.table[number] < 0x1_0000_0000 && Ffs(m.table[number]) == low + 1
    ensures Highest(m) == number * 8 + low && Has(m, number * 8 + low)
  {
    Eighths(number, low);
  }

  lemma Eighths(number: nat, low: nat)
    requires low < 8
    ensures (number * 8 + low) / 8 == number && (number * 8 + low) % 8 == low
  {
  }
}
