// The small-memory heap on values: the list of its blocks, the lowest-free hint and the counters.
// Addresses and sizes are words of four bytes; an address is an offset from the start of the heap.

module SmallHeapSpec {

  const H := 3       // the header, 12 bytes
  const MIN := 3     // MIN_SIZE_ALIGNED, 12 bytes

  datatype Blk = Blk(addr: int, used: bool)

  // --- blocks --------------------------------------------------------------------------------------

  ghost predicate Before(bl: seq<Blk>, i: int)
    requires 0 <= i < |bl| - 1
  {
    bl[i].addr + H <= bl[i + 1].addr
  }

  // The blocks tile the heap from 0 to the end mark, which is always used.
  ghost predicate Tiled(bl: seq<Blk>, end: int) {
    && |bl| >= 2 && bl[0].addr == 0 && bl[|bl| - 1] == Blk(end, true)
    && forall i :: 0 <= i < |bl| - 1 ==> Before(bl, i)
  }

  lemma {:induction false} Order(bl: seq<Blk>, end: int, i: int, j: int)
    requires Tiled(bl, end) && 0 <= i < j < |bl|
    ensures 0 <= bl[i].addr && bl[i].addr + H <= bl[j].addr <= end
    decreases |bl| - i, j - i
  {
    OrderUp(bl, end, 0, i);
    OrderUp(bl, end, i + 1, j);
    OrderUp(bl, end, j, |bl| - 1);
    assert Before(bl, i);
  }

  lemma {:induction false} OrderUp(bl: seq<Blk>, end: int, i: int, j: int)
    requires Tiled(bl, end) && 0 <= i <= j < |bl|
    ensures bl[i].addr <= bl[j].addr
    decreases j - i
  {
    if i < j {
      assert Before(bl, i);
      OrderUp(bl, end, i + 1, j);
    }
  }

  lemma SameAddr(bl: seq<Blk>, end: int, i: int, j: int)
    requires Tiled(bl, end) && 0 <= i < |bl| && 0 <= j < |bl|
    ensures 0 <= bl[i].addr <= end && (bl[i].addr == bl[j].addr <==> i == j) && (bl[i].addr < bl[j].addr <==> i < j)
  {
    if i < j { Order(bl, end, i, j); }
    if j < i { Order(bl, end, j, i); }
    OrderUp(bl, end, 0, i);
    OrderUp(bl, end, i, |bl| - 1);
  }

  // No two neighbours are both free.
  ghost predicate Coalesced(bl: seq<Blk>) { forall i :: 0 <= i < |bl| - 1 ==> Meets(bl, i) }

  ghost predicate Meets(bl: seq<Blk>, i: int)
    requires 0 <= i < |bl| - 1
  {
    bl[i].used || bl[i + 1].used
  }

  function Room(bl: seq<Blk>, i: int): int
    requires 0 <= i < |bl| - 1
  {
    bl[i + 1].addr - bl[i].addr - H
  }

  function Marked(bl: seq<Blk>, k: int, used: bool): seq<Blk>
    requires 0 <= k < |bl|
  {
    bl[k := bl[k].(used := used)]
  }

  // Block k keeps n words; the rest becomes a free block.
  function Split(bl: seq<Blk>, k: int, n: int): (r: seq<Blk>)
    requires 0 <= k < |bl|
    ensures |r| == |bl| + 1 && r[k + 1] == Blk(bl[k].addr + H + n, false)
    ensures forall i {:trigger r[i]} :: 0 <= i <= k ==> r[i] == bl[i]
    ensures forall i {:trigger r[i]} :: k + 1 < i < |r| ==> r[i] == bl[i - 1]
  {
    bl[..k + 1] + [Blk(bl[k].addr + H + n, false)] + bl[k + 1..]
  }

  // Block k takes in the block behind it.
  function Merged(bl: seq<Blk>, k: int): (r: seq<Blk>)
    requires 0 <= k < |bl| - 1
    ensures |r| == |bl| - 1
    ensures forall i {:trigger r[i]} :: 0 <= i <= k ==> r[i] == bl[i]
    ensures forall i {:trigger r[i]} :: k < i < |r| ==> r[i] == bl[i + 1]
  {
    bl[..k + 1] + bl[k + 2..]
  }

  lemma MarkedTiled(bl: seq<Blk>, end: int, k: int, used: bool)
    requires Tiled(bl, end) && 0 <= k < |bl| - 1
    ensures Tiled(Marked(bl, k, used), end)
  {
    var bl' := Marked(bl, k, used);
    forall i | 0 <= i < |bl'| - 1 ensures Before(bl', i) { assert Before(bl, i); }
  }

  lemma SplitTiled(bl: seq<Blk>, end: int, k: int, n: int)
    requires Tiled(bl, end) && 0 <= k < |bl| - 1 && 0 <= n && n + H <= Room(bl, k)
    ensures Tiled(Split(bl, k, n), end)
  {
    var bl' := Split(bl, k, n);
    forall i | 0 <= i < |bl'| - 1 ensures Before(bl', i) {
      if i < k { assert Before(bl, i); } else if i > k + 1 { assert Before(bl, i - 1); }
    }
  }

  lemma MergedTiled(bl: seq<Blk>, end: int, k: int)
    requires Tiled(bl, end) && 0 <= k < |bl| - 2
    ensures Tiled(Merged(bl, k), end)
  {
    var bl' := Merged(bl, k);
    forall i | 0 <= i < |bl'| - 1 ensures Before(bl', i) {
      assert i <= k ==> Before(bl, i);
      assert i >= k ==> Before(bl, i + 1);
    }
  }

  // --- used words ------------------------------------------------------------------------------------

  function Share(bl: seq<Blk>, i: int): int
    requires 0 <= i < |bl| - 1
  {
    if bl[i].used then bl[i + 1].addr - bl[i].addr else 0
  }

  // The words of the used blocks among the first n, headers included.
  function UsedTo(bl: seq<Blk>, n: nat): int
    requires n < |bl|
  {
    if n == 0 then 0 else UsedTo(bl, n - 1) + Share(bl, n - 1)
  }

  function Used(bl: seq<Blk>): int
    requires bl != []
  {
    UsedTo(bl, |bl| - 1)
  }

  lemma {:induction false} MarkedUsed(bl: seq<Blk>, k: int, used: bool, n: nat)
    requires 0 <= k < |bl| - 1 && n < |bl|
    ensures UsedTo(Marked(bl, k, used), n) ==
      UsedTo(bl, n) + (if k < n then Share(Marked(bl, k, used), k) - Share(bl, k) else 0)
  {
    if n > 0 { MarkedUsed(bl, k, used, n - 1); }
  }

  lemma {:induction false} SplitUsed(bl: seq<Blk>, k: int, size: int, n: nat)
    requires 0 <= k < |bl| - 1 && n < |bl|
    ensures var r := Split(bl, k, size);
      UsedTo(r, if k < n then n + 1 else n) ==
        UsedTo(bl, n) + (if k < n then Share(r, k) - Share(bl, k) else 0)
  {
    if n > 0 {
      SplitUsed(bl, k, size, n - 1);
      var r := Split(bl, k, size);
      if k == n - 1 { assert UsedTo(r, n + 1) == UsedTo(r, n) + Share(r, n); }
    }
  }

  lemma {:induction false} MergedUsed(bl: seq<Blk>, k: int, n: nat)
    requires 0 <= k < |bl| - 2 && n < |bl| - 1 && !bl[k].used && !bl[k + 1].used
    ensures UsedTo(Merged(bl, k), n) == UsedTo(bl, if k < n then n + 1 else n)
  {
    if n > 0 {
      MergedUsed(bl, k, n - 1);
      if k == n - 1 { assert UsedTo(bl, n + 1) == UsedTo(bl, n) + Share(bl, n); }
    }
  }

  // --- the heap ----------------------------------------------------------------------------------------

  // size: mem_size_aligned; low: lfree; used: used_mem; peak: max_mem.
  datatype Heap = Heap(size: int, bl: seq<Blk>, low: int, used: int, peak: int)

  function End(h: Heap): int { h.size + H }

  ghost predicate Valid(h: Heap) {
    && h.size >= MIN && Tiled(h.bl, End(h)) && Coalesced(h.bl)
    && h.used == Used(h.bl) && h.used <= h.peak
    && exists i :: LowAt(h, i)
  }

  // The hint is the address of a free block, or of the end.
  ghost predicate LowAt(h: Heap, i: int) {
    0 <= i < |h.bl| && h.bl[i].addr == h.low && (i == |h.bl| - 1 || !h.bl[i].used)
  }

  // And no free block is lower.
  ghost predicate Lowest(h: Heap) {
    forall j {:trigger h.bl[j]} :: 0 <= j < |h.bl| && h.bl[j].addr < h.low ==> h.bl[j].used
  }

  // --- plug_holes --------------------------------------------------------------------------------------

  ghost predicate HoleBehind(bl: seq<Blk>, k: int) { 0 <= k < |bl| - 2 && !bl[k + 1].used }

  ghost predicate HoleBefore(bl: seq<Blk>, k: int) { 0 < k < |bl| && !bl[k - 1].used }

  function Max(a: int, b: int): int { if a < b then b else a }

  ghost function PlugBehind(h: Heap, k: int): Heap
    requires 0 <= k < |h.bl| - 1
  {
    if !HoleBehind(h.bl, k) then h
    else h.(bl := Merged(h.bl, k), low := if h.low == h.bl[k + 1].addr then h.bl[k].addr else h.low)
  }

  ghost function PlugBefore(h: Heap, k: int): Heap
    requires 0 <= k < |h.bl| - 1
  {
    if !HoleBefore(h.bl, k) then h
    else h.(bl := Merged(h.bl, k - 1), low := if h.low == h.bl[k].addr then h.bl[k - 1].addr else h.low)
  }

  // Neighbouring free blocks may meet only at block k.
  ghost predicate CoalescedBut(bl: seq<Blk>, k: int) {
    forall i :: 0 <= i < |bl| - 1 && i != k - 1 && i != k ==> Meets(bl, i)
  }

  // The invariant while block k, free, may have free neighbours.
  ghost predicate Loose(h: Heap, k: int) {
    && h.size >= MIN && Tiled(h.bl, End(h)) && 0 <= k < |h.bl| - 1 && !h.bl[k].used && CoalescedBut(h.bl, k)
    && h.used == Used(h.bl) && h.used <= h.peak && exists i :: LowAt(h, i)
  }

  lemma PlugBehindOk(h: Heap, k: int)
    requires Loose(h, k)
    ensures Loose(PlugBehind(h, k), k) && !HoleBehind(PlugBehind(h, k).bl, k)
    ensures PlugBehind(h, k).bl[k] == h.bl[k] && (k > 0 ==> PlugBehind(h, k).bl[k - 1] == h.bl[k - 1])
  {
    if HoleBehind(h.bl, k) {
      var h' := PlugBehind(h, k);
      MergedTiled(h.bl, End(h), k);
      MergedUsed(h.bl, k, |h.bl| - 2);
      var i :| LowAt(h, i);
      SameAddr(h.bl, End(h), i, k + 1);
      assert LowAt(h', if i <= k then i else i - 1);
      assert Meets(h.bl, k + 1);
      forall j | 0 <= j < |h'.bl| - 1 && j != k - 1 && j != k ensures Meets(h'.bl, j) {
        if j < k - 1 { assert Meets(h.bl, j); } else { assert Meets(h.bl, j + 1); }
      }
    }
  }

  lemma PlugBeforeCoalesced(h: Heap, k: int)
    requires Loose(h, k) && !HoleBehind(h.bl, k)
    ensures Coalesced(PlugBefore(h, k).bl)
  {
    var bl, bl' := h.bl, PlugBefore(h, k).bl;
    var merged := HoleBefore(bl, k);
    forall j | 0 <= j < |bl'| - 1 ensures Meets(bl', j) {
      if j < k - 2 || (j == k - 2 && !merged) {
        assert Meets(bl, j);
      } else if j == k - 2 {
        assert Meets(bl, k - 2);
      } else if merged && j >= k {
        assert Meets(bl, j + 1);
      } else if !merged && j > k {
        assert Meets(bl, j);
      }
    }
  }

  lemma PlugBeforeOk(h: Heap, k: int)
    requires Loose(h, k) && !HoleBehind(h.bl, k)
    ensures Valid(PlugBefore(h, k))
  {
    var h' := PlugBefore(h, k);
    PlugBeforeCoalesced(h, k);
    if HoleBefore(h.bl, k) {
      MergedTiled(h.bl, End(h), k - 1);
      MergedUsed(h.bl, k - 1, |h.bl| - 2);
      PlugBeforeLow(h, k);
    }
  }

  lemma PlugBeforeLow(h: Heap, k: int)
    requires Loose(h, k) && HoleBefore(h.bl, k)
    ensures exists i :: LowAt(PlugBefore(h, k), i)
  {
    var i :| LowAt(h, i);
    SameAddr(h.bl, End(h), i, k);
    assert LowAt(PlugBefore(h, k), if i < k then i else i - 1);
  }

  ghost function Plugged(h: Heap, k: int): Heap
    requires 0 <= k < |h.bl| - 1
  {
    PlugBefore(PlugBehind(h, k), k)
  }

  lemma PluggedOk(h: Heap, k: int)
    requires Loose(h, k)
    ensures Valid(Plugged(h, k))
  {
    PlugBehindOk(h, k);
    PlugBeforeOk(PlugBehind(h, k), k);
  }

  // --- rt_free -----------------------------------------------------------------------------------------

  ghost function Unmarked(h: Heap, k: int): Heap
    requires 0 <= k < |h.bl| - 1
  {
    h.(bl := Marked(h.bl, k, false), low := if h.bl[k].addr < h.low then h.bl[k].addr else h.low,
       used := h.used - (h.bl[k + 1].addr - h.bl[k].addr))
  }

  ghost function Freed(h: Heap, k: int): Heap
    requires 0 <= k < |h.bl| - 1
  {
    Plugged(Unmarked(h, k), k)
  }

  lemma UnmarkedOk(h: Heap, k: int)
    requires Valid(h) && 0 <= k < |h.bl| - 1 && h.bl[k].used
    ensures Loose(Unmarked(h, k), k)
  {
    var h' := Unmarked(h, k);
    MarkedTiled(h.bl, End(h), k, false);
    MarkedUsed(h.bl, k, false, |h.bl| - 1);
    SameAddr(h.bl, End(h), k, k + 1);
    var i :| LowAt(h, i);
    if h.bl[k].addr < h.low { assert LowAt(h', k); } else { assert LowAt(h', i); }
    forall j | 0 <= j < |h'.bl| - 1 && j != k - 1 && j != k ensures Meets(h'.bl, j) {
      assert Meets(h.bl, j);
    }
  }

  // Over mallocs and frees the hint stays the lowest free block.
  lemma FreedLowest(h: Heap, k: int)
    requires Valid(h) && Lowest(h) && 0 <= k < |h.bl| - 1 && h.bl[k].used
    ensures Lowest(Freed(h, k))
  {
    UnmarkedOk(h, k);
    var h1 := Unmarked(h, k);
    forall j | 0 <= j < |h1.bl| && h1.bl[j].addr < h1.low ensures h1.bl[j].used { SameAddr(h.bl, End(h), j, k); }
    PlugBehindOk(h1, k);
    PlugBehindLowest(h1, k);
    PlugBeforeLowest(PlugBehind(h1, k), k);
  }

  lemma PlugBehindLowest(h: Heap, k: int)
    requires Loose(h, k) && Lowest(h)
    ensures Lowest(PlugBehind(h, k))
  {
    if HoleBehind(h.bl, k) {
      var h' := PlugBehind(h, k);
      SameAddr(h.bl, End(h), k, k + 1);
      forall j | 0 <= j < |h'.bl| && h'.bl[j].addr < h'.low ensures h'.bl[j].used {
        assert h'.bl[j] == h.bl[if j <= k then j else j + 1];
      }
    }
  }

  lemma PlugBeforeLowest(h: Heap, k: int)
    requires Loose(h, k) && Lowest(h)
    ensures Lowest(PlugBefore(h, k))
  {
    if HoleBefore(h.bl, k) {
      var h' := PlugBefore(h, k);
      SameAddr(h.bl, End(h), k - 1, k);
      forall j | 0 <= j < |h'.bl| && h'.bl[j].addr < h'.low ensures h'.bl[j].used {
        assert h'.bl[j] == h.bl[if j < k then j else j + 1];
      }
    }
  }

  // --- rt_malloc ---------------------------------------------------------------------------------------

  // A free block in which n words fit.
  ghost predicate Roomy(h: Heap, i: int, n: int) { 0 <= i < |h.bl| - 1 && !h.bl[i].used && Room(h.bl, i) >= n }

  // One that the search accepts: its bound is strict.
  ghost predicate Fits(h: Heap, i: int, n: int) { Roomy(h, i, n) && h.bl[i].addr < h.size - n }

  ghost function FirstFit(h: Heap, i: nat, n: int): (k: int)
    ensures i < |h.bl| ==> i <= k < |h.bl|
    ensures i < |h.bl| && k < |h.bl| - 1 ==> Fits(h, k, n)
    decreases |h.bl| - i
  {
    if i >= |h.bl| - 1 then |h.bl| - 1 else if Fits(h, i, n) then i else FirstFit(h, i + 1, n)
  }

  lemma {:induction false} FirstFitFirst(h: Heap, i: nat, n: int, j: int)
    requires i < |h.bl| && i <= j < FirstFit(h, i, n)
    ensures !Fits(h, j, n)
    decreases |h.bl| - i
  {
    if j > i { FirstFitFirst(h, i + 1, n, j); }
  }

  ghost function NextFree(bl: seq<Blk>, i: nat): (k: int)
    requires i < |bl|
    ensures i <= k < |bl| && (k == |bl| - 1 || !bl[k].used)
    decreases |bl| - i
  {
    if i == |bl| - 1 || !bl[i].used then i else NextFree(bl, i + 1)
  }

  lemma {:induction false} NextFreeFirst(bl: seq<Blk>, i: nat, j: int)
    requires i < |bl| && i <= j < NextFree(bl, i)
    ensures bl[j].used
    decreases |bl| - i
  {
    if j > i { NextFreeFirst(bl, i + 1, j); }
  }

  // The blocks after block k was taken for n words.
  ghost function Cut(bl: seq<Blk>, k: int, n: int): seq<Blk>
    requires 0 <= k < |bl| - 1
  {
    if Room(bl, k) >= n + H + MIN then Marked(Split(bl, k, n), k, true) else Marked(bl, k, true)
  }

  ghost function Carved(h: Heap, k: int, n: int): Heap
    requires 0 <= k < |h.bl| - 1
  {
    var bl := Cut(h.bl, k, n);
    var used := h.used + (bl[k + 1].addr - bl[k].addr);
    h.(bl := bl, used := used, peak := Max(h.peak, used),
       low := if h.bl[k].addr == h.low then bl[NextFree(bl, k)].addr else h.low)
  }

  lemma CutOk(bl: seq<Blk>, end: int, k: int, n: int)
    requires Tiled(bl, end) && Coalesced(bl) && 0 <= k < |bl| - 1 && !bl[k].used && 0 <= n <= Room(bl, k)
    ensures Tiled(Cut(bl, k, n), end) && Coalesced(Cut(bl, k, n))
    ensures Used(Cut(bl, k, n)) == Used(bl) + (Cut(bl, k, n)[k + 1].addr - bl[k].addr)
  {
    var r := Cut(bl, k, n);
    if Room(bl, k) >= n + H + MIN {
      var s := Split(bl, k, n);
      SplitTiled(bl, end, k, n);
      MarkedTiled(s, end, k, true);
      SplitUsed(bl, k, n, |bl| - 1);
      MarkedUsed(s, k, true, |s| - 1);
      assert Meets(bl, k);
      forall j | 0 <= j < |r| - 1 ensures Meets(r, j) {
        if j < k { assert Meets(bl, j); }
        if j > k + 1 { assert Meets(bl, j - 1); }
      }
    } else {
      MarkedTiled(bl, end, k, true);
      MarkedUsed(bl, k, true, |bl| - 1);
      forall j | 0 <= j < |r| - 1 ensures Meets(r, j) { assert Meets(bl, j); }
    }
  }

  lemma CarvedOk(h: Heap, k: int, n: int)
    requires Valid(h) && Roomy(h, k, n) && 0 <= n
    ensures Valid(Carved(h, k, n)) && (Lowest(h) ==> Lowest(Carved(h, k, n)))
  {
    var h' := Carved(h, k, n);
    CutOk(h.bl, End(h), k, n);
    var i :| LowAt(h, i);
    SameAddr(h.bl, End(h), i, k);
    var shift := |h'.bl| - |h.bl|;
    if i == k {
      assert LowAt(h', NextFree(h'.bl, k));
    } else {
      assert LowAt(h', if i < k then i else i + shift);
    }
    if Lowest(h) { CarvedLowest(h, k, n, i); }
  }

  lemma CarvedLowest(h: Heap, k: int, n: int, i: int)
    requires Valid(h) && Roomy(h, k, n) && 0 <= n && Lowest(h) && LowAt(h, i)
    requires Tiled(Cut(h.bl, k, n), End(h))
    ensures Lowest(Carved(h, k, n))
  {
    var h' := Carved(h, k, n);
    SameAddr(h.bl, End(h), i, k);
    assert i <= k by { if k < i { SameAddr(h.bl, End(h), k, i); } }
    forall j | 0 <= j < |h'.bl| && h'.bl[j].addr < h'.low ensures h'.bl[j].used {
      if i == k {
        SameAddr(h'.bl, End(h), j, NextFree(h'.bl, k));
        if j >= k { NextFreeFirst(h'.bl, k, j); } else { SameAddr(h.bl, End(h), j, i); }
      } else {
        SameAddr(h'.bl, End(h), j, i);
      }
    }
  }

  // The search starts at the hint.
  ghost function Chosen(h: Heap, i: nat, n: int): int
    requires LowAt(h, i)
  {
    FirstFit(h, i, n)
  }

  // The strict bound shuts out one block: the last one, if n words fill it exactly.
  ghost predicate LastExact(h: Heap, j: int, n: int) { j == |h.bl| - 2 && 0 <= j && Room(h.bl, j) == n }

  lemma FitsIff(h: Heap, j: int, n: int)
    requires Valid(h)
    ensures Fits(h, j, n) <==> Roomy(h, j, n) && !LastExact(h, j, n)
  {
    if Roomy(h, j, n) && j < |h.bl| - 2 { Order(h.bl, End(h), j + 1, |h.bl| - 1); }
  }

  // From any hint, the search refuses exactly if nothing from the hint on is accepted, and accepts the
  // first that is.
  lemma ChosenFrom(h: Heap, i: nat, n: int)
    requires LowAt(h, i)
    ensures Chosen(h, i, n) == |h.bl| - 1 <==> forall j :: i <= j < |h.bl| ==> !Fits(h, j, n)
    ensures forall j :: i <= j < |h.bl| && Fits(h, j, n) ==> Chosen(h, i, n) <= j
  {
    forall j | i <= j < Chosen(h, i, n) ensures !Fits(h, j, n) { FirstFitFirst(h, i, n, j); }
  }

  // With the lowest hint, malloc gives the lowest block that fits, and fails exactly if every block with
  // room is the last one and is filled exactly.
  lemma ChosenRight(h: Heap, i: nat, n: int)
    requires Valid(h) && Lowest(h) && LowAt(h, i)
    ensures Chosen(h, i, n) == |h.bl| - 1 <==> forall j :: Roomy(h, j, n) ==> LastExact(h, j, n)
    ensures forall j :: Fits(h, j, n) ==> Chosen(h, i, n) <= j
  {
    ChosenFrom(h, i, n);
    forall j | Roomy(h, j, n) ensures i <= j && (Fits(h, j, n) <==> !LastExact(h, j, n)) {
      SameAddr(h.bl, End(h), j, i);
      FitsIff(h, j, n);
    }
  }

  // --- the round trip ----------------------------------------------------------------------------------

  lemma UnmarkedCut(h: Heap, k: int, n: int)
    requires Valid(h) && Lowest(h) && Roomy(h, k, n) && 0 <= n
    ensures var h2 := Unmarked(Carved(h, k, n), k);
      && h2.bl == (if Room(h.bl, k) >= n + H + MIN then Split(h.bl, k, n) else h.bl)
      && h2.low == h.low && h2.used == h.used
  {
    var h1 := Carved(h, k, n);
    var i :| LowAt(h, i);
    SameAddr(h.bl, End(h), i, k);
    assert i <= k by { if k < i { SameAddr(h.bl, End(h), k, i); } }
    CutOk(h.bl, End(h), k, n);
    if i == k { SameAddr(h1.bl, End(h), k, NextFree(h1.bl, k)); }
    assert Marked(Cut(h.bl, k, n), k, false) == if Room(h.bl, k) >= n + H + MIN then Split(h.bl, k, n) else h.bl;
  }

  lemma PlugSplit(h: Heap, bl: seq<Blk>, k: int, n: int)
    requires 0 <= k < |bl| - 1 && h.bl == Split(bl, k, n) && (k > 0 ==> bl[k - 1].used)
    requires h.low != h.bl[k + 1].addr
    ensures Plugged(h, k) == h.(bl := bl)
  {
    assert Merged(Split(bl, k, n), k) == bl;
  }

  lemma PlugNothing(h: Heap, k: int)
    requires 0 <= k < |h.bl| - 1 && (k > 0 ==> h.bl[k - 1].used) && h.bl[k + 1].used
    ensures Plugged(h, k) == h
  {
  }

  lemma LowNotRest(h: Heap, k: int, n: int)
    requires Valid(h) && Roomy(h, k, n) && 0 <= n && Room(h.bl, k) >= n + H + MIN
    ensures h.low != h.bl[k].addr + H + n
  {
    var i :| LowAt(h, i);
    SplitTiled(h.bl, End(h), k, n);
    SameAddr(Split(h.bl, k, n), End(h), k + 1, if i <= k then i else i + 1);
  }

  // Freeing what was just allocated restores blocks, hint and counter.
  lemma FreeUndoes(h: Heap, k: int, n: int)
    requires Valid(h) && Lowest(h) && Roomy(h, k, n) && 0 <= n
    ensures Freed(Carved(h, k, n), k) == h.(peak := Carved(h, k, n).peak)
  {
    var h2 := Unmarked(Carved(h, k, n), k);
    UnmarkedCut(h, k, n);
    assert k > 0 ==> Meets(h.bl, k - 1);
    assert Meets(h.bl, k);
    if Room(h.bl, k) >= n + H + MIN {
      LowNotRest(h, k, n);
      PlugSplit(h2, h.bl, k, n);
    } else {
      PlugNothing(h2, k);
    }
  }

  // --- rt_realloc that shrinks in place ------------------------------------------------------------------

  ghost function Trimmed(h: Heap, k: int, n: int): Heap
    requires 0 <= k < |h.bl| - 1
  {
    h.(bl := Split(h.bl, k, n), used := h.used - (Room(h.bl, k) - n))
  }

  ghost function Shrunk(h: Heap, k: int, n: int): Heap
    requires 0 <= k < |h.bl| - 1
  {
    Plugged(Trimmed(h, k, n), k + 1)
  }

  lemma TrimmedOk(h: Heap, k: int, n: int)
    requires Valid(h) && 0 <= k < |h.bl| - 1 && h.bl[k].used && 0 <= n && n + H + MIN < Room(h.bl, k)
    ensures Loose(Trimmed(h, k, n), k + 1)
  {
    var h' := Trimmed(h, k, n);
    SplitTiled(h.bl, End(h), k, n);
    SplitUsed(h.bl, k, n, |h.bl| - 1);
    var i :| LowAt(h, i);
    assert LowAt(h', if i <= k then i else i + 1);
    forall j | 0 <= j < |h'.bl| - 1 && j != k && j != k + 1 ensures Meets(h'.bl, j) {
      if j < k { assert Meets(h.bl, j); } else { assert Meets(h.bl, j - 1); }
    }
  }

  lemma ShrunkOk(h: Heap, k: int, n: int)
    requires Valid(h) && 0 <= k < |h.bl| - 1 && h.bl[k].used && 0 <= n && n + H + MIN < Room(h.bl, k)
    ensures Valid(Shrunk(h, k, n))
  {
    TrimmedOk(h, k, n);
    PluggedOk(Trimmed(h, k, n), k + 1);
  }

  lemma ShrunkFront(h: Heap, k: int, n: int)
    requires Valid(h) && 0 <= k < |h.bl| - 1 && h.bl[k].used && 0 <= n && n + H + MIN < Room(h.bl, k)
    ensures var h' := Shrunk(h, k, n);
      && |h'.bl| > k + 2 && h'.bl[k + 1] == Blk(h.bl[k].addr + H + n, false)
      && (forall j {:trigger h'.bl[j]} :: 0 <= j <= k ==> h'.bl[j] == h.bl[j])
      && h'.low == if k + 1 < |h.bl| - 1 && !h.bl[k + 1].used && h.low == h.bl[k + 1].addr then h'.bl[k + 1].addr
                   else h.low
  {
    var h1 := Trimmed(h, k, n);
    TrimmedOk(h, k, n);
    PlugBehindOk(h1, k + 1);
    assert h1.bl[k].used && PlugBehind(h1, k + 1).bl[k].used;
    assert Shrunk(h, k, n) == PlugBehind(h1, k + 1);
  }

  // The shrink does not lower the hint.  The hint stays the lowest free block exactly if there was a
  // free block below already, or the words given up joined the free block behind.
  lemma ShrunkLowest(h: Heap, k: int, n: int)
    requires Valid(h) && Lowest(h) && 0 <= k < |h.bl| - 1 && h.bl[k].used && 0 <= n && n + H + MIN < Room(h.bl, k)
    ensures Lowest(Shrunk(h, k, n)) <==> h.low < h.bl[k].addr || !h.bl[k + 1].used
  {
    var h' := Shrunk(h, k, n);
    ShrunkFront(h, k, n);
    ShrunkOk(h, k, n);
    var i :| LowAt(h, i);
    SameAddr(h.bl, End(h), i, k);
    SameAddr(h.bl, End(h), i, k + 1);
    if h.low < h.bl[k].addr {
      LowBelow(h, h', k, i);
    } else if !h.bl[k + 1].used {
      assert i == k + 1 by { if i > k + 1 { SameAddr(h.bl, End(h), k + 1, i); } }
      LowBelow(h, h', k, k + 1);
    } else {
      assert h.low > h'.bl[k + 1].addr;
    }
  }

  // A hint at place i of both lists, which agree up to k.
  lemma LowBelow(h: Heap, h': Heap, k: int, i: int)
    requires Valid(h) && Valid(h') && End(h') == End(h) && Lowest(h) && LowAt(h, i)
    requires 0 <= i <= k + 1 < |h'.bl| && k < |h.bl| && h'.low == h'.bl[i].addr
    requires forall j {:trigger h'.bl[j]} :: 0 <= j <= k ==> h'.bl[j] == h.bl[j]
    ensures Lowest(h')
  {
    forall j | 0 <= j < |h'.bl| && h'.bl[j].addr < h'.low ensures h'.bl[j].used {
      SameAddr(h'.bl, End(h'), j, i);
      SameAddr(h.bl, End(h), j, i);
    }
  }
}
