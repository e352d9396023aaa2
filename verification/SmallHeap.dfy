// The small-memory heap: block headers linked by offsets, updated in place.

module SmallHeap {
  import opened SmallHeapSpec

  const NULL := -1

  // --- headers -------------------------------------------------------------------------------------

  // The header fields of block i; the prev field of the end mark means nothing.
  ghost predicate HeadAt(nx: seq<int>, pv: seq<int>, us: seq<bool>, bl: seq<Blk>, i: int)
    requires 0 <= i < |bl|
  {
    var a := bl[i].addr;
    && 0 <= a < |nx| && |nx| == |pv| == |us| && us[a] == bl[i].used
    && (i < |bl| - 1 ==> nx[a] == bl[i + 1].addr && pv[a] == if i > 0 then bl[i - 1].addr else 0)
    && (i == |bl| - 1 ==> nx[a] == a)
  }

  ghost predicate Linked(nx: seq<int>, pv: seq<int>, us: seq<bool>, bl: seq<Blk>, end: int) {
    && Tiled(bl, end) && |nx| == |pv| == |us| == end + 1
    && forall i :: 0 <= i < |bl| ==> HeadAt(nx, pv, us, bl, i)
  }

  lemma MarkHeads(nx: seq<int>, pv: seq<int>, us: seq<bool>, bl: seq<Blk>, end: int, k: int, used: bool)
    requires Linked(nx, pv, us, bl, end) && 0 <= k < |bl| - 1
    ensures 0 <= bl[k].addr <= end && Linked(nx, pv, us[bl[k].addr := used], Marked(bl, k, used), end)
  {
    SameAddr(bl, end, k, k);
    MarkedTiled(bl, end, k, used);
    var us', bl' := us[bl[k].addr := used], Marked(bl, k, used);
    forall i | 0 <= i < |bl'| ensures HeadAt(nx, pv, us', bl', i) {
      assert HeadAt(nx, pv, us, bl, i);
      SameAddr(bl, end, i, k);
    }
  }

  ghost function SplitPrev(pv: seq<int>, a: int, q: int, next: int, end: int): (r: seq<int>)
    requires 0 <= q < |pv| && 0 <= next < |pv|
    ensures |r| == |pv|
  {
    if next != end then pv[q := a][next := q] else pv[q := a]
  }

  lemma SplitHeads(nx: seq<int>, pv: seq<int>, us: seq<bool>, bl: seq<Blk>, end: int, k: int, n: int)
    requires Linked(nx, pv, us, bl, end) && 0 <= k < |bl| - 1 && 0 <= n && n + H <= Room(bl, k)
    ensures var a, q, next := bl[k].addr, bl[k].addr + H + n, bl[k + 1].addr;
      && 0 <= a < q < next <= end
      && Linked(nx[q := next][a := q], SplitPrev(pv, a, q, next, end), us[q := false], Split(bl, k, n), end)
  {
    var a, q, next := bl[k].addr, bl[k].addr + H + n, bl[k + 1].addr;
    SameAddr(bl, end, k, k + 1);
    SameAddr(bl, end, k + 1, k);
    SplitTiled(bl, end, k, n);
    var nx', pv', us', bl' := nx[q := next][a := q], SplitPrev(pv, a, q, next, end), us[q := false], Split(bl, k, n);
    forall i | 0 <= i < |bl'| ensures HeadAt(nx', pv', us', bl', i) { SplitHead(nx, pv, us, bl, end, k, n, i); }
  }

  lemma SplitHead(nx: seq<int>, pv: seq<int>, us: seq<bool>, bl: seq<Blk>, end: int, k: int, n: int, i: int)
    requires Linked(nx, pv, us, bl, end) && 0 <= k < |bl| - 1 && 0 <= n && n + H <= Room(bl, k)
    requires Tiled(Split(bl, k, n), end) && 0 <= i <= |bl|
    requires 0 <= bl[k].addr && bl[k + 1].addr <= end
    ensures var a, q, next := bl[k].addr, bl[k].addr + H + n, bl[k + 1].addr;
      HeadAt(nx[q := next][a := q], SplitPrev(pv, a, q, next, end), us[q := false], Split(bl, k, n), i)
  {
    var bl' := Split(bl, k, n);
    SameAddr(bl', end, i, k);
    SameAddr(bl', end, i, k + 1);
    SameAddr(bl', end, i, k + 2);
    SameAddr(bl', end, k + 2, |bl'| - 1);
    if i != k + 1 { assert HeadAt(nx, pv, us, bl, if i <= k then i else i - 1); }
  }

  lemma MergeHeads(nx: seq<int>, pv: seq<int>, us: seq<bool>, bl: seq<Blk>, end: int, k: int)
    requires Linked(nx, pv, us, bl, end) && 0 <= k < |bl| - 2
    ensures var a, q, next := bl[k].addr, bl[k + 1].addr, bl[k + 2].addr;
      0 <= a < q < next <= end && nx[q] == next && Linked(nx[a := next], pv[next := a], us, Merged(bl, k), end)
  {
    var a, q, next := bl[k].addr, bl[k + 1].addr, bl[k + 2].addr;
    SameAddr(bl, end, k, k + 1);
    SameAddr(bl, end, k + 1, k + 2);
    SameAddr(bl, end, k + 2, k);
    MergedTiled(bl, end, k);
    assert HeadAt(nx, pv, us, bl, k + 1);
    var nx', pv', bl' := nx[a := next], pv[next := a], Merged(bl, k);
    forall i | 0 <= i < |bl'| ensures HeadAt(nx', pv', us, bl', i) {
      var o := if i <= k then i else i + 1;
      assert HeadAt(nx, pv, us, bl, o);
      SameAddr(bl, end, o, k);
      SameAddr(bl, end, o, k + 2);
    }
  }

  // --- the heap --------------------------------------------------------------------------------------

  // RT_ALIGN in words: the least number of words that hold the bytes
  function Words(bytes: nat): (n: int)
    ensures bytes <= 4 * n < bytes + 4
  {
    (bytes + 3) / 4
  }

  class SmallHeap {
    const size: int               // mem_size_aligned
    const next: array<int>
    const prev: array<int>
    const used: array<bool>
    const data: array<int>
    var lfree: int
    var usedMem: int
    var maxMem: int
    ghost var blocks: seq<Blk>

    ghost function View(): Heap
      reads this
    {
      Heap(size, blocks, lfree, usedMem, maxMem)
    }

    ghost predicate Headed()
      reads this, next, prev, used
    {
      && next != prev && data != next && data != prev
      && next.Length == data.Length
      && Linked(next[..], prev[..], used[..], blocks, size + H)
    }

    ghost predicate Valid()
      reads this, next, prev, used
    {
      Headed() && SmallHeapSpec.Valid(View())
    }

    // The address r points into a used block.
    ghost predicate Live(r: int, k: int)
      reads this
    {
      0 <= k < |blocks| - 1 && blocks[k].used && blocks[k].addr + H == r
    }

    // rt_system_heap_init, on a region with size words between its two headers
    constructor (size: int)
      requires size >= MIN
      ensures Valid() && Lowest(View()) && fresh(next) && fresh(prev) && fresh(used) && fresh(data)
      ensures this.size == size && blocks == [Blk(0, false), Blk(size + H, true)] && usedMem == 0
    {
      this.size := size;
      next := new int[size + H + 1](i => size + H);
      prev := new int[size + H + 1](i => if i == 0 then 0 else size + H);
      used := new bool[size + H + 1](i => i == size + H);
      data := new int[size + H + 1];
      lfree, usedMem, maxMem := 0, 0, 0;
      blocks := [Blk(0, false), Blk(size + H, true)];
      new;
      assert Before(blocks, 0);
      assert HeadAt(next[..], prev[..], used[..], blocks, 0) && HeadAt(next[..], prev[..], used[..], blocks, 1);
      assert Meets(blocks, 0);
      assert LowAt(View(), 0);
      assert UsedTo(blocks, 1) == 0;
    }

    // plug_holes
    method PlugHoles(mem: int, ghost k: int)
      requires Headed() && Loose(View(), k) && mem == blocks[k].addr
      modifies next, prev, `lfree, `blocks
      ensures Valid() && View() == Plugged(old(View()), k)
    {
      PluggedOk(View(), k);
      PlugBehindOk(View(), k);
      PlugForward(mem, k);
      PlugBackward(mem, k);
    }

    method PlugForward(mem: int, ghost k: int)
      requires Headed() && 0 <= k < |blocks| - 1 && mem == blocks[k].addr
      modifies next, prev, `lfree, `blocks
      ensures Headed() && View() == PlugBehind(old(View()), k)
    {
      assert HeadAt(next[..], prev[..], used[..], blocks, k) && HeadAt(next[..], prev[..], used[..], blocks, k + 1);
      SameAddr(blocks, size + H, k + 1, |blocks| - 1);
      SameAddr(blocks, size + H, k, k + 1);
      var nmem := next[mem];
      if mem != nmem && !used[nmem] && nmem != size + H {
        MergeHeads(next[..], prev[..], used[..], blocks, size + H, k);
        if lfree == nmem { lfree := mem; }
        next[mem] := next[nmem];
        prev[next[nmem]] := mem;
        blocks := Merged(blocks, k);
      }
    }

    method PlugBackward(mem: int, ghost k: int)
      requires Headed() && 0 <= k < |blocks| - 1 && mem == blocks[k].addr
      modifies next, prev, `lfree, `blocks
      ensures Headed() && View() == PlugBefore(old(View()), k)
    {
      assert HeadAt(next[..], prev[..], used[..], blocks, k);
      var pmem := prev[mem];
      if k > 0 {
        assert HeadAt(next[..], prev[..], used[..], blocks, k - 1);
        SameAddr(blocks, size + H, k - 1, k);
      }
      if pmem != mem && !used[pmem] {
        MergeHeads(next[..], prev[..], used[..], blocks, size + H, k - 1);
        if lfree == mem { lfree := pmem; }
        next[pmem] := next[mem];
        prev[next[mem]] := pmem;
        blocks := Merged(blocks, k - 1);
      }
    }

    method Release(mem: int, ghost k: int)
      requires Headed() && 0 <= k < |blocks| - 1 && mem == blocks[k].addr
      modifies used, `lfree, `usedMem, `blocks
      ensures Headed() && View() == Unmarked(old(View()), k)
    {
      MarkHeads(next[..], prev[..], used[..], blocks, size + H, k, false);
      assert HeadAt(next[..], prev[..], used[..], blocks, k);
      used[mem] := false;
      if mem < lfree { lfree := mem; }
      usedMem := usedMem - (next[mem] - mem);
      blocks := Marked(blocks, k, false);
    }

    // rt_free of what a malloc returned, or of NULL
    method Free(r: int, ghost k: int)
      requires Valid() && (r == NULL || Live(r, k))
      modifies this, next, prev, used
      ensures Valid() && View() == if r == NULL then old(View()) else Freed(old(View()), k)
      ensures old(Lowest(View())) ==> Lowest(View())
    {
      if r == NULL {
        return;
      }
      UnmarkedOk(View(), k);
      if Lowest(View()) { FreedLowest(View(), k); }
      Release(r - H, k);
      PlugHoles(r - H, k);
    }

    // --- rt_malloc --------------------------------------------------------------------------------

    // The search loop: an accepted block, or the end of the heap.
    method Search(n: int, ghost i0: int) returns (ptr: int, ghost k: int)
      requires Valid() && MIN <= n <= size && LowAt(View(), i0)
      ensures k == Chosen(View(), i0, n) && (k < |blocks| - 1 ==> ptr == blocks[k].addr)
      ensures ptr < size - n <==> k < |blocks| - 1
    {
      ptr := lfree;
      ghost var i := i0;
      ghost var goal := Chosen(View(), i0, n);
      while ptr < size - n
        invariant 0 <= i < |blocks| && ptr == blocks[i].addr && goal == FirstFit(View(), i, n)
        decreases |blocks| - i
      {
        SameAddr(blocks, size + H, i, |blocks| - 1);
        assert HeadAt(next[..], prev[..], used[..], blocks, i);
        if !used[ptr] && next[ptr] - (ptr + H) >= n {
          k := i;
          return;
        }
        ptr := next[ptr];
        i := i + 1;
      }
      NoFitBeyond(View(), i, n);
      k := |blocks| - 1;
    }

    // Make block k used, with a new block for the words left over if they are enough for one.
    method Carve(ptr: int, n: int, ghost k: int)
      requires Valid() && Roomy(View(), k, n) && 0 <= n && ptr == blocks[k].addr
      modifies next, prev, used, `usedMem, `maxMem, `blocks
      ensures Headed() && View() == Carved(old(View()), k, n).(low := lfree) && lfree == old(lfree)
    {
      assert HeadAt(next[..], prev[..], used[..], blocks, k);
      ghost var goal := Cut(blocks, k, n);
      if next[ptr] - (ptr + H) >= n + H + MIN {
        SplitHeads(next[..], prev[..], used[..], blocks, size + H, k, n);
        SplitAt(ptr, n, k);
        MarkHeads(next[..], prev[..], used[..], blocks, size + H, k, true);
        used[ptr] := true;
        usedMem := usedMem + n + H;
      } else {
        MarkHeads(next[..], prev[..], used[..], blocks, size + H, k, true);
        used[ptr] := true;
        usedMem := usedMem + (next[ptr] - ptr);
      }
      blocks := Marked(blocks, k, true);
      assert blocks == goal;
      if maxMem < usedMem { maxMem := usedMem; }
    }

    // Insert a free block header n words into block k.
    method SplitAt(ptr: int, n: int, ghost k: int)
      requires Headed() && 0 <= k < |blocks| - 1 && ptr == blocks[k].addr && 0 <= n && n + H <= Room(blocks, k)
      modifies next, prev, used, `blocks
      ensures Headed() && blocks == Split(old(blocks), k, n)
    {
      SplitHeads(next[..], prev[..], used[..], blocks, size + H, k, n);
      assert HeadAt(next[..], prev[..], used[..], blocks, k);
      var ptr2 := ptr + H + n;
      used[ptr2] := false;
      next[ptr2] := next[ptr];
      prev[ptr2] := ptr;
      next[ptr] := ptr2;
      if next[ptr2] != size + H { prev[next[ptr2]] := ptr2; }
      blocks := Split(blocks, k, n);
    }

    // The loop that moves the lowest-free pointer on.
    method AdvanceLow(ghost k: int)
      requires Headed() && 0 <= k < |blocks| && lfree == blocks[k].addr
      modifies `lfree
      ensures Headed() && lfree == blocks[NextFree(blocks, k)].addr
    {
      ghost var i := k;
      assert HeadAt(next[..], prev[..], used[..], blocks, i);
      while used[lfree] && lfree != size + H
        invariant 0 <= i < |blocks| && lfree == blocks[i].addr && NextFree(blocks, i) == NextFree(blocks, k)
        invariant HeadAt(next[..], prev[..], used[..], blocks, i)
        decreases |blocks| - i
      {
        SameAddr(blocks, size + H, i, |blocks| - 1);
        assert HeadAt(next[..], prev[..], used[..], blocks, i + 1);
        lfree := next[lfree];
        i := i + 1;
      }
      SameAddr(blocks, size + H, i, |blocks| - 1);
    }

    // rt_malloc.  i is the place of the lowest-free pointer, k the place of the block that is given.
    method Malloc(bytes: nat, ghost i: int) returns (r: int, ghost k: int)
      requires Valid() && LowAt(View(), i)
      modifies this, next, prev, used
      ensures Valid() && (old(Lowest(View())) ==> Lowest(View()))
      ensures var n := Request(bytes);
        if bytes == 0 || Words(bytes) > size || Chosen(old(View()), i, n) == |old(blocks)| - 1 then
          r == NULL && View() == old(View())
        else
          && r != NULL && k == Chosen(old(View()), i, n) && Fits(old(View()), k, n)
          && View() == Carved(old(View()), k, n) && Live(r, k) && blocks[k].addr == old(blocks)[k].addr
          && bytes <= 4 * Room(blocks, k) < Greater(bytes + 4, 4 * MIN) + 4 * (H + MIN)
    {
      r, k := NULL, 0;
      if bytes == 0 || Words(bytes) > size {
        return;
      }
      var n := Request(bytes);
      var ptr;
      ptr, k := Search(n, i);
      if ptr >= size - n {
        return;
      }
      CarvedOk(View(), k, n);
      SameAddr(blocks, size + H, k, k);
      ghost var goal := Carved(View(), k, n);
      var low := ptr == lfree;
      Carve(ptr, n, k);
      if low { AdvanceLow(k); }
      assert View() == goal;
      CarvedRoom(old(View()), k, n);
      r := ptr + H;
    }

    // --- rt_realloc -----------------------------------------------------------------------------------

    // Give up the end of block k.
    method Shrink(mem: int, n: int, ghost k: int)
      requires Valid() && 0 <= k < |blocks| - 1 && blocks[k].used && mem == blocks[k].addr
      requires 0 <= n && n + H + MIN < Room(blocks, k)
      modifies this, next, prev, used
      ensures Valid() && View() == Shrunk(old(View()), k, n)
    {
      TrimmedOk(View(), k, n);
      assert HeadAt(next[..], prev[..], used[..], blocks, k);
      ghost var goal := Trimmed(View(), k, n);
      usedMem := usedMem - (next[mem] - mem - H - n);
      SplitAt(mem, n, k);
      assert View() == goal;
      PlugHoles(mem + H + n, k + 1);
    }

    // rt_memcpy between two blocks
    method Copy(from: int, to: int, len: int)
      requires 0 <= len && 0 <= from && from + len <= data.Length && 0 <= to && to + len <= data.Length
      requires from + len <= to || to + len <= from
      modifies data
      ensures Copied(old(data[..]), data[..], from, to, len)
    {
      ghost var was := data[..];
      for i := 0 to len
        invariant Copied(was, data[..], from, to, i)
      {
        CopyStep(was, data[..], from, to, i);
        data[to + i] := data[from + i];
      }
    }

    // A block of n words elsewhere, with the contents of block k; block k is freed.
    method Move(r: int, n: int, ghost k: int, ghost i: int) returns (q: int, ghost c: int)
      requires Valid() && Live(r, k) && 0 <= n <= size && LowAt(View(), i)
      modifies this, next, prev, used, data
      ensures Valid() && (old(Lowest(View())) ==> Lowest(View()))
      ensures q == NULL <==> n == 0 || Chosen(old(View()), i, Request(4 * n)) == |old(blocks)| - 1
      ensures q == NULL ==> View() == old(View()) && data[..] == old(data[..])
      ensures q != NULL ==>
        && MovedTo(old(View()), View(), c, Request(4 * n), k) && q == old(blocks)[c].addr + H
        && Copied(old(data[..]), data[..], r, q, Least(old(Room(blocks, k)), n))
    {
      ghost var h0, n' := View(), Request(4 * n);
      assert HeadAt(next[..], prev[..], used[..], blocks, k);
      var room := next[r - H] - r;
      assert Words(4 * n) == n;
      q, c := Malloc(4 * n, i);
      if q == NULL {
        return;
      }
      var len := Least(room, n);
      ghost var was := data[..];
      assert was == old(data[..]);
      assert Before(h0.bl, k);
      MovedPlaces(h0, c, n', k, len);
      ghost var k' := Shifted(h0.bl, c, n', k);
      assert Live(r, k');
      CopyAndFree(r, q, len, k');
      assert Copied(was, data[..], r, q, len);
    }

    method CopyAndFree(r: int, q: int, len: int, ghost k: int)
      requires Valid() && Live(r, k) && 0 <= len && 0 <= r && 0 <= q && r + len <= data.Length && q + len <= data.Length
      requires r + len <= q || q + len <= r
      modifies this, next, prev, used, data
      ensures Valid() && View() == Freed(old(View()), k) && (old(Lowest(View())) ==> Lowest(View()))
      ensures Copied(old(data[..]), data[..], r, q, len)
    {
      Copy(r, q, len);
      Free(r, k);
    }

    // rt_realloc.  k is the place of the block r, i that of the lowest-free pointer.
    method Realloc(r: int, bytes: nat, ghost k: int, ghost i: int) returns (q: int, ghost c: int)
      requires Valid() && (r == NULL || Live(r, k)) && LowAt(View(), i)
      modifies this, next, prev, used, data
      ensures Valid()
      ensures Words(bytes) > size ==> q == NULL && View() == old(View()) && data[..] == old(data[..])
      ensures Words(bytes) <= size && r == NULL ==>
        && data[..] == old(data[..])
        && if bytes == 0 || Chosen(old(View()), i, Request(bytes)) == |old(blocks)| - 1 then
             q == NULL && View() == old(View())
           else
             && q != NULL && c == Chosen(old(View()), i, Request(bytes)) && Fits(old(View()), c, Request(bytes))
             && View() == Carved(old(View()), c, Request(bytes)) && Live(q, c)
      ensures Words(bytes) <= size && r != NULL ==>
        var n, room := Words(bytes), old(Room(blocks, k));
        if n == room then q == r && View() == old(View()) && data[..] == old(data[..])
        else if n + H + MIN < room then q == r && View() == Shrunk(old(View()), k, n) && data[..] == old(data[..])
        else if n == 0 || Chosen(old(View()), i, Request(4 * n)) == |old(blocks)| - 1 then
          q == NULL && View() == old(View()) && data[..] == old(data[..])
        else
          && q != NULL
          && MovedTo(old(View()), View(), c, Request(4 * n), k) && q == old(blocks)[c].addr + H
          && Copied(old(data[..]), data[..], r, q, Least(room, n))
    {
      var n := Words(bytes);
      c := 0;
      if n > size {
        return NULL, c;
      }
      if r == NULL {
        q, c := Malloc(bytes, i);
        return;
      }
      assert HeadAt(next[..], prev[..], used[..], blocks, k);
      var room := next[r - H] - r;
      q := r;
      if room == n {
        return;
      }
      if n + H + MIN < room {
        Shrink(r - H, n, k);
        return;
      }
      q, c := Move(r, n, k, i);
    }
  }

  function Greater(a: int, b: int): int { if a < b then b else a }

  // The block given has the words asked for, and less than a header and a smallest block more.
  lemma CarvedRoom(h: Heap, k: int, n: int)
    requires Roomy(h, k, n)
    ensures var bl := Carved(h, k, n).bl; k < |bl| - 1 && n <= Room(bl, k) < n + H + MIN
  {
  }

  function Least(a: int, b: int): int { if a < b then a else b }

  // The first len words at r are now at q, and no word outside these has changed.
  ghost predicate Copied(was: seq<int>, now: seq<int>, r: int, q: int, len: int) {
    && |now| == |was| && 0 <= r && 0 <= q && 0 <= len && r + len <= |was| && q + len <= |was|
    && (forall x :: q <= x < q + len ==> now[x] == was[x - q + r])
    && (forall x :: 0 <= x < |was| && !(q <= x < q + len) ==> now[x] == was[x])
  }

  lemma CopyStep(was: seq<int>, now: seq<int>, r: int, q: int, i: int)
    requires Copied(was, now, r, q, i) && r + i < |was| && q + i < |was| && (r + i < q || q + i < r)
    ensures Copied(was, now[q + i := now[r + i]], r, q, i + 1)
  {
  }

  // Block c was taken for n words, and then block k freed.
  ghost predicate MovedTo(h: Heap, h': Heap, c: int, n: int, k: int) {
    && Roomy(h, c, n) && 0 <= Shifted(h.bl, c, n, k) < |Carved(h, c, n).bl| - 1
    && h' == Freed(Carved(h, c, n), Shifted(h.bl, c, n, k))
  }

  // Where block k is after block c was taken for n words.
  ghost function Shifted(bl: seq<Blk>, c: int, n: int, k: int): int
    requires 0 <= c < |bl| - 1
  {
    if k < c then k else k + |Cut(bl, c, n)| - |bl|
  }

  // The block taken and the block k are apart, and block k is still there.
  lemma MovedPlaces(h: Heap, c: int, n: int, k: int, len: int)
    requires SmallHeapSpec.Valid(h) && Roomy(h, c, n) && 0 <= k < |h.bl| - 1 && h.bl[k].used
    requires 0 <= len <= n && len <= Room(h.bl, k)
    ensures var bl, k' := Cut(h.bl, c, n), Shifted(h.bl, c, n, k);
      0 <= k' < |bl| - 1 && bl[k'] == h.bl[k] && |Carved(h, c, n).bl| == |bl|
    ensures var r, q := h.bl[k].addr + H, h.bl[c].addr + H;
      0 <= r && 0 <= q && r + len <= End(h) && q + len <= End(h) && (r + len <= q || q + len <= r)
  {
    SameAddr(h.bl, End(h), k, k);
    SameAddr(h.bl, End(h), c, c);
    OrderUp(h.bl, End(h), k + 1, |h.bl| - 1);
    OrderUp(h.bl, End(h), c + 1, |h.bl| - 1);
    if k < c { OrderUp(h.bl, End(h), k + 1, c); } else { OrderUp(h.bl, End(h), c + 1, k); }
  }

  // The size that is searched for, in words.
  function Request(bytes: nat): (n: int)
    ensures n >= MIN && n >= Words(bytes) && (n == MIN || n == Words(bytes))
  {
    if Words(bytes) < MIN then MIN else Words(bytes)
  }

  // Beyond the bound of the loop nothing is accepted.
  lemma {:induction false} NoFitBeyond(h: Heap, i: nat, n: int)
    requires SmallHeapSpec.Valid(h) && i < |h.bl| && h.bl[i].addr >= h.size - n
    ensures FirstFit(h, i, n) == |h.bl| - 1
    decreases |h.bl| - i
  {
    if i < |h.bl| - 1 {
      SameAddr(h.bl, End(h), i, i + 1);
      NoFitBeyond(h, i + 1, n);
    }
  }

  // --- at a fresh heap ---------------------------------------------------------------------------------

  // A request for exactly the words of a fresh heap is refused; one for a word less is served.
  method WholeHeapRefused(size: int) returns (whole: int, less: int)
    requires size > MIN
    ensures whole == NULL && less != NULL
  {
    var heap := new SmallHeap(size);
    ghost var h, k := heap.View(), 0;
    FitsIff(h, 0, size);
    FitsIff(h, 0, size - 1);
    whole, k := heap.Malloc(4 * size, 0);
    less, k := heap.Malloc(4 * (size - 1), 0);
  }

  // Two blocks are taken and the first is shrunk: the hint stays behind both, and the words given up lie
  // below it.
  method HoleBelowHint() returns (heap: SmallHeap)
    ensures heap.Valid() && !Lowest(heap.View())
  {
    heap := new SmallHeap(100);
    ghost var k;
    var a, b;
    assert Fits(heap.View(), 0, 20);
    a, k := heap.Malloc(80, 0);
    assert heap.blocks == [Blk(0, true), Blk(23, false), Blk(103, true)];
    assert Fits(heap.View(), 1, 10);
    b, k := heap.Malloc(40, 1);
    assert heap.blocks == [Blk(0, true), Blk(23, true), Blk(36, false), Blk(103, true)];
    ShrunkLowest(heap.View(), 0, 4);
    a, k := heap.Realloc(a, 16, 0, 2);
  }
}
