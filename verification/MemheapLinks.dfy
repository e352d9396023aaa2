// The in-memory structure of a memheap pool, at word granularity: every address and size is a
// number of 4-byte words, and memory is a sequence of words.  A block is a six-word header
// followed by its payload; the header fields are words of the same memory as the payloads.

module MemheapLinks {

  const HEADER := 6            // RT_MEMHEAP_SIZE, 24 bytes
  const MINIALLOC := 3         // RT_MEMHEAP_MINIALLOC, 12 bytes

  const MAGIC := 0
  const POOL := 1
  const NEXT := 2
  const PREV := 3
  const NEXT_FREE := 4
  const PREV_FREE := 5

  const FREED_MAGIC := 0x1ea01ea0
  const USED_MAGIC := 0x1ea01ea1

  const NULL := 0
  const FREE_LIST := 1         // address of the free-list header, which lies outside the pool
  const THIS_HEAP := 7         // the rt_memheap the headers point back to
  const START := 8             // address of the pool

  datatype Block = Block(addr: int, size: int, used: bool)

  // --- blocks ----------------------------------------------------------------------------------

  // The blocks tile the pool in address order and end with the empty used tailer.
  ghost predicate Tiled(bl: seq<Block>, end: int) {
    && |bl| >= 2 && bl[0].addr == START
    && (forall i :: 0 <= i < |bl| - 1 ==> Behind(bl, i))
    && bl[|bl| - 1] == Block(end - HEADER, 0, true)
  }

  ghost predicate Behind(bl: seq<Block>, i: int)
    requires 0 <= i < |bl| - 1
  {
    bl[i].size >= 0 && bl[i + 1].addr == bl[i].addr + HEADER + bl[i].size
  }

  lemma {:induction false} Order(bl: seq<Block>, end: int, i: int, j: int)
    requires Tiled(bl, end) && 0 <= i < j < |bl|
    ensures START <= bl[i].addr && bl[i].size >= 0 && bl[j].size >= 0
    ensures bl[i].addr + HEADER + bl[i].size <= bl[j].addr <= end - HEADER
    decreases |bl| - i, j
  {
    assert Behind(bl, i);
    if i > 0 { OrderFrom(bl, end, i); }
    OrderUpTo(bl, end, i + 1, j);
    OrderUpTo(bl, end, j, |bl| - 1);
    if j < |bl| - 1 { assert Behind(bl, j); }
  }

  lemma {:induction false} OrderUpTo(bl: seq<Block>, end: int, i: int, j: int)
    requires Tiled(bl, end) && 0 <= i <= j < |bl|
    ensures bl[i].addr <= bl[j].addr
    decreases j - i
  {
    if i < j {
      assert Behind(bl, i);
      OrderUpTo(bl, end, i + 1, j);
    }
  }

  lemma OrderFrom(bl: seq<Block>, end: int, i: int)
    requires Tiled(bl, end) && 0 <= i < |bl|
    ensures START <= bl[i].addr <= end - HEADER && bl[i].size >= 0
  {
    OrderUpTo(bl, end, 0, i);
    OrderUpTo(bl, end, i, |bl| - 1);
    if i < |bl| - 1 { assert Behind(bl, i); }
  }

  // No two neighbours are both free.
  ghost predicate Coalesced(bl: seq<Block>) {
    forall i {:trigger bl[i]} :: 0 <= i < |bl| - 1 ==> bl[i].used || bl[i + 1].used
  }

  function NextAddr(bl: seq<Block>, i: int): int
    requires 0 <= i < |bl|
  {
    if i + 1 < |bl| then bl[i + 1].addr else bl[0].addr
  }

  function PrevAddr(bl: seq<Block>, i: int): int
    requires 0 <= i < |bl|
  {
    if i > 0 then bl[i - 1].addr else bl[|bl| - 1].addr
  }

  function FreeSum(bl: seq<Block>): int {
    if bl == [] then 0 else (if bl[0].used then 0 else bl[0].size) + FreeSum(bl[1..])
  }

  lemma {:induction false} FreeSumAppend(a: seq<Block>, b: seq<Block>)
    ensures FreeSum(a + b) == FreeSum(a) + FreeSum(b)
  {
    if a == [] {
      assert a + b == b;
    } else {
      assert (a + b)[0] == a[0] && (a + b)[1..] == a[1..] + b;
      FreeSumAppend(a[1..], b);
    }
  }

  // Replace the blocks i..j by mid.
  function Splice(bl: seq<Block>, i: int, j: int, mid: seq<Block>): seq<Block>
    requires 0 <= i <= j <= |bl|
  {
    bl[..i] + mid + bl[j..]
  }

  lemma FreeSumSplice(bl: seq<Block>, i: int, j: int, mid: seq<Block>)
    requires 0 <= i <= j <= |bl|
    ensures FreeSum(Splice(bl, i, j, mid)) == FreeSum(bl) - FreeSum(bl[i..j]) + FreeSum(mid)
  {
    FreeSumAppend(bl[..i], mid);
    FreeSumAppend(bl[..i] + mid, bl[j..]);
    FreeSumAppend(bl[..i], bl[i..j]);
    FreeSumAppend(bl[..i] + bl[i..j], bl[j..]);
    assert bl == bl[..i] + bl[i..j] + bl[j..];
  }

  // --- the three changes of the block list -------------------------------------------------------

  function Marked(bl: seq<Block>, k: int, used: bool): seq<Block>
    requires 0 <= k < |bl|
  {
    bl[k := bl[k].(used := used)]
  }

  function Head(b: Block, size: int): Block { b.(size := size) }
  function Rest(b: Block, size: int): Block { Block(b.addr + HEADER + size, b.size - size - HEADER, false) }
  function Join(b: Block, c: Block): Block { b.(size := b.size + HEADER + c.size) }

  // Block k keeps its first size words; the rest becomes a free block.
  function Split(bl: seq<Block>, k: int, size: int): (r: seq<Block>)
    requires 0 <= k < |bl|
    ensures |r| == |bl| + 1
    ensures r[k] == Head(bl[k], size) && r[k + 1] == Rest(bl[k], size)
    ensures forall i {:trigger r[i]} :: 0 <= i < k ==> r[i] == bl[i]
    ensures forall i {:trigger r[i]} :: k + 1 < i < |r| ==> r[i] == bl[i - 1]
  {
    Splice(bl, k, k + 1, [Head(bl[k], size), Rest(bl[k], size)])
  }

  // Block k absorbs its right neighbour.
  function Merged(bl: seq<Block>, k: int): (r: seq<Block>)
    requires 0 <= k < |bl| - 1
    ensures |r| == |bl| - 1
    ensures r[k] == Join(bl[k], bl[k + 1])
    ensures forall i {:trigger r[i]} :: 0 <= i < k ==> r[i] == bl[i]
    ensures forall i {:trigger r[i]} :: k < i < |r| ==> r[i] == bl[i + 1]
  {
    Splice(bl, k, k + 2, [Join(bl[k], bl[k + 1])])
  }

  function Share(b: Block): int { if b.used then 0 else b.size }

  lemma FreeSum1(b: Block)
    ensures FreeSum([b]) == Share(b)
  {
    assert [b][1..] == [];
  }

  lemma FreeSum2(b: Block, c: Block)
    ensures FreeSum([b, c]) == Share(b) + Share(c)
  {
    assert [b, c][1..] == [c];
    FreeSum1(c);
  }

  lemma SliceSum(bl: seq<Block>, k: int)
    requires 0 <= k < |bl|
    ensures FreeSum(bl[k..k + 1]) == Share(bl[k])
  {
    assert bl[k..k + 1] == [bl[k]];
    FreeSum1(bl[k]);
  }

  lemma SliceSum2(bl: seq<Block>, k: int)
    requires 0 <= k < |bl| - 1
    ensures FreeSum(bl[k..k + 2]) == Share(bl[k]) + Share(bl[k + 1])
  {
    assert bl[k..k + 2] == [bl[k], bl[k + 1]];
    FreeSum2(bl[k], bl[k + 1]);
  }

  lemma SplitFreeSum(bl: seq<Block>, k: int, size: int)
    requires 0 <= k < |bl|
    ensures FreeSum(Split(bl, k, size)) ==
            FreeSum(bl) - Share(bl[k]) + Share(Head(bl[k], size)) + Share(Rest(bl[k], size))
  {
    FreeSumSplice(bl, k, k + 1, [Head(bl[k], size), Rest(bl[k], size)]);
    FreeSum2(Head(bl[k], size), Rest(bl[k], size));
    SliceSum(bl, k);
  }

  lemma MergedFreeSum(bl: seq<Block>, k: int)
    requires 0 <= k < |bl| - 1
    ensures FreeSum(Merged(bl, k)) == FreeSum(bl) - Share(bl[k]) - Share(bl[k + 1]) + Share(Join(bl[k], bl[k + 1]))
  {
    FreeSumSplice(bl, k, k + 2, [Join(bl[k], bl[k + 1])]);
    SliceSum2(bl, k);
    FreeSum1(Join(bl[k], bl[k + 1]));
  }

  lemma MarkedFreeSum(bl: seq<Block>, k: int, used: bool)
    requires 0 <= k < |bl|
    ensures FreeSum(Marked(bl, k, used)) == FreeSum(bl) - Share(bl[k]) + Share(bl[k].(used := used))
  {
    var b := bl[k].(used := used);
    FreeSumSplice(bl, k, k + 1, [b]);
    assert Marked(bl, k, used) == Splice(bl, k, k + 1, [b]);
    SliceSum(bl, k);
    FreeSum1(b);
  }

  lemma SplitTiled(bl: seq<Block>, end: int, k: int, size: int)
    requires Tiled(bl, end) && 0 <= k < |bl| - 1 && 0 <= size && size + HEADER <= bl[k].size
    ensures Tiled(Split(bl, k, size), end)
  {
    var bl' := Split(bl, k, size);
    forall i | 0 <= i < |bl'| - 1 ensures Behind(bl', i) {
      if i < k {
        assert Behind(bl, i);
      } else if i > k {
        assert Behind(bl, i - 1);
      }
    }
  }

  lemma MergedTiled(bl: seq<Block>, end: int, k: int)
    requires Tiled(bl, end) && 0 <= k < |bl| - 2
    ensures Tiled(Merged(bl, k), end)
  {
    var bl' := Merged(bl, k);
    forall i | 0 <= i < |bl'| - 1 ensures Behind(bl', i) {
      assert i <= k ==> Behind(bl, i);
      assert i >= k ==> Behind(bl, i + 1);
    }
  }

  lemma MarkedTiled(bl: seq<Block>, end: int, k: int, used: bool)
    requires Tiled(bl, end) && 0 <= k < |bl| - 1
    ensures Tiled(Marked(bl, k, used), end)
  {
    var bl' := Marked(bl, k, used);
    forall i | 0 <= i < |bl'| - 1 ensures Behind(bl', i) { assert Behind(bl, i); }
  }

  // --- headers -----------------------------------------------------------------------------------

  // a is the address of a header with these fields.
  ghost predicate Header(m: seq<int>, a: int, used: bool, next: int, prev: int) {
    && 0 <= a && a + HEADER <= |m|
    && m[a + MAGIC] == (if used then USED_MAGIC else FREED_MAGIC)
    && m[a + POOL] == THIS_HEAP
    && m[a + NEXT] == next
    && m[a + PREV] == prev
  }

  ghost predicate HeaderOk(m: seq<int>, bl: seq<Block>, i: int)
    requires 0 <= i < |bl|
  {
    Header(m, bl[i].addr, bl[i].used, NextAddr(bl, i), PrevAddr(bl, i))
  }

  ghost predicate Linked(m: seq<int>, bl: seq<Block>) {
    && Tiled(bl, |m|)
    && forall i :: 0 <= i < |bl| ==> HeaderOk(m, bl, i)
  }

  predicate InRange(m: seq<int>, p: int) { 0 <= p && p + HEADER <= |m| }

  // Put header q behind header p, as a freed block.
  function LinkAfter(m: seq<int>, p: int, q: int): (m': seq<int>)
    requires InRange(m, p) && InRange(m, q) && InRange(m, m[p + NEXT])
    ensures |m'| == |m|
  {
    var next := m[p + NEXT];
    m[q + MAGIC := FREED_MAGIC][q + POOL := THIS_HEAP][q + PREV := p][q + NEXT := next][next + PREV := q][p + NEXT := q]
  }

  // Take header q out from behind header p.
  function Unlink(m: seq<int>, p: int, q: int): (m': seq<int>)
    requires InRange(m, p) && InRange(m, q) && InRange(m, m[q + NEXT])
    ensures |m'| == |m|
  {
    var next := m[q + NEXT];
    m[next + PREV := p][p + NEXT := next]
  }

  predicate Apart(p: int, q: int) { p + HEADER <= q || q + HEADER <= p }

  // Effect of LinkAfter on any header x, where p, q and the successor of p are apart.
  lemma LinkAfterHeader(m: seq<int>, p: int, q: int, x: int, used: bool, next: int, prev: int)
    requires InRange(m, p) && InRange(m, q) && InRange(m, m[p + NEXT])
    requires Apart(p, q) && Apart(p, m[p + NEXT]) && Apart(q, m[p + NEXT])
    requires x == q || (Header(m, x, used, next, prev) && Apart(x, q) && (x == p || Apart(x, p)) &&
                        (x == m[p + NEXT] || Apart(x, m[p + NEXT])))
    ensures x == q ==> Header(LinkAfter(m, p, q), q, false, m[p + NEXT], p)
    ensures x != q ==>
      Header(LinkAfter(m, p, q), x, used, if x == p then q else next, if x == m[p + NEXT] then q else prev)
  {
  }

  lemma UnlinkHeader(m: seq<int>, p: int, q: int, x: int, used: bool, next: int, prev: int)
    requires InRange(m, p) && InRange(m, q) && InRange(m, m[q + NEXT])
    requires Header(m, x, used, next, prev) && (x == p || Apart(x, p)) && (x == m[q + NEXT] || Apart(x, m[q + NEXT]))
    ensures Header(Unlink(m, p, q), x, used, if x == p then m[q + NEXT] else next, if x == m[q + NEXT] then p else prev)
  {
  }

  lemma LinkAfterSplits(m: seq<int>, bl: seq<Block>, k: int, size: int)
    requires Linked(m, bl) && 0 <= k < |bl| - 1 && 0 <= size && size + HEADER <= bl[k].size
    ensures InRange(m, bl[k].addr) && InRange(m, bl[k].addr + HEADER + size)
    ensures m[bl[k].addr + NEXT] == bl[k + 1].addr && InRange(m, bl[k + 1].addr)
    ensures Linked(LinkAfter(m, bl[k].addr, bl[k].addr + HEADER + size), Split(bl, k, size))
  {
    assert HeaderOk(m, bl, k) && HeaderOk(m, bl, k + 1);
    Order(bl, |m|, k, k + 1);
    var p, q := bl[k].addr, bl[k].addr + HEADER + size;
    SplitTiled(bl, |m|, k, size);
    var bl' := Split(bl, k, size);
    forall i | 0 <= i < |bl'| ensures HeaderOk(LinkAfter(m, p, q), bl', i) {
      SplitHeader(m, bl, k, size, i);
    }
  }

  lemma SplitHeader(m: seq<int>, bl: seq<Block>, k: int, size: int, i: int)
    requires Linked(m, bl) && 0 <= k < |bl| - 1 && 0 <= size && size + HEADER <= bl[k].size && 0 <= i < |bl| + 1
    requires InRange(m, bl[k].addr) && InRange(m, bl[k].addr + HEADER + size)
    requires m[bl[k].addr + NEXT] == bl[k + 1].addr && InRange(m, bl[k + 1].addr)
    ensures HeaderOk(LinkAfter(m, bl[k].addr, bl[k].addr + HEADER + size), Split(bl, k, size), i)
  {
    var p, q := bl[k].addr, bl[k].addr + HEADER + size;
    Order(bl, |m|, k, k + 1);
    if i == k + 1 {
      LinkAfterHeader(m, p, q, q, false, 0, 0);
    } else {
      var j := if i <= k then i else i - 1;
      assert HeaderOk(m, bl, j);
      if j < k { Order(bl, |m|, j, k); }
      if j > k + 1 { Order(bl, |m|, k + 1, j); }
      LinkAfterHeader(m, p, q, bl[j].addr, bl[j].used, NextAddr(bl, j), PrevAddr(bl, j));
      SplitNeighbours(bl, |m|, k, size, i, j);
    }
  }

  // The neighbours of a block that was there before the split.
  lemma SplitNeighbours(bl: seq<Block>, end: int, k: int, size: int, i: int, j: int)
    requires Tiled(bl, end) && 0 <= k < |bl| - 1 && 0 <= i <= |bl| && i != k + 1 && j == if i <= k then i else i - 1
    ensures Split(bl, k, size)[i].addr == bl[j].addr && Split(bl, k, size)[i].used == bl[j].used
    ensures NextAddr(Split(bl, k, size), i) == if j == k then bl[k].addr + HEADER + size else NextAddr(bl, j)
    ensures PrevAddr(Split(bl, k, size), i) == if j == k + 1 then bl[k].addr + HEADER + size else PrevAddr(bl, j)
  {
  }

  lemma UnlinkMerges(m: seq<int>, bl: seq<Block>, k: int)
    requires Linked(m, bl) && 0 <= k < |bl| - 2
    ensures InRange(m, bl[k].addr) && InRange(m, bl[k + 1].addr) && m[bl[k + 1].addr + NEXT] == bl[k + 2].addr
    ensures InRange(m, bl[k + 2].addr)
    ensures Linked(Unlink(m, bl[k].addr, bl[k + 1].addr), Merged(bl, k))
  {
    assert HeaderOk(m, bl, k) && HeaderOk(m, bl, k + 1) && HeaderOk(m, bl, k + 2);
    MergedTiled(bl, |m|, k);
    var bl' := Merged(bl, k);
    var m' := Unlink(m, bl[k].addr, bl[k + 1].addr);
    forall i | 0 <= i < |bl'| ensures HeaderOk(m', bl', i) {
      MergedHeader(m, bl, k, i);
    }
  }

  lemma MergedHeader(m: seq<int>, bl: seq<Block>, k: int, i: int)
    requires Linked(m, bl) && 0 <= k < |bl| - 2 && 0 <= i < |bl| - 1
    requires InRange(m, bl[k].addr) && InRange(m, bl[k + 1].addr) && m[bl[k + 1].addr + NEXT] == bl[k + 2].addr
    requires InRange(m, bl[k + 2].addr)
    ensures HeaderOk(Unlink(m, bl[k].addr, bl[k + 1].addr), Merged(bl, k), i)
  {
    var j := if i <= k then i else i + 1;
    assert HeaderOk(m, bl, j);
    Order(bl, |m|, k, k + 2);
    if j < k { Order(bl, |m|, j, k); }
    if j > k + 2 { Order(bl, |m|, k + 2, j); }
    UnlinkHeader(m, bl[k].addr, bl[k + 1].addr, bl[j].addr, bl[j].used, NextAddr(bl, j), PrevAddr(bl, j));
  }

  lemma MarkLinked(m: seq<int>, bl: seq<Block>, k: int, used: bool)
    requires Linked(m, bl) && 0 <= k < |bl| - 1
    ensures InRange(m, bl[k].addr)
    ensures Linked(m[bl[k].addr + MAGIC := if used then USED_MAGIC else FREED_MAGIC], Marked(bl, k, used))
  {
    assert HeaderOk(m, bl, k);
    MarkedTiled(bl, |m|, k, used);
    var bl' := Marked(bl, k, used);
    var m' := m[bl[k].addr + MAGIC := if used then USED_MAGIC else FREED_MAGIC];
    forall i | 0 <= i < |bl'| ensures HeaderOk(m', bl', i) {
      assert HeaderOk(m, bl, i);
      if i < k { Order(bl, |m|, i, k); }
      if i > k { Order(bl, |m|, k, i); }
    }
  }

  // --- the free list -------------------------------------------------------------------------------

  function FreeNode(fl: seq<int>, i: int): int
    requires 0 <= i <= |fl|
  {
    if i == 0 then FREE_LIST else fl[i - 1]
  }

  // Node i of the ring that starts at the free-list header.
  ghost predicate FreeNodeOk(m: seq<int>, fl: seq<int>, i: int)
    requires 0 <= i <= |fl|
  {
    var x := FreeNode(fl, i);
    && InRange(m, x)
    && m[x + NEXT_FREE] == FreeNode(fl, if i == |fl| then 0 else i + 1)
    && m[x + PREV_FREE] == FreeNode(fl, if i == 0 then |fl| else i - 1)
  }

  ghost predicate FreeRing(m: seq<int>, fl: seq<int>) {
    forall i :: 0 <= i <= |fl| ==> FreeNodeOk(m, fl, i)
  }

  ghost predicate NodesApart(fl: seq<int>) {
    forall i, j :: 0 <= i < j <= |fl| ==> Apart(FreeNode(fl, i), FreeNode(fl, j))
  }

  // Insert n at the front of the free list.
  function PushFree(m: seq<int>, n: int): (m': seq<int>)
    requires InRange(m, n) && InRange(m, FREE_LIST) && InRange(m, m[FREE_LIST + NEXT_FREE])
    ensures |m'| == |m|
  {
    var first := m[FREE_LIST + NEXT_FREE];
    m[n + NEXT_FREE := first][n + PREV_FREE := FREE_LIST][first + PREV_FREE := n][FREE_LIST + NEXT_FREE := n]
  }

  // Take x out of the free list.
  function DropFree(m: seq<int>, x: int): (m': seq<int>)
    requires InRange(m, x) && InRange(m, m[x + NEXT_FREE]) && InRange(m, m[x + PREV_FREE])
    ensures |m'| == |m|
  {
    var next, prev := m[x + NEXT_FREE], m[x + PREV_FREE];
    m[next + PREV_FREE := prev][prev + NEXT_FREE := next]
  }

  lemma PushFreeRing(m: seq<int>, fl: seq<int>, n: int)
    requires FreeRing(m, fl) && InRange(m, n) && NodesApart(fl)
    requires forall i :: 0 <= i <= |fl| ==> Apart(n, FreeNode(fl, i))
    ensures InRange(m, FREE_LIST) && InRange(m, m[FREE_LIST + NEXT_FREE])
    ensures FreeRing(PushFree(m, n), [n] + fl)
  {
    assert FreeNodeOk(m, fl, 0);
    if |fl| > 0 { assert FreeNodeOk(m, fl, 1); }
    var fl' := [n] + fl;
    var m' := PushFree(m, n);
    forall i | 0 <= i <= |fl'| ensures FreeNodeOk(m', fl', i) { PushFreeNode(m, fl, n, i); }
  }

  // Effect of PushFree on the list fields of any node x that is the header, the first node or apart.
  lemma PushFields(m: seq<int>, n: int, x: int)
    requires InRange(m, n) && InRange(m, FREE_LIST) && InRange(m, m[FREE_LIST + NEXT_FREE]) && InRange(m, x)
    requires Apart(n, FREE_LIST) && Apart(n, m[FREE_LIST + NEXT_FREE])
    requires m[FREE_LIST + NEXT_FREE] == FREE_LIST || Apart(FREE_LIST, m[FREE_LIST + NEXT_FREE])
    requires x == n || (Apart(n, x) && (x == FREE_LIST || Apart(FREE_LIST, x)) &&
                        (x == m[FREE_LIST + NEXT_FREE] || Apart(m[FREE_LIST + NEXT_FREE], x)))
    ensures PushFree(m, n)[x + NEXT_FREE] ==
      if x == n then m[FREE_LIST + NEXT_FREE] else if x == FREE_LIST then n else m[x + NEXT_FREE]
    ensures PushFree(m, n)[x + PREV_FREE] ==
      if x == n then FREE_LIST else if x == m[FREE_LIST + NEXT_FREE] then n else m[x + PREV_FREE]
  {
  }

  lemma PushFreeNode(m: seq<int>, fl: seq<int>, n: int, i: int)
    requires FreeRing(m, fl) && InRange(m, n) && NodesApart(fl) && 0 <= i <= |fl| + 1
    requires forall i :: 0 <= i <= |fl| ==> Apart(n, FreeNode(fl, i))
    requires InRange(m, FREE_LIST) && InRange(m, m[FREE_LIST + NEXT_FREE])
    ensures FreeNodeOk(PushFree(m, n), [n] + fl, i)
  {
    var fl' := [n] + fl;
    var first := if |fl| > 0 then 1 else 0;
    assert FreeNodeOk(m, fl, 0) && FreeNodeOk(m, fl, first);
    assert Apart(n, FreeNode(fl, 0)) && Apart(n, FreeNode(fl, first));
    assert first == 1 ==> Apart(FreeNode(fl, 0), FreeNode(fl, 1));
    if i == 1 {
      PushFields(m, n, n);
      assert |fl| > 0 ==> FreeNode(fl', 2) == FreeNode(fl, 1);
    } else {
      var o := if i == 0 then 0 else i - 1;
      assert FreeNodeOk(m, fl, o) && Apart(n, FreeNode(fl, o));
      assert FreeNode(fl', i) == FreeNode(fl, o);
      assert o > 0 ==> Apart(FreeNode(fl, 0), FreeNode(fl, o));
      assert o > 1 ==> Apart(FreeNode(fl, 1), FreeNode(fl, o));
      PushFields(m, n, FreeNode(fl, o));
    }
  }

  lemma DropFreeRing(m: seq<int>, fl: seq<int>, k: int)
    requires FreeRing(m, fl) && NodesApart(fl) && 0 <= k < |fl|
    ensures InRange(m, fl[k]) && InRange(m, m[fl[k] + NEXT_FREE]) && InRange(m, m[fl[k] + PREV_FREE])
    ensures FreeRing(DropFree(m, fl[k]), fl[..k] + fl[k + 1..])
  {
    assert FreeNodeOk(m, fl, k + 1) && FreeNodeOk(m, fl, k);
    assert FreeNodeOk(m, fl, if k + 1 == |fl| then 0 else k + 2);
    var fl' := fl[..k] + fl[k + 1..];
    var m' := DropFree(m, fl[k]);
    forall i | 0 <= i <= |fl'| ensures FreeNodeOk(m', fl', i) { DropFreeNode(m, fl, k, i); }
  }

  lemma DropFreeNode(m: seq<int>, fl: seq<int>, k: int, i: int)
    requires FreeRing(m, fl) && NodesApart(fl) && 0 <= k < |fl| && 0 <= i < |fl|
    requires InRange(m, fl[k]) && InRange(m, m[fl[k] + NEXT_FREE]) && InRange(m, m[fl[k] + PREV_FREE])
    ensures FreeNodeOk(DropFree(m, fl[k]), fl[..k] + fl[k + 1..], i)
  {
    var fl' := fl[..k] + fl[k + 1..];
    var j := if i <= k then i else i + 1;
    var next := if k + 1 == |fl| then 0 else k + 2;
    assert FreeNodeOk(m, fl, k + 1) && FreeNodeOk(m, fl, j);
    assert FreeNode(fl', i) == FreeNode(fl, j);
    assert j != k ==> Apart(FreeNode(fl, k), FreeNode(fl, j)) by {
      if j < k { assert Apart(FreeNode(fl, j), FreeNode(fl, k)); }
      if k < j { assert Apart(FreeNode(fl, k), FreeNode(fl, j)); }
    }
    assert j != next ==> Apart(FreeNode(fl, next), FreeNode(fl, j)) by {
      if j < next { assert Apart(FreeNode(fl, j), FreeNode(fl, next)); }
      if next < j { assert Apart(FreeNode(fl, next), FreeNode(fl, j)); }
    }
  }
}
