// The whole state of a memheap: memory, block list and free list together, and what each
// elementary change of them keeps.

module MemheapState {
  import opened MemheapLinks

  ghost predicate IsFree(bl: seq<Block>, x: int) {
    exists k :: 0 <= k < |bl| && bl[k].addr == x && !bl[k].used
  }

  ghost predicate NoDup(fl: seq<int>) { forall i, j :: 0 <= i < j < |fl| ==> fl[i] != fl[j] }

  // The free list holds exactly the free blocks, except those in out.
  ghost predicate Holds(bl: seq<Block>, fl: seq<int>, out: set<int>) {
    && NoDup(fl)
    && (forall x :: x in fl <==> IsFree(bl, x) && x !in out)
  }

  ghost predicate State(m: seq<int>, bl: seq<Block>, fl: seq<int>, out: set<int>) {
    Linked(m, bl) && FreeRing(m, fl) && Holds(bl, fl, out)
  }

  lemma BlockAt(m: seq<int>, bl: seq<Block>, x: int) returns (k: int)
    requires Tiled(bl, |m|) && IsFree(bl, x)
    ensures 0 <= k < |bl| - 1 && bl[k].addr == x && !bl[k].used
  {
    k :| 0 <= k < |bl| && bl[k].addr == x && !bl[k].used;
  }

  lemma BlocksApart(m: seq<int>, bl: seq<Block>, i: int, j: int)
    requires Tiled(bl, |m|) && 0 <= i < |bl| && 0 <= j < |bl|
    ensures InRange(m, bl[i].addr) && bl[i].addr >= START
    ensures i == j || Apart(bl[i].addr, bl[j].addr)
    ensures i != j ==> bl[i].addr != bl[j].addr
  {
    OrderFrom(bl, |m|, i);
    if i < j { Order(bl, |m|, i, j); }
    if j < i { Order(bl, |m|, j, i); }
  }

  // Every free-list node is the list header or a block.
  lemma NodeApart(m: seq<int>, bl: seq<Block>, fl: seq<int>, out: set<int>, i: int, k: int)
    requires Tiled(bl, |m|) && Holds(bl, fl, out) && 0 <= i <= |fl| && 0 <= k < |bl|
    ensures FreeNode(fl, i) == bl[k].addr || Apart(FreeNode(fl, i), bl[k].addr)
    ensures FreeNode(fl, i) == bl[k].addr ==> !bl[k].used && bl[k].addr !in out
  {
    BlocksApart(m, bl, k, k);
    if i > 0 {
      assert fl[i - 1] in fl;
      var j := BlockAt(m, bl, fl[i - 1]);
      BlocksApart(m, bl, j, k);
    }
  }

  lemma AllNodesApart(m: seq<int>, bl: seq<Block>, fl: seq<int>, out: set<int>)
    requires Tiled(bl, |m|) && Holds(bl, fl, out)
    ensures NodesApart(fl)
  {
    forall i, j | 0 <= i < j <= |fl| ensures Apart(FreeNode(fl, i), FreeNode(fl, j)) {
      assert fl[j - 1] in fl;
      var k := BlockAt(m, bl, fl[j - 1]);
      BlocksApart(m, bl, k, k);
      if i > 0 { assert fl[i - 1] != fl[j - 1]; }
      NodeApart(m, bl, fl, out, i, k);
    }
  }

  // --- framing -------------------------------------------------------------------------------------

  ghost predicate SameFreeWords(m: seq<int>, m': seq<int>, x: int) {
    InRange(m, x) && |m'| == |m| ==> m'[x + NEXT_FREE] == m[x + NEXT_FREE] && m'[x + PREV_FREE] == m[x + PREV_FREE]
  }

  lemma FreeRingFrame(m: seq<int>, m': seq<int>, fl: seq<int>)
    requires FreeRing(m, fl) && |m'| == |m|
    requires forall i :: 0 <= i <= |fl| ==> SameFreeWords(m, m', FreeNode(fl, i))
    ensures FreeRing(m', fl)
  {
    forall i | 0 <= i <= |fl| ensures FreeNodeOk(m', fl, i) {
      assert FreeNodeOk(m, fl, i);
      assert SameFreeWords(m, m', FreeNode(fl, i));
    }
  }

  ghost predicate SameLinkWords(m: seq<int>, m': seq<int>, a: int) {
    InRange(m, a) && |m'| == |m| ==>
      m'[a + MAGIC] == m[a + MAGIC] && m'[a + POOL] == m[a + POOL] &&
      m'[a + NEXT] == m[a + NEXT] && m'[a + PREV] == m[a + PREV]
  }

  lemma LinkedFrame(m: seq<int>, m': seq<int>, bl: seq<Block>)
    requires Linked(m, bl) && |m'| == |m|
    requires forall i :: 0 <= i < |bl| ==> SameLinkWords(m, m', bl[i].addr)
    ensures Linked(m', bl)
  {
    forall i | 0 <= i < |bl| ensures HeaderOk(m', bl, i) {
      assert HeaderOk(m, bl, i);
      assert SameLinkWords(m, m', bl[i].addr);
    }
  }

  // --- what the user sees: allocated blocks and their contents ----------------------------------------

  predicate InPayload(b: Block, w: int) { b.addr + HEADER <= w < b.addr + HEADER + b.size }

  // Except for the blocks at ex, the allocated blocks and their contents are the same.
  ghost predicate Kept(m: seq<int>, bl: seq<Block>, m': seq<int>, bl': seq<Block>, ex: set<int>) {
    && |m'| == |m|
    && (forall b: Block :: b.used && b.addr !in ex ==> (b in bl <==> b in bl'))
    && (forall b, w :: b in bl && b.used && b.addr !in ex && InPayload(b, w) && 0 <= w < |m| ==> m'[w] == m[w])
  }

  lemma KeptTrans(m: seq<int>, bl: seq<Block>, m1: seq<int>, bl1: seq<Block>, m2: seq<int>, bl2: seq<Block>,
                  ex: set<int>)
    requires Kept(m, bl, m1, bl1, ex) && Kept(m1, bl1, m2, bl2, ex)
    ensures Kept(m, bl, m2, bl2, ex)
  {
  }

  // m and m' agree on the n words of the payload at p.
  ghost predicate SamePrefix(m: seq<int>, m': seq<int>, p: int, n: int) {
    |m'| == |m| && forall w :: p + HEADER <= w < p + HEADER + n && 0 <= w < |m| ==> m'[w] == m[w]
  }

  // A word of a payload lies in no header.
  lemma PayloadApart(m: seq<int>, bl: seq<Block>, j: int, i: int, w: int)
    requires Tiled(bl, |m|) && 0 <= i < |bl| && 0 <= j < |bl| && InPayload(bl[j], w)
    ensures w < bl[i].addr || bl[i].addr + HEADER <= w
    ensures w >= START + HEADER
  {
    OrderFrom(bl, |m|, j);
    if i < j { Order(bl, |m|, i, j); }
    if j < i { Order(bl, |m|, j, i); }
  }

  lemma WordOutsideList(m: seq<int>, bl: seq<Block>, fl: seq<int>, out: set<int>, i: int, j: int, w: int)
    requires Tiled(bl, |m|) && Holds(bl, fl, out) && 0 <= i <= |fl| && 0 <= j < |bl| && InPayload(bl[j], w)
    ensures w < FreeNode(fl, i) || FreeNode(fl, i) + HEADER <= w
  {
    PayloadApart(m, bl, j, j, w);
    if i > 0 {
      assert fl[i - 1] in fl;
      var k := BlockAt(m, bl, fl[i - 1]);
      PayloadApart(m, bl, j, k, w);
    }
  }

  // --- pushing and dropping --------------------------------------------------------------------------

  lemma PushState(m: seq<int>, bl: seq<Block>, fl: seq<int>, out: set<int>, k: int, ex: set<int>)
    requires State(m, bl, fl, out) && 0 <= k < |bl| && !bl[k].used && bl[k].addr in out
    ensures InRange(m, bl[k].addr) && InRange(m, FREE_LIST) && InRange(m, m[FREE_LIST + NEXT_FREE])
    ensures var m' := PushFree(m, bl[k].addr);
            && State(m', bl, [bl[k].addr] + fl, out - {bl[k].addr})
            && Kept(m, bl, m', bl, ex)
  {
    var n := bl[k].addr;
    BlocksApart(m, bl, k, k);
    AllNodesApart(m, bl, fl, out);
    forall i | 0 <= i <= |fl| ensures Apart(n, FreeNode(fl, i)) { NodeApart(m, bl, fl, out, i, k); }
    PushFreeRing(m, fl, n);
    var m' := PushFree(m, n);
    assert FreeNodeOk(m, fl, 0);
    var first := if |fl| > 0 then 1 else 0;
    assert m[FREE_LIST + NEXT_FREE] == FreeNode(fl, first);
    forall i | 0 <= i < |bl| ensures SameLinkWords(m, m', bl[i].addr) {
      BlocksApart(m, bl, i, k);
      NodeApart(m, bl, fl, out, 0, i);
      NodeApart(m, bl, fl, out, first, i);
    }
    LinkedFrame(m, m', bl);
    forall j, w | 0 <= j < |bl| && InPayload(bl[j], w) && 0 <= w < |m| ensures m'[w] == m[w] {
      PayloadApart(m, bl, j, k, w);
      WordOutsideList(m, bl, fl, out, first, j, w);
    }
    PushHolds(bl, fl, out, k);
  }

  lemma PushHolds(bl: seq<Block>, fl: seq<int>, out: set<int>, k: int)
    requires Holds(bl, fl, out) && 0 <= k < |bl| && !bl[k].used && bl[k].addr in out
    ensures Holds(bl, [bl[k].addr] + fl, out - {bl[k].addr})
  {
    var n := bl[k].addr;
    assert IsFree(bl, n) && n !in fl;
    var fl' := [n] + fl;
    forall x ensures x in fl' <==> IsFree(bl, x) && x !in out - {n} {
      assert x in fl' <==> x == n || x in fl;
    }
  }

  lemma DropState(m: seq<int>, bl: seq<Block>, fl: seq<int>, out: set<int>, i: int, ex: set<int>)
    requires State(m, bl, fl, out) && 0 <= i < |fl|
    ensures InRange(m, fl[i]) && InRange(m, m[fl[i] + NEXT_FREE]) && InRange(m, m[fl[i] + PREV_FREE])
    ensures var m' := DropFree(m, fl[i]);
            && State(m', bl, fl[..i] + fl[i + 1..], out + {fl[i]})
            && Kept(m, bl, m', bl, ex)
  {
    AllNodesApart(m, bl, fl, out);
    DropFreeRing(m, fl, i);
    var m' := DropFree(m, fl[i]);
    assert FreeNodeOk(m, fl, i + 1);
    var next := if i + 1 == |fl| then 0 else i + 2;
    forall j | 0 <= j < |bl| ensures SameLinkWords(m, m', bl[j].addr) {
      NodeApart(m, bl, fl, out, i, j);
      NodeApart(m, bl, fl, out, next, j);
    }
    LinkedFrame(m, m', bl);
    forall j, w | 0 <= j < |bl| && InPayload(bl[j], w) && 0 <= w < |m| ensures m'[w] == m[w] {
      WordOutsideList(m, bl, fl, out, i, j, w);
      WordOutsideList(m, bl, fl, out, next, j, w);
    }
    DropHolds(bl, fl, out, i);
  }

  lemma DropHolds(bl: seq<Block>, fl: seq<int>, out: set<int>, i: int)
    requires Holds(bl, fl, out) && 0 <= i < |fl|
    ensures Holds(bl, fl[..i] + fl[i + 1..], out + {fl[i]})
  {
    var fl' := fl[..i] + fl[i + 1..];
    forall x ensures x in fl' <==> IsFree(bl, x) && x !in out + {fl[i]} {
      if x in fl && x != fl[i] {
        var j :| 0 <= j < |fl| && fl[j] == x;
        assert x == fl'[if j < i then j else j - 1];
      }
    }
  }

  // A header off the free list may hold anything in its list words.
  lemma ClearState(m: seq<int>, bl: seq<Block>, fl: seq<int>, out: set<int>, k: int, ex: set<int>)
    requires State(m, bl, fl, out) && 0 <= k < |bl| && bl[k].addr in out
    ensures InRange(m, bl[k].addr)
    ensures var m' := m[bl[k].addr + NEXT_FREE := NULL][bl[k].addr + PREV_FREE := NULL];
            State(m', bl, fl, out) && Kept(m, bl, m', bl, ex)
  {
    var a := bl[k].addr;
    BlocksApart(m, bl, k, k);
    var m' := m[a + NEXT_FREE := NULL][a + PREV_FREE := NULL];
    forall i | 0 <= i <= |fl| ensures SameFreeWords(m, m', FreeNode(fl, i)) { NodeApart(m, bl, fl, out, i, k); }
    FreeRingFrame(m, m', fl);
    forall i | 0 <= i < |bl| ensures SameLinkWords(m, m', bl[i].addr) { BlocksApart(m, bl, i, k); }
    LinkedFrame(m, m', bl);
    forall j, w | 0 <= j < |bl| && InPayload(bl[j], w) && 0 <= w < |m| ensures m'[w] == m[w] {
      PayloadApart(m, bl, j, k, w);
    }
  }

  // Writing into a payload disturbs no header and no other payload.
  lemma WriteState(m: seq<int>, bl: seq<Block>, fl: seq<int>, out: set<int>, k: int, w: int, v: int)
    requires State(m, bl, fl, out) && 0 <= k < |bl| && InPayload(bl[k], w) && 0 <= w < |m|
    ensures State(m[w := v], bl, fl, out) && Kept(m, bl, m[w := v], bl, {bl[k].addr})
  {
    var m' := m[w := v];
    forall i | 0 <= i <= |fl| ensures SameFreeWords(m, m', FreeNode(fl, i)) {
      WordOutsideList(m, bl, fl, out, i, k, w);
    }
    FreeRingFrame(m, m', fl);
    forall i | 0 <= i < |bl| ensures SameLinkWords(m, m', bl[i].addr) { PayloadApart(m, bl, k, i, w); }
    LinkedFrame(m, m', bl);
    forall b: Block, u | b in bl && b.used && b.addr !in {bl[k].addr} && InPayload(b, u) && 0 <= u < |m|
      ensures m'[u] == m[u]
    {
      var j :| 0 <= j < |bl| && bl[j] == b;
      if j < k { Order(bl, |m|, j, k); } else { Order(bl, |m|, k, j); }
    }
  }

  // --- marking ------------------------------------------------------------------------------------------

  lemma MarkState(m: seq<int>, bl: seq<Block>, fl: seq<int>, out: set<int>, k: int, used: bool)
    requires State(m, bl, fl, out) && 0 <= k < |bl| - 1
    requires used ==> !bl[k].used && bl[k].addr in out
    requires !used ==> bl[k].used
    ensures InRange(m, bl[k].addr)
    ensures var m' := m[bl[k].addr + MAGIC := if used then USED_MAGIC else FREED_MAGIC];
            && State(m', Marked(bl, k, used), fl, if used then out - {bl[k].addr} else out + {bl[k].addr})
            && Kept(m, bl, m', Marked(bl, k, used), {bl[k].addr})
            && SamePrefix(m, m', bl[k].addr, bl[k].size)
  {
    var a := bl[k].addr;
    MarkLinked(m, bl, k, used);
    var m' := m[a + MAGIC := if used then USED_MAGIC else FREED_MAGIC];
    forall i | 0 <= i <= |fl| ensures SameFreeWords(m, m', FreeNode(fl, i)) { NodeApart(m, bl, fl, out, i, k); }
    FreeRingFrame(m, m', fl);
    var bl' := Marked(bl, k, used);
    forall b: Block | b.used && b.addr != a ensures b in bl <==> b in bl' { SameMember(bl, k, used, b); }
    forall j, w | 0 <= j < |bl| && InPayload(bl[j], w) && 0 <= w < |m| ensures m'[w] == m[w] {
      PayloadApart(m, bl, j, k, w);
    }
    MarkHolds(m, bl, fl, out, k, used);
  }

  lemma SameMember(bl: seq<Block>, k: int, used: bool, b: Block)
    requires 0 <= k < |bl| && b.addr != bl[k].addr
    ensures b in bl <==> b in Marked(bl, k, used)
  {
    var bl' := Marked(bl, k, used);
    if b in bl { var i :| 0 <= i < |bl| && bl[i] == b; assert bl'[i] == b; }
    if b in bl' { var i :| 0 <= i < |bl'| && bl'[i] == b; assert bl[i] == b; }
  }

  lemma MarkHolds(m: seq<int>, bl: seq<Block>, fl: seq<int>, out: set<int>, k: int, used: bool)
    requires Tiled(bl, |m|) && Holds(bl, fl, out) && 0 <= k < |bl| - 1
    requires used ==> !bl[k].used && bl[k].addr in out
    requires !used ==> bl[k].used
    ensures Holds(Marked(bl, k, used), fl, if used then out - {bl[k].addr} else out + {bl[k].addr})
  {
    var a := bl[k].addr;
    var bl' := Marked(bl, k, used);
    forall x ensures IsFree(bl', x) <==> if x == a then !used else IsFree(bl, x) {
      if IsFree(bl, x) && x != a {
        var i :| 0 <= i < |bl| && bl[i].addr == x && !bl[i].used;
        assert bl'[i].addr == x && !bl'[i].used;
      }
      if IsFree(bl', x) && x != a {
        var i :| 0 <= i < |bl'| && bl'[i].addr == x && !bl'[i].used;
        assert bl[i].addr == x && !bl[i].used;
      }
      if IsFree(bl', x) && x == a {
        var i :| 0 <= i < |bl'| && bl'[i].addr == x && !bl'[i].used;
        BlocksApart(m, bl, i, k);
      }
      if x == a && !used { assert bl'[k].addr == x && !bl'[k].used; }
    }
    assert !used ==> a !in fl by {
      if a in fl { var i := BlockAt(m, bl, a); BlocksApart(m, bl, i, k); }
    }
  }

  // --- splitting ----------------------------------------------------------------------------------------

  // Words in no header among p, q and the successor of p stay.
  lemma LinkAfterWord(m: seq<int>, p: int, q: int, w: int)
    requires InRange(m, p) && InRange(m, q) && InRange(m, m[p + NEXT]) && 0 <= w < |m|
    ensures (w < p || p + HEADER <= w) && (w < q || q + HEADER <= w) &&
            (w < m[p + NEXT] || m[p + NEXT] + HEADER <= w) ==>
              LinkAfter(m, p, q)[w] == m[w]
  {
  }

  lemma LinkAfterFreeWords(m: seq<int>, p: int, q: int, x: int)
    requires InRange(m, p) && InRange(m, q) && InRange(m, m[p + NEXT]) && InRange(m, x)
    requires (x == p || Apart(x, p)) && Apart(x, q) && (x == m[p + NEXT] || Apart(x, m[p + NEXT]))
    ensures SameFreeWords(m, LinkAfter(m, p, q), x)
  {
  }

  lemma SplitState(m: seq<int>, bl: seq<Block>, fl: seq<int>, out: set<int>, k: int, size: int, ex: set<int>)
    requires State(m, bl, fl, out) && 0 <= k < |bl| - 1 && 0 <= size && size + HEADER <= bl[k].size
    requires !bl[k].used || bl[k].addr in ex
    requires Rest(bl[k], size).addr !in out
    ensures InRange(m, bl[k].addr) && InRange(m, bl[k].addr + HEADER + size)
    ensures m[bl[k].addr + NEXT] == bl[k + 1].addr && InRange(m, bl[k + 1].addr)
    ensures var m' := LinkAfter(m, bl[k].addr, bl[k].addr + HEADER + size);
            && State(m', Split(bl, k, size), fl, out + {bl[k].addr + HEADER + size})
            && Kept(m, bl, m', Split(bl, k, size), ex)
            && SamePrefix(m, m', bl[k].addr, size)
  {
    var a, q := bl[k].addr, bl[k].addr + HEADER + size;
    LinkAfterSplits(m, bl, k, size);
    var m', bl' := LinkAfter(m, a, q), Split(bl, k, size);
    Order(bl, |m|, k, k + 1);
    assert FreeRing(m', fl) by {
      forall i | 0 <= i <= |fl| ensures SameFreeWords(m, m', FreeNode(fl, i)) {
        assert FreeNodeOk(m, fl, i);
        NodeApart(m, bl, fl, out, i, k);
        NodeApart(m, bl, fl, out, i, k + 1);
        NodeApartRest(m, bl, fl, out, i, k, size);
        LinkAfterFreeWords(m, a, q, FreeNode(fl, i));
      }
      FreeRingFrame(m, m', fl);
    }
    SplitKept(m, bl, k, size, ex);
    SplitHolds(m, bl, fl, out, k, size);
    forall w | a + HEADER <= w < a + HEADER + size && 0 <= w < |m| ensures m'[w] == m[w] {
      LinkAfterWord(m, a, q, w);
    }
  }

  lemma NodeApartRest(m: seq<int>, bl: seq<Block>, fl: seq<int>, out: set<int>, i: int, k: int, size: int)
    requires Tiled(bl, |m|) && Holds(bl, fl, out) && 0 <= i <= |fl| && 0 <= k < |bl| - 1
    requires 0 <= size && size + HEADER <= bl[k].size
    ensures Apart(FreeNode(fl, i), bl[k].addr + HEADER + size)
  {
    BlocksApart(m, bl, k, k);
    if i > 0 {
      assert fl[i - 1] in fl;
      var j := BlockAt(m, bl, fl[i - 1]);
      if j < k { Order(bl, |m|, j, k); }
      if k < j { Order(bl, |m|, k, j); }
    }
  }

  lemma SplitKept(m: seq<int>, bl: seq<Block>, k: int, size: int, ex: set<int>)
    requires Linked(m, bl) && 0 <= k < |bl| - 1 && 0 <= size && size + HEADER <= bl[k].size
    requires !bl[k].used || bl[k].addr in ex
    requires InRange(m, bl[k].addr) && InRange(m, bl[k].addr + HEADER + size)
    requires m[bl[k].addr + NEXT] == bl[k + 1].addr && InRange(m, bl[k + 1].addr)
    ensures Kept(m, bl, LinkAfter(m, bl[k].addr, bl[k].addr + HEADER + size), Split(bl, k, size), ex)
  {
    var a, q := bl[k].addr, bl[k].addr + HEADER + size;
    var m', bl' := LinkAfter(m, a, q), Split(bl, k, size);
    forall b: Block | b.used && b.addr !in ex ensures b in bl <==> b in bl' {
      if b in bl {
        var i :| 0 <= i < |bl| && bl[i] == b;
        assert bl'[if i < k then i else i + 1] == b;
      }
      if b in bl' {
        var i :| 0 <= i < |bl'| && bl'[i] == b;
        assert bl[if i < k then i else i - 1] == b;
      }
    }
    forall b: Block, w | b in bl && b.used && b.addr !in ex && InPayload(b, w) && 0 <= w < |m| ensures m'[w] == m[w] {
      var j :| 0 <= j < |bl| && bl[j] == b;
      PayloadApart(m, bl, j, k, w);
      PayloadApart(m, bl, j, k + 1, w);
      if j < k { Order(bl, |m|, j, k); } else { Order(bl, |m|, k, j); }
      LinkAfterWord(m, a, q, w);
    }
  }

  lemma SplitHolds(m: seq<int>, bl: seq<Block>, fl: seq<int>, out: set<int>, k: int, size: int)
    requires Tiled(bl, |m|) && Holds(bl, fl, out) && 0 <= k < |bl| - 1 && 0 <= size && size + HEADER <= bl[k].size
    requires Rest(bl[k], size).addr !in out
    ensures Holds(Split(bl, k, size), fl, out + {bl[k].addr + HEADER + size})
  {
    var q := bl[k].addr + HEADER + size;
    var bl' := Split(bl, k, size);
    assert q !in fl by {
      if q in fl {
        var j := BlockAt(m, bl, q);
        if j < k { Order(bl, |m|, j, k); }
        if k < j { Order(bl, |m|, k, j); }
      }
    }
    forall x | x != q ensures IsFree(bl', x) <==> IsFree(bl, x) {
      if IsFree(bl, x) {
        var i :| 0 <= i < |bl| && bl[i].addr == x && !bl[i].used;
        var j := if i <= k then i else i + 1;
        assert bl'[j].addr == x && !bl'[j].used;
      }
      if IsFree(bl', x) {
        var i :| 0 <= i < |bl'| && bl'[i].addr == x && !bl'[i].used;
        var j := if i <= k then i else i - 1;
        assert bl[j].addr == x && !bl[j].used;
      }
    }
  }

  // --- merging ------------------------------------------------------------------------------------------

  lemma UnlinkWord(m: seq<int>, p: int, q: int, w: int)
    requires InRange(m, p) && InRange(m, q) && InRange(m, m[q + NEXT]) && 0 <= w < |m|
    ensures (w < p || p + HEADER <= w) && (w < m[q + NEXT] || m[q + NEXT] + HEADER <= w) ==> Unlink(m, p, q)[w] == m[w]
  {
  }

  // Block k absorbs block k + 1, which is free and not on the free list.
  lemma MergeState(m: seq<int>, bl: seq<Block>, fl: seq<int>, out: set<int>, k: int, ex: set<int>)
    requires State(m, bl, fl, out) && 0 <= k < |bl| - 2 && !bl[k + 1].used && bl[k + 1].addr in out
    requires !bl[k].used || bl[k].addr in ex
    ensures InRange(m, bl[k].addr) && InRange(m, bl[k + 1].addr) && m[bl[k + 1].addr + NEXT] == bl[k + 2].addr
    ensures InRange(m, bl[k + 2].addr)
    ensures var m' := Unlink(m, bl[k].addr, bl[k + 1].addr);
            && State(m', Merged(bl, k), fl, out - {bl[k + 1].addr})
            && Kept(m, bl, m', Merged(bl, k), ex)
            && SamePrefix(m, m', bl[k].addr, bl[k].size)
  {
    UnlinkMerges(m, bl, k);
    var m', bl' := Unlink(m, bl[k].addr, bl[k + 1].addr), Merged(bl, k);
    assert FreeRing(m', fl) by {
      forall i | 0 <= i <= |fl| ensures SameFreeWords(m, m', FreeNode(fl, i)) {
        NodeApart(m, bl, fl, out, i, k);
        NodeApart(m, bl, fl, out, i, k + 2);
      }
      FreeRingFrame(m, m', fl);
    }
    MergeKept(m, bl, k, ex);
    MergeHolds(m, bl, fl, out, k);
    forall w | bl[k].addr + HEADER <= w < bl[k].addr + HEADER + bl[k].size && 0 <= w < |m| ensures m'[w] == m[w] {
      PayloadApart(m, bl, k, k, w);
      PayloadApart(m, bl, k, k + 2, w);
      UnlinkWord(m, bl[k].addr, bl[k + 1].addr, w);
    }
  }

  lemma MergeKept(m: seq<int>, bl: seq<Block>, k: int, ex: set<int>)
    requires Linked(m, bl) && 0 <= k < |bl| - 2 && !bl[k + 1].used
    requires !bl[k].used || bl[k].addr in ex
    requires InRange(m, bl[k].addr) && InRange(m, bl[k + 1].addr) && m[bl[k + 1].addr + NEXT] == bl[k + 2].addr
    requires InRange(m, bl[k + 2].addr)
    ensures Kept(m, bl, Unlink(m, bl[k].addr, bl[k + 1].addr), Merged(bl, k), ex)
  {
    var m', bl' := Unlink(m, bl[k].addr, bl[k + 1].addr), Merged(bl, k);
    forall b: Block | b.used && b.addr !in ex ensures b in bl <==> b in bl' {
      if b in bl {
        var i :| 0 <= i < |bl| && bl[i] == b;
        assert bl'[if i < k then i else i - 1] == b;
      }
      if b in bl' {
        var i :| 0 <= i < |bl'| && bl'[i] == b;
        assert bl[if i < k then i else i + 1] == b;
      }
    }
    forall b: Block, w | b in bl && b.used && b.addr !in ex && InPayload(b, w) && 0 <= w < |m| ensures m'[w] == m[w] {
      var j :| 0 <= j < |bl| && bl[j] == b;
      PayloadApart(m, bl, j, k, w);
      PayloadApart(m, bl, j, k + 2, w);
      UnlinkWord(m, bl[k].addr, bl[k + 1].addr, w);
    }
  }

  lemma MergeHolds(m: seq<int>, bl: seq<Block>, fl: seq<int>, out: set<int>, k: int)
    requires Tiled(bl, |m|) && Holds(bl, fl, out) && 0 <= k < |bl| - 2 && !bl[k + 1].used && bl[k + 1].addr in out
    ensures Holds(Merged(bl, k), fl, out - {bl[k + 1].addr})
  {
    var q := bl[k + 1].addr;
    var bl' := Merged(bl, k);
    forall x ensures IsFree(bl', x) <==> IsFree(bl, x) && x != q {
      if IsFree(bl, x) && x != q {
        var i :| 0 <= i < |bl| && bl[i].addr == x && !bl[i].used;
        var j := if i <= k then i else i - 1;
        assert bl'[j].addr == x && !bl'[j].used;
      }
      if IsFree(bl', x) {
        var i :| 0 <= i < |bl'| && bl'[i].addr == x && !bl'[i].used;
        var j := if i <= k then i else i + 1;
        assert bl[j].addr == x && !bl[j].used;
        BlocksApart(m, bl, j, k + 1);
      }
    }
  }

  predicate SameOrApart(x: int, y: int) { x == y || Apart(x, y) }

  ghost predicate Absorbable(m: seq<int>, p: int, q: int) {
    && InRange(m, p) && InRange(m, q)
    && InRange(m, m[q + NEXT]) && InRange(m, m[q + NEXT_FREE]) && InRange(m, m[q + PREV_FREE])
    && Apart(p, q) && Apart(q, m[q + NEXT]) && Apart(q, m[q + NEXT_FREE]) && Apart(q, m[q + PREV_FREE])
    && SameOrApart(p, m[q + NEXT_FREE]) && SameOrApart(p, m[q + PREV_FREE])
    && SameOrApart(m[q + NEXT], m[q + NEXT_FREE]) && SameOrApart(m[q + NEXT], m[q + PREV_FREE])
  }

  // Unlink q from behind p, then take it off the free list.
  ghost function Absorb(m: seq<int>, p: int, q: int): (m': seq<int>)
    requires Absorbable(m, p, q)
    ensures |m'| == |m|
  {
    var next, nf, pf := m[q + NEXT], m[q + NEXT_FREE], m[q + PREV_FREE];
    m[next + PREV := p][p + NEXT := next][nf + PREV_FREE := pf][pf + NEXT_FREE := nf]
  }

  // The two relinkings touch different words: the order does not matter.
  lemma AbsorbIsDropUnlink(m: seq<int>, p: int, q: int)
    requires Absorbable(m, p, q)
    ensures DropFree(m, q)[q + NEXT] == m[q + NEXT]
    ensures Absorb(m, p, q) == Unlink(DropFree(m, q), p, q)
  {
    var next, nf, pf := m[q + NEXT], m[q + NEXT_FREE], m[q + PREV_FREE];
    var u := Absorb(m, p, q);
    var v := Unlink(DropFree(m, q), p, q);
    forall w | 0 <= w < |m| ensures u[w] == v[w] {
    }
  }

  // Block k absorbs its free right neighbour, node i of the free list.
  lemma AbsorbState(m: seq<int>, bl: seq<Block>, fl: seq<int>, out: set<int>, k: int, i: int, ex: set<int>)
    requires State(m, bl, fl, out) && 0 <= k < |bl| - 2 && !bl[k + 1].used
    requires 0 <= i < |fl| && fl[i] == bl[k + 1].addr && bl[k + 1].addr !in out
    requires !bl[k].used || bl[k].addr in ex
    ensures Absorbable(m, bl[k].addr, bl[k + 1].addr)
    ensures var m' := Absorb(m, bl[k].addr, bl[k + 1].addr);
            && State(m', Merged(bl, k), fl[..i] + fl[i + 1..], out)
            && Kept(m, bl, m', Merged(bl, k), ex)
            && SamePrefix(m, m', bl[k].addr, bl[k].size)
  {
    var p, q := bl[k].addr, bl[k + 1].addr;
    AbsorbApart(m, bl, fl, out, k, i);
    AbsorbIsDropUnlink(m, p, q);
    DropState(m, bl, fl, out, i, ex);
    var m1 := DropFree(m, q);
    MergeState(m1, bl, fl[..i] + fl[i + 1..], out + {q}, k, ex);
    var m2 := Unlink(m1, p, q);
    KeptTrans(m, bl, m1, bl, m2, Merged(bl, k), ex);
    assert out + {q} - {q} == out;
    DropPrefix(m, bl, fl, out, k, i);
  }

  lemma DropPrefix(m: seq<int>, bl: seq<Block>, fl: seq<int>, out: set<int>, k: int, i: int)
    requires State(m, bl, fl, out) && 0 <= k < |bl| && 0 <= i < |fl|
    requires InRange(m, fl[i]) && InRange(m, m[fl[i] + NEXT_FREE]) && InRange(m, m[fl[i] + PREV_FREE])
    ensures SamePrefix(m, DropFree(m, fl[i]), bl[k].addr, bl[k].size)
  {
    assert FreeNodeOk(m, fl, i + 1);
    var next := if i + 1 == |fl| then 0 else i + 2;
    forall w | InPayload(bl[k], w) && 0 <= w < |m| ensures DropFree(m, fl[i])[w] == m[w] {
      WordOutsideList(m, bl, fl, out, i, k, w);
      WordOutsideList(m, bl, fl, out, next, k, w);
    }
  }

  lemma AbsorbApart(m: seq<int>, bl: seq<Block>, fl: seq<int>, out: set<int>, k: int, i: int)
    requires State(m, bl, fl, out) && 0 <= k < |bl| - 2 && !bl[k + 1].used
    requires 0 <= i < |fl| && fl[i] == bl[k + 1].addr
    ensures Absorbable(m, bl[k].addr, bl[k + 1].addr)
  {
    assert FreeNodeOk(m, fl, i + 1) && HeaderOk(m, bl, k + 1);
    var next := if i + 1 == |fl| then 0 else i + 2;
    assert FreeNodeOk(m, fl, next) && FreeNodeOk(m, fl, i);
    BlocksApart(m, bl, k, k + 1);
    BlocksApart(m, bl, k + 1, k + 2);
    BlocksApart(m, bl, k + 2, k);
    AllNodesApart(m, bl, fl, out);
    assert Apart(FreeNode(fl, i), FreeNode(fl, i + 1));
    assert next < i + 1 ==> Apart(FreeNode(fl, next), FreeNode(fl, i + 1));
    assert i + 1 < next ==> Apart(FreeNode(fl, i + 1), FreeNode(fl, next));
    NodeApart(m, bl, fl, out, i, k);
    NodeApart(m, bl, fl, out, next, k);
    NodeApart(m, bl, fl, out, i, k + 2);
    NodeApart(m, bl, fl, out, next, k + 2);
  }
}
