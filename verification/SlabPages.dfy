// Who owns each page of the slab heap, and the table (memusage) that tells a pointer's zone from its page.

module SlabPages {
  import opened PageSpec
  import opened SlabSpec

  const FREE := 0      // PAGE_TYPE_FREE
  const SMALL := 1     // PAGE_TYPE_SMALL
  const LARGE := 2     // PAGE_TYPE_LARGE

  // Books: the pages of the table itself
  datatype Owner = Nobody | ZoneAt(x: int) | LargeAt(b: int) | Books

  // The zone at page x owns its pages, and the table gives for each its distance from x.
  ghost predicate ZoneHeld(x: int, cnt: int, owner: seq<Owner>, kind: seq<int>, off: seq<int>) {
    && 0 <= x && 0 < cnt && x + cnt <= |owner| == |kind| == |off|
    && forall p :: x <= p < x + cnt ==> owner[p] == ZoneAt(x) && kind[p] == SMALL && off[p] == p - x
  }

  // The large block at page b owns n pages, and the table gives n at the first.
  ghost predicate LargeHeld(b: int, n: int, owner: seq<Owner>, kind: seq<int>, off: seq<int>) {
    && 0 <= b && 0 < n && b + n <= |owner| == |kind| == |off|
    && kind[b] == LARGE && off[b] == n
    && forall p :: b <= p < b + n ==> owner[p] == LargeAt(b)
  }

  datatype Table = Table(cnt: int, owner: seq<Owner>, kind: seq<int>, off: seq<int>)

  // Pages for a table with four bytes per page; they are the first pages of the heap.
  function BooksSize(npages: nat): nat { RoundUp(npages * 4, PAGE) / PAGE }

  lemma BooksFit(npages: nat)
    requires npages > 0
    ensures 0 < BooksSize(npages) <= npages
  {
  }

  // The owner of page p is there and p is one of its pages.
  ghost predicate Accounted(t: Table, zones: set<int>, large: map<int, int>, rs: seq<Run>, p: int)
    requires 0 <= p < |t.owner|
  {
    match t.owner[p]
    case Nobody => Free(rs, p)
    case ZoneAt(x) => x in zones && x <= p < x + t.cnt
    case LargeAt(b) => b in large && b <= p < b + large[b]
    case Books => p < BooksSize(|t.owner|)
  }

  // Every page is of the table itself, or free, or of exactly one zone, or of exactly one large block.
  ghost predicate PagesOk(t: Table, zones: set<int>, large: map<int, int>, rs: seq<Run>) {
    && PagesHeld(t, zones, large, rs)
    && (forall p :: 0 <= p < BooksSize(|t.owner|) && p < |t.owner| ==> t.owner[p] == Books)
    && forall p :: 0 <= p < |t.owner| ==> Accounted(t, zones, large, rs, p)
  }

  // Zones and large blocks have their pages, and a free page has no owner.
  ghost predicate PagesHeld(t: Table, zones: set<int>, large: map<int, int>, rs: seq<Run>) {
    && 0 < t.cnt && |t.owner| == |t.kind| == |t.off| && Canonical(rs)
    && (forall x :: x in zones ==> ZoneHeld(x, t.cnt, t.owner, t.kind, t.off))
    && (forall b :: b in large ==> LargeHeld(b, large[b], t.owner, t.kind, t.off))
    && (forall p :: Free(rs, p) ==> 0 <= p < |t.owner| && t.owner[p] == Nobody)
  }

  // --- changing owners --------------------------------------------------------------------------------

  function Owned(owner: seq<Owner>, x: int, n: int, o: Owner): (r: seq<Owner>)
    requires 0 <= x && 0 <= n && x + n <= |owner|
    ensures |r| == |owner|
    ensures forall p :: 0 <= p < |owner| ==> r[p] == if x <= p < x + n then o else owner[p]
  {
    seq(|owner|, p requires 0 <= p < |owner| => if x <= p < x + n then o else owner[p])
  }

  // The table after a loop over the pages of a zone; off counts from 0 or is cleared.
  ghost predicate Written(kind: seq<int>, off: seq<int>, kind': seq<int>, off': seq<int>, x: int, n: int, k: int) {
    && |kind'| == |kind| == |off| == |off'| && 0 <= x && 0 <= n && x + n <= |kind|
    && forall p :: 0 <= p < |kind| ==>
         if x <= p < x + n then kind'[p] == k && off'[p] == (if k == SMALL then p - x else 0)
         else kind'[p] == kind[p] && off'[p] == off[p]
  }

  // Only the n pages from y on changed.
  ghost predicate Elsewhere(t: Table, t': Table, y: int, n: int) {
    && t'.cnt == t.cnt && |t'.owner| == |t'.kind| == |t'.off| == |t.owner| == |t.kind| == |t.off|
    && forall p :: 0 <= p < |t.owner| && !(y <= p < y + n) ==>
         t'.owner[p] == t.owner[p] && t'.kind[p] == t.kind[p] && t'.off[p] == t.off[p]
  }

  lemma ZoneStays(x: int, t: Table, t': Table, y: int, n: int)
    requires ZoneHeld(x, t.cnt, t.owner, t.kind, t.off) && Elsewhere(t, t', y, n)
    requires forall p :: y <= p < y + n && 0 <= p < |t.owner| ==> t.owner[p] != ZoneAt(x)
    ensures ZoneHeld(x, t'.cnt, t'.owner, t'.kind, t'.off)
  {
    forall p | x <= p < x + t.cnt ensures t'.owner[p] == ZoneAt(x) && t'.kind[p] == SMALL && t'.off[p] == p - x {
      assert t.owner[p] == ZoneAt(x);
      assert t'.owner[p] == t.owner[p];
    }
  }

  lemma LargeStays(b: int, m: int, t: Table, t': Table, y: int, n: int)
    requires LargeHeld(b, m, t.owner, t.kind, t.off) && Elsewhere(t, t', y, n)
    requires forall p :: y <= p < y + n && 0 <= p < |t.owner| ==> t.owner[p] != LargeAt(b)
    ensures LargeHeld(b, m, t'.owner, t'.kind, t'.off)
  {
    forall p | b <= p < b + m ensures t'.owner[p] == LargeAt(b) && t'.kind[p] == t.kind[p] && t'.off[p] == t.off[p] {
      assert t.owner[p] == LargeAt(b);
      assert t'.owner[p] == t.owner[p];
    }
  }

  // n pages that were free get an owner; zones and large blocks keep theirs.
  lemma Granted(t: Table, t': Table, zones: set<int>, large: map<int, int>, rs: seq<Run>, rs': seq<Run>, y: int, n: int)
    requires PagesHeld(t, zones, large, rs) && Canonical(rs') && Elsewhere(t, t', y, n)
    requires forall p :: y <= p < y + n ==> Free(rs, p)
    requires forall p :: Free(rs', p) <==> Free(rs, p) && !(y <= p < y + n)
    ensures PagesHeld(t', zones, large, rs')
  {
    forall x | x in zones ensures ZoneHeld(x, t'.cnt, t'.owner, t'.kind, t'.off) { ZoneStays(x, t, t', y, n); }
    forall b | b in large ensures LargeHeld(b, large[b], t'.owner, t'.kind, t'.off) {
      LargeStays(b, large[b], t, t', y, n);
    }
  }

  // The pages of the owner o become free; all the others keep theirs.
  lemma Returned(t: Table, t': Table, zones: set<int>, large: map<int, int>, rs: seq<Run>, rs': seq<Run>, y: int,
                 n: int, o: Owner)
    requires PagesHeld(t, zones, large, rs) && Canonical(rs') && Elsewhere(t, t', y, n) && o != Nobody
    requires 0 <= y && y + n <= |t.owner| && forall p :: y <= p < y + n ==> t.owner[p] == o && t'.owner[p] == Nobody
    requires forall p :: Free(rs', p) <==> Free(rs, p) || (y <= p < y + n)
    requires (forall x :: x in zones ==> o != ZoneAt(x)) && (forall b :: b in large ==> o != LargeAt(b))
    ensures PagesHeld(t', zones, large, rs')
  {
    forall x | x in zones ensures ZoneHeld(x, t'.cnt, t'.owner, t'.kind, t'.off) { ZoneStays(x, t, t', y, n); }
    forall b | b in large ensures LargeHeld(b, large[b], t'.owner, t'.kind, t'.off) {
      LargeStays(b, large[b], t, t', y, n);
    }
  }

  // Nothing owned is free, so what an owner gives back can be freed.
  lemma OwnedNotFree(t: Table, zones: set<int>, large: map<int, int>, rs: seq<Run>, y: int, n: int, o: Owner)
    requires PagesHeld(t, zones, large, rs) && 0 <= y && 0 < n && y + n <= |t.owner| && o != Nobody
    requires forall p :: y <= p < y + n ==> t.owner[p] == o
    ensures NoneFree(rs, Run(y, n))
  {
  }

  // --- allocating and freeing pages ---------------------------------------------------------------------

  lemma AllocGives(rs: seq<Run>, n: int)
    requires Canonical(rs) && 0 < n && FirstFit(rs, n) < |rs|
    ensures var k := FirstFit(rs, n); var b := rs[k].addr; var rs' := Taken(rs, k, n);
      && 0 <= b && Canonical(rs') && (forall p :: b <= p < b + n ==> Free(rs, p))
      && (forall p :: Free(rs', p) <==> Free(rs, p) && !(b <= p < b + n))
  {
    var k := FirstFit(rs, n);
    var b := rs[k].addr;
    assert Filled(rs[k]);
    TakenRight(rs, k, n, 0);
    forall p ensures Free(Taken(rs, k, n), p) <==> Free(rs, p) && !(b <= p < b + n) { TakenRight(rs, k, n, p); }
    forall p | b <= p < b + n ensures Free(rs, p) { MemberFree(rs, k, p); }
  }

  lemma FreeGives(rs: seq<Run>, r: Run)
    requires Canonical(rs) && Filled(r) && NoneFree(rs, r)
    ensures Canonical(Given(rs, r))
    ensures forall p :: Free(Given(rs, r), p) <==> Free(rs, p) || (r.addr <= p < r.addr + r.len)
  {
    GivenRight(rs, r, 0);
    forall p ensures Free(Given(rs, r), p) <==> Free(rs, p) || (r.addr <= p < r.addr + r.len) { GivenRight(rs, r, p); }
  }

  // Free pages are pages of the table, so a free run lies inside it.
  lemma FreeInside(t: Table, zones: set<int>, large: map<int, int>, rs: seq<Run>, y: int, n: int)
    requires PagesOk(t, zones, large, rs) && 0 < n && forall p :: y <= p < y + n ==> Free(rs, p)
    ensures 0 <= y && y + n <= |t.owner| && t.owner[y] == Nobody && y !in zones && y !in large
  {
    assert Free(rs, y) && Free(rs, y + n - 1);
  }

  // A new zone on free pages
  lemma ZoneGranted(t: Table, t': Table, zones: set<int>, large: map<int, int>, rs: seq<Run>, rs': seq<Run>, y: int)
    requires PagesOk(t, zones, large, rs) && Canonical(rs') && 0 <= y && y + t.cnt <= |t.owner|
    requires t'.cnt == t.cnt && t'.owner == Owned(t.owner, y, t.cnt, ZoneAt(y))
    requires Written(t.kind, t.off, t'.kind, t'.off, y, t.cnt, SMALL)
    requires forall p :: y <= p < y + t.cnt ==> Free(rs, p)
    requires forall p :: Free(rs', p) <==> Free(rs, p) && !(y <= p < y + t.cnt)
    ensures PagesOk(t', zones + {y}, large, rs')
  {
    Granted(t, t', zones, large, rs, rs', y, t.cnt);
    forall p | 0 <= p < |t'.owner| ensures Accounted(t', zones + {y}, large, rs', p) {
      assert Accounted(t, zones, large, rs, p);
    }
    BooksStay(t, t', zones, large, rs, y, t.cnt);
  }

  // Free pages are not those of the table.
  lemma BooksStay(t: Table, t': Table, zones: set<int>, large: map<int, int>, rs: seq<Run>, y: int, n: int)
    requires PagesOk(t, zones, large, rs) && Elsewhere(t, t', y, n) && 0 <= y && y + n <= |t.owner|
    requires forall p :: y <= p < y + n ==> t.owner[p] != Books
    ensures forall p :: 0 <= p < BooksSize(|t'.owner|) && p < |t'.owner| ==> t'.owner[p] == Books
  {
    forall p | 0 <= p < BooksSize(|t'.owner|) && p < |t'.owner| ensures t'.owner[p] == Books {
      assert t.owner[p] == Books;
    }
  }

  // A new large block on free pages
  lemma LargeGranted(t: Table, t': Table, zones: set<int>, large: map<int, int>, rs: seq<Run>, rs': seq<Run>, y: int,
                     n: int)
    requires PagesOk(t, zones, large, rs) && Canonical(rs') && 0 <= y && 0 < n && y + n <= |t.owner|
    requires t' == Table(t.cnt, Owned(t.owner, y, n, LargeAt(y)), t.kind[y := LARGE], t.off[y := n])
    requires forall p :: y <= p < y + n ==> Free(rs, p)
    requires forall p :: Free(rs', p) <==> Free(rs, p) && !(y <= p < y + n)
    ensures PagesOk(t', zones, large[y := n], rs')
  {
    Granted(t, t', zones, large, rs, rs', y, n);
    var large' := large[y := n];
    forall p | 0 <= p < |t'.owner| ensures Accounted(t', zones, large', rs', p) {
      assert Accounted(t, zones, large, rs, p);
    }
    BooksStay(t, t', zones, large, rs, y, n);
  }

  // A zone gives its pages back.
  lemma ZoneReturned(t: Table, t': Table, zones: set<int>, large: map<int, int>, rs: seq<Run>, rs': seq<Run>, y: int)
    requires PagesOk(t, zones, large, rs) && Canonical(rs') && y in zones && 0 <= y && y + t.cnt <= |t.owner|
    requires t'.cnt == t.cnt && t'.owner == Owned(t.owner, y, t.cnt, Nobody)
    requires Written(t.kind, t.off, t'.kind, t'.off, y, t.cnt, FREE)
    requires forall p :: Free(rs', p) <==> Free(rs, p) || (y <= p < y + t.cnt)
    ensures PagesOk(t', zones - {y}, large, rs')
  {
    var zones' := zones - {y};
    assert PagesHeld(t, zones', large, rs);
    assert ZoneHeld(y, t.cnt, t.owner, t.kind, t.off);
    Returned(t, t', zones', large, rs, rs', y, t.cnt, ZoneAt(y));
    forall p | 0 <= p < |t'.owner| ensures Accounted(t', zones', large, rs', p) {
      assert Accounted(t, zones, large, rs, p);
    }
    BooksStay(t, t', zones, large, rs, y, t.cnt);
  }

  // A large block gives its pages back.
  lemma LargeReturned(t: Table, t': Table, zones: set<int>, large: map<int, int>, rs: seq<Run>, rs': seq<Run>, y: int)
    requires PagesOk(t, zones, large, rs) && Canonical(rs') && y in large && 0 <= y && 0 < large[y]
    requires y + large[y] <= |t.owner|
    requires t' == Table(t.cnt, Owned(t.owner, y, large[y], Nobody), t.kind, t.off[y := 0])
    requires forall p :: Free(rs', p) <==> Free(rs, p) || (y <= p < y + large[y])
    ensures PagesOk(t', zones, large - {y}, rs')
  {
    var large' := large - {y};
    assert PagesHeld(t, zones, large', rs);
    assert LargeHeld(y, large[y], t.owner, t.kind, t.off);
    Returned(t, t', zones, large', rs, rs', y, large[y], LargeAt(y));
    forall p | 0 <= p < |t'.owner| ensures Accounted(t', zones, large', rs', p) {
      assert Accounted(t, zones, large, rs, p);
    }
    BooksStay(t, t', zones, large, rs, y, large[y]);
  }
}
