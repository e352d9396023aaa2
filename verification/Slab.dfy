// The slab allocator over the page allocator, updated in place.

module Slab {
  import opened RingList
  import opened SortedList
  import opened PageSpec
  import opened PageHeap
  import opened SlabSpec
  import opened SlabPages
  import opened SlabState

  const RELEASE_THRESH := 2     // ZONE_RELEASE_THRESH

  lemma LimitChunk(n: nat, cnt: nat)
    requires 0 < n < 16384 && cnt >= 8 && n < cnt * 1024
    ensures 4 * ZoneIndex(n).1 <= cnt * PAGE
  {
    ZoneIndexRight(n);
  }

  // The size of a zone: at most 128 KB, doubled from 32 KB while twice it is below a 1024th of the heap.
  method ZonePages(npages: nat) returns (cnt: nat)
    ensures cnt == 8 || cnt == 16 || cnt == 32
    ensures (cnt > 8 ==> cnt * PAGE < npages * PAGE / 1024) && (cnt < 32 ==> npages * PAGE / 1024 <= 2 * cnt * PAGE)
  {
    var size := 32768;
    while size < 131072 && size * 2 < npages * PAGE / 1024
      invariant size == 32768 || size == 65536 || size == 131072
      invariant size > 32768 ==> size < npages * PAGE / 1024
      decreases 131072 - size
    {
      size := size * 2;
    }
    cnt := size / PAGE;
  }

  class SlabHeap {
    const cnt: nat                       // zone_page_cnt
    const pages: PageAllocator
    const kind: array<int>               // memusage[].type
    const off: array<int>                // memusage[].size
    var zones: map<int, Zone>            // the zone headers, by the page of the zone
    var arr: seq<seq<int>>               // zone_array
    var spare: seq<int>                  // zone_free
    ghost var live: map<int, set<int>>   // chunks in use
    ghost var large: map<int, int>       // large blocks and their lengths
    ghost var owner: seq<Owner>

    ghost predicate Apart()
      reads pages
    {
      && kind != off && pages.next != kind && pages.next != off && pages.page != kind && pages.page != off
      && pages.next.Length == kind.Length == off.Length
    }

    ghost function Usage(): Table
      reads this, kind, off
    {
      Table(cnt, owner, kind[..], off[..])
    }

    // At most two zones are spare between the calls.
    ghost predicate Valid()
      reads this, kind, off, pages, pages.next, pages.page
    {
      Whole() && |spare| <= RELEASE_THRESH
    }

    ghost predicate Whole()
      reads this, kind, off, pages, pages.next, pages.page
    {
      && Apart() && (cnt == 8 || cnt == 16 || cnt == 32) && |owner| == kind.Length && pages.Valid()
      && HeapOk(Usage(), zones, live, large, arr, spare, pages.runs)
    }

    // rt_system_heap_init, for a heap of npages pages; the table takes the first of them.
    constructor (npages: nat)
      requires npages > 0
      ensures Valid() && live == map[] && large == map[]
      ensures var m := BooksSize(npages); pages.runs == if m < npages then [Run(m, npages - m)] else []
    {
      var size := ZonePages(npages);
      cnt := size;
      pages := new PageAllocator.Empty(npages);
      kind, off := new int[npages], new int[npages];
      zones, arr, spare, live, large := map[], seq(NZONES, _ => []), [], map[], map[];
      owner := seq(npages, _ => Nobody);
      new;
      pages.Free(0, npages);
      BooksFit(npages);
      var m := BooksSize(npages);
      var books := pages.Alloc(m);
      owner := Owned(owner, 0, m, Books);
      InitOk(Usage(), npages, m, arr, pages.runs);
    }

    // zone_limit
    function Limit(): nat { if cnt == 8 then 8192 else 16384 }

    // A chunk of the first zone of the list
    method TakeChunk(i: int) returns (r: int, ghost k: Block)
      requires Valid() && 0 <= i < NZONES && arr[i] != []
      modifies `zones, `arr, `live
      ensures Valid() && k.Small? && k.x == old(arr[i][0])
      ensures Obtained(old(zones), old(live), large, zones, live, large, k)
      ensures zones[k.x].chunk == ChunkOf(i) && r == Start(zones, k) != NULL
    {
      var x := arr[i][0];
      TakeOk(Usage(), zones, live, large, arr, spare, pages.runs, i);
      var z := zones[x];
      var c := Pick(z);
      if z.nfree == 1 { arr := arr[i := arr[i][1..]]; }
      live := live[x := live[x] + {c}];
      zones := zones[x := Less(z)];
      r := Address(x, z, c);
      k := Small(x, c);
    }

    // The two loops over the pages of a zone
    method Mark(x: int, k: int)
      requires Apart() && 0 <= x && x + cnt <= kind.Length && (k == SMALL || k == FREE)
      modifies kind, off
      ensures Written(old(kind[..]), old(off[..]), kind[..], off[..], x, cnt, k)
    {
      var i := 0;
      while i < cnt
        invariant 0 <= i <= cnt && Written(old(kind[..]), old(off[..]), kind[..], off[..], x, i, k)
      {
        kind[x + i] := k;
        off[x + i] := if k == SMALL then i else 0;
        i := i + 1;
      }
    }

    // A zone that was wholly free, with a new chunk size
    method ReuseZone(i: int, chunk: nat) returns (r: int, ghost k: Block)
      requires Valid() && 0 <= i < NZONES && chunk == ChunkOf(i) && 0 < chunk && 4 * chunk <= cnt * PAGE && spare != []
      modifies `zones, `arr, `live, `spare
      ensures Valid() && k == Small(old(spare[0]), 0) && Obtained(old(zones), old(live), large, zones, live, large, k)
      ensures zones[k.x].chunk == chunk && r == Start(zones, k) != NULL
    {
      var x := spare[0];
      FreshOk(i, chunk, cnt * PAGE);
      var z := Fresh(i, chunk, cnt * PAGE);
      ReuseOk(Usage(), zones, live, large, arr, spare, pages.runs, i, z);
      spare := spare[1..];
      zones := zones[x := z];
      live := live[x := {0}];
      arr := arr[i := [x] + arr[i]];
      r := Address(x, z, 0);
      k := Small(x, 0);
    }

    // A zone on pages of its own
    method AddZone(i: int, chunk: nat) returns (r: int, ghost k: Block)
      requires Valid() && 0 <= i < NZONES && chunk == ChunkOf(i) && 0 < chunk && 4 * chunk <= cnt * PAGE
      modifies `zones, `arr, `live, `owner, kind, off, pages, pages.next, pages.page
      ensures Valid() && (r == NULL <==> FirstFit(old(pages.runs), cnt) == |old(pages.runs)|)
      ensures r == NULL ==> zones == old(zones) && live == old(live) && arr == old(arr)
      ensures r != NULL ==>
        k.Small? && k.c == 0 && k.x !in old(zones) && Obtained(old(zones), old(live), large, zones, live, large, k)
      ensures r != NULL ==> zones[k.x].chunk == chunk && r == Start(zones, k)
    {
      ghost var rs, t := pages.runs, Usage();
      k := Small(0, 0);
      var x := pages.Alloc(cnt);
      if x == NULL {
        return NULL, k;
      }
      AllocGives(rs, cnt);
      FreeInside(t, zones.Keys, large, rs, x, cnt);
      Mark(x, SMALL);
      owner := Owned(owner, x, cnt, ZoneAt(x));
      ZoneGranted(t, Usage(), zones.Keys, large, rs, pages.runs, x);
      FreshOk(i, chunk, cnt * PAGE);
      var z := Fresh(i, chunk, cnt * PAGE);
      AddOk(t, Usage(), zones, live, large, arr, spare, rs, pages.runs, i, x, z);
      zones := zones[x := z];
      live := live[x := {0}];
      arr := arr[i := [x] + arr[i]];
      r := Address(x, z, 0);
      k := Small(x, 0);
    }

    // The request n cannot be served.
    ghost predicate Refuses(n: nat)
      requires Whole()
      reads this, kind, off, pages, pages.next, pages.page
    {
      if n == 0 then true
      else if n >= Limit() then FirstFit(pages.runs, RoundUp(n, PAGE) / PAGE) == |pages.runs|
      else
        ZoneIndexRight(n);
        arr[ZoneIndex(n).0] == [] && spare == [] && FirstFit(pages.runs, cnt) == |pages.runs|
    }

    method MallocSmall(n: nat) returns (r: int, ghost k: Block)
      requires Valid() && 0 < n < Limit()
      modifies this, kind, off, pages, pages.next, pages.page
      ensures Valid() && (r == NULL <==> old(Refuses(n)))
      ensures r == NULL ==> zones == old(zones) && live == old(live) && large == old(large)
      ensures r != NULL ==>
        && Obtained(old(zones), old(live), old(large), zones, live, large, k)
        && r == Start(zones, k) && r + n <= End(zones, large, k)
    {
      var (i, chunk) := ZoneIndex(n);
      ZoneIndexRight(n);
      LimitChunk(n, cnt);
      if arr[i] != [] {
        r, k := TakeChunk(i);
      } else if spare != [] {
        r, k := ReuseZone(i, chunk);
      } else {
        r, k := AddZone(i, chunk);
      }
    }

    method MallocLarge(n: nat) returns (r: int, ghost k: Block)
      requires Valid() && Limit() <= n
      modifies `large, `owner, kind, off, pages, pages.next, pages.page
      ensures Valid() && (r == NULL <==> old(Refuses(n)))
      ensures r == NULL ==> large == old(large)
      ensures r != NULL ==>
        && Obtained(old(zones), old(live), old(large), zones, live, large, k)
        && r == Start(zones, k) && r + n <= End(zones, large, k)
    {
      ghost var rs, t := pages.runs, Usage();
      var m := RoundUp(n, PAGE) / PAGE;
      k := Large(0);
      var b := pages.Alloc(m);
      if b == NULL {
        return NULL, k;
      }
      AllocGives(rs, m);
      FreeInside(t, zones.Keys, large, rs, b, m);
      kind[b], off[b] := LARGE, m;
      owner := Owned(owner, b, m, LargeAt(b));
      LargeGranted(t, Usage(), zones.Keys, large, rs, pages.runs, b, m);
      ObtainedLarge(zones, live, large, b, m);
      large := large[b := m];
      r := b * PAGE;
      k := Large(b);
    }

    // rt_malloc
    method Malloc(n: nat) returns (r: int, ghost k: Block)
      requires Valid()
      modifies this, kind, off, pages, pages.next, pages.page
      ensures Valid() && (r == NULL <==> old(Refuses(n)))
      ensures r == NULL ==> zones == old(zones) && live == old(live) && large == old(large)
      ensures r != NULL ==>
        && Obtained(old(zones), old(live), old(large), zones, live, large, k)
        && r == Start(zones, k) && r + n <= End(zones, large, k)
    {
      if n == 0 {
        return NULL, Large(0);
      }
      if n >= Limit() {
        r, k := MallocLarge(n);
      } else {
        r, k := MallocSmall(n);
      }
    }

    // A chunk goes on the free list of its zone.
    method GiveChunk(x: int, c: int)
      requires Valid() && x in live && c in live[x]
      modifies `zones, `arr, `live
      ensures Valid() && live == old(live)[x := old(live[x]) - {c}] && Unmoved(old(zones), live, zones)
      ensures x in zones && x in old(zones) && zones[x] == More(old(zones[x]), c) && zones[x].active
      ensures zones.Keys == old(zones.Keys)
      ensures 0 <= zones[x].index < NZONES
    {
      GiveOk(Usage(), zones, live, large, arr, spare, pages.runs, x, c);
      var z := zones[x];
      if z.nfree == 0 { arr := arr[z.index := [x] + arr[z.index]]; }
      live := live[x := live[x] - {c}];
      zones := zones[x := More(z, c)];
    }

    // A wholly free zone leaves its list.
    method Retire(x: int)
      requires Valid() && x in zones && zones[x].active && zones[x].nfree == zones[x].nmax
      modifies `zones, `arr, `spare
      ensures Whole() && spare == [x] + old(spare) && zones.Keys == old(zones.Keys) && Unmoved(old(zones), live, zones)
    {
      RetireOk(Usage(), zones, live, large, arr, spare, pages.runs, x);
      var z := zones[x];
      var i := z.index;
      var k := 0;
      while arr[i][k] != x
        invariant 0 <= k < |arr[i]| && x in arr[i][k..]
        decreases |arr[i]| - k
      {
        assert arr[i][k..] == [arr[i][k]] + arr[i][k + 1..];
        k := k + 1;
      }
      assert ListFor(arr[i], zones, i);
      WithoutAt(arr[i], x, k);
      arr := arr[i := arr[i][..k] + arr[i][k + 1..]];
      spare := [x] + spare;
      zones := zones[x := z.(active := false)];
    }

    // The first spare zone is given back to the page allocator.
    method Release()
      requires Whole() && spare != []
      modifies `zones, `spare, `live, `owner, kind, off, pages, pages.next, pages.page
      ensures Whole() && spare == old(spare[1..]) && live == old(live) - {old(spare[0])}
      ensures zones == old(zones) - {old(spare[0])}
      ensures old(spare[0]) in old(live) && old(live[spare[0]]) == {}
      ensures pages.runs == Given(old(pages.runs), Run(old(spare[0]), cnt))
    {
      ghost var rs, t := pages.runs, Usage();
      var x := spare[0];
      SparePages(t, zones, live, large, arr, spare, rs);
      Mark(x, FREE);
      FreeGives(rs, Run(x, cnt));
      pages.Free(x, cnt);
      owner := Owned(owner, x, cnt, Nobody);
      ZoneReturned(t, Usage(), zones.Keys, large, rs, pages.runs, x);
      ReleaseOk(t, Usage(), zones, live, large, arr, spare, rs, pages.runs);
      spare := spare[1..];
      zones := zones - {x};
      live := live - {x};
    }

    method FreeLarge(b: int)
      requires Valid() && b in large && 0 <= b < off.Length && off[b] == large[b]
      modifies `large, `owner, off, pages, pages.next, pages.page
      ensures Valid() && Obtained(zones, live, large, zones, live, old(large), Large(b))
    {
      ghost var rs, t := pages.runs, Usage();
      LargePages(t, zones, live, large, arr, spare, rs, b);
      var size := off[b];
      off[b] := 0;
      FreeGives(rs, Run(b, size));
      pages.Free(b, size);
      owner := Owned(owner, b, size, Nobody);
      LargeReturned(t, Usage(), zones.Keys, large, rs, pages.runs, b);
      large := large - {b};
    }

    // A zone that is wholly free and not the only one of its list is set aside, or given back if two are already.
    method Trim(x: int)
      requires Valid() && x in zones && zones[x].active && 0 <= zones[x].index < NZONES
      modifies `zones, `arr, `spare, `live, `owner, kind, off, pages, pages.next, pages.page
      ensures Valid() && Unmoved(old(zones), live, zones)
      ensures live == old(live) || (x in old(live) && old(live[x]) == {} && live == old(live) - {x})
      ensures old(zones[x].nfree == zones[x].nmax && |arr[zones[x].index]| > 1) ==>
        if old(|spare|) < RELEASE_THRESH then
          spare == [x] + old(spare) && live == old(live) && pages.runs == old(pages.runs)
        else spare == old(spare) && x !in zones && pages.runs == Given(old(pages.runs), Run(x, cnt))
      ensures !old(zones[x].nfree == zones[x].nmax && |arr[zones[x].index]| > 1) ==>
        && zones == old(zones) && arr == old(arr) && spare == old(spare)
        && live == old(live) && pages.runs == old(pages.runs)
    {
      var z := zones[x];
      if z.nfree == z.nmax && |arr[z.index]| > 1 {
        Retire(x);
        if |spare| > RELEASE_THRESH {
          Release();
        }
      }
    }

    method FreeSmall(x: int, c: int)
      requires Valid() && x in live && c in live[x]
      modifies this, kind, off, pages, pages.next, pages.page
      ensures Valid() && large == old(large) && Obtained(zones, live, large, old(zones), old(live), large, Small(x, c))
    {
      GiveChunk(x, c);
      ghost var after := zones;
      Trim(x);
      ChunkGone(old(zones), old(live), large, after, zones, live, x, c);
    }

    // rt_free; a pointer other than NULL is that of a live block.
    method Free(ptr: int, ghost k: Block)
      requires Valid()
      requires (ptr != NULL ==> Live(live, large, k) && (k.Small? ==> k.x in zones) && ptr == Start(zones, k))
      modifies this, kind, off, pages, pages.next, pages.page
      ensures Valid() && (if ptr == NULL then zones == old(zones) && live == old(live) && large == old(large)
                          else Obtained(zones, live, large, old(zones), old(live), old(large), k))
    {
      if ptr == NULL {
        return;
      }
      LookUp(Usage(), zones, live, large, arr, spare, pages.runs, k);
      var p := ptr / PAGE;
      if kind[p] == LARGE {
        FreeLarge(p);
      } else {
        var x := p - off[p];
        FreeSmall(x, (ptr - x * PAGE - zones[x].base) / zones[x].chunk);
      }
    }
  }
}
