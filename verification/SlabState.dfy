// The slab heap as a whole, on values: zones, lists, table and free pages, and the blocks handed out.

module SlabState {
  import opened RingList
  import opened SortedList
  import opened WaitQueue
  import opened PageSpec
  import opened SlabSpec
  import opened SlabPages

  ghost predicate ZonesOk(zones: map<int, Zone>, live: map<int, set<int>>, size: int) {
    && live.Keys == zones.Keys
    && forall x :: x in zones ==> if zones[x].active then ZoneOk(zones[x], live[x], size) else live[x] == {}
  }

  // The lists of zones and the zones themselves
  ghost predicate Zoned(zones: map<int, Zone>, live: map<int, set<int>>, arr: seq<seq<int>>, spare: seq<int>,
                        size: int) {
    ZonesOk(zones, live, size) && ListsOk(arr, zones) && SpareOk(spare, zones)
  }

  ghost predicate HeapOk(t: Table, zones: map<int, Zone>, live: map<int, set<int>>, large: map<int, int>,
                         arr: seq<seq<int>>, spare: seq<int>, rs: seq<Run>) {
    Zoned(zones, live, arr, spare, t.cnt * PAGE) && PagesOk(t, zones.Keys, large, rs)
  }

  lemma ZonesAfter(zones: map<int, Zone>, live: map<int, set<int>>, size: int, x: int, z: Zone, l: set<int>)
    requires ZonesOk(zones, live, size) && (if z.active then ZoneOk(z, l, size) else l == {})
    ensures ZonesOk(zones[x := z], live[x := l], size)
  {
    var zones', live' := zones[x := z], live[x := l];
    forall y | y in zones' ensures if zones'[y].active then ZoneOk(zones'[y], live'[y], size) else live'[y] == {} { }
  }

  lemma SpareKept(spare: seq<int>, zones: map<int, Zone>, x: int, z: Zone)
    requires SpareOk(spare, zones) && x !in spare && z.active
    ensures SpareOk(spare, zones[x := z])
  {
  }

  // A chunk is taken from the first zone of the list of its index.
  lemma TakeZoned(zones: map<int, Zone>, live: map<int, set<int>>, arr: seq<seq<int>>, spare: seq<int>, size: int,
                  i: int)
    requires Zoned(zones, live, arr, spare, size) && 0 <= i < NZONES && arr[i] != []
    ensures arr[i][0] in zones && Listed(zones[arr[i][0]], i)
    ensures var x := arr[i][0]; var z := zones[x];
      && (z.uindex + 1 != z.nmax || z.chunks != []) && Pick(z) !in live[x] && 0 <= Pick(z) < z.nmax
      && Zoned(zones[x := Less(z)], live[x := live[x] + {Pick(z)}],
               if z.nfree == 1 then arr[i := arr[i][1..]] else arr, spare, size)
  {
    var x := arr[i][0];
    assert ListFor(arr[i], zones, i);
    assert x in arr[i];
    var z := zones[x];
    LessOk(z, live[x], size);
    ZonesAfter(zones, live, size, x, Less(z), live[x] + {Pick(z)});
    SpareKept(spare, zones, x, Less(z));
    if z.nfree == 1 {
      WithoutAt(arr[i], x, 0);
      assert Removed(arr[i], 0) == arr[i][1..];
      ListWithout(arr[i], zones, i, x, Less(z));
      ListsAfter(arr, zones, i, arr[i][1..], x, Less(z));
    } else {
      ListKept(arr[i], zones, i, x, Less(z));
      ListsAfter(arr, zones, i, arr[i], x, Less(z));
      assert arr[i := arr[i]] == arr;
    }
  }

  // A new zone joins an empty list; x was spare or no zone at all.
  lemma FreshZoned(zones: map<int, Zone>, live: map<int, set<int>>, arr: seq<seq<int>>, spare: seq<int>, size: int,
                   i: int, x: int, z: Zone)
    requires Zoned(zones, live, arr, spare, size) && 0 <= i < NZONES && Listed(z, i) && ZoneOk(z, {0}, size)
    requires x !in zones || !zones[x].active
    ensures Zoned(zones[x := z], live[x := {0}], arr[i := [x] + arr[i]], Without(spare, x), size)
  {
    assert ListFor(arr[i], zones, i);
    ZonesAfter(zones, live, size, x, z, {0});
    ListWith(arr[i], zones, i, x, z);
    ListsAfter(arr, zones, i, [x] + arr[i], x, z);
    if x in spare {
      var k :| 0 <= k < |spare| && spare[k] == x;
      WithoutAt(spare, x, k);
      RemovedNoDup(spare, k);
    } else {
      WithoutNone(spare, x);
    }
  }

  // A chunk is given back to its zone, which joins the list if it had none free.
  lemma GiveZoned(zones: map<int, Zone>, live: map<int, set<int>>, arr: seq<seq<int>>, spare: seq<int>, size: int,
                  x: int, c: int)
    requires Zoned(zones, live, arr, spare, size) && x in live && c in live[x]
    ensures x in zones && zones[x].active && 0 <= zones[x].index < NZONES && zones[x].nfree < zones[x].nmax
    ensures var z := zones[x]; var i := z.index;
      Zoned(zones[x := More(z, c)], live[x := live[x] - {c}],
            if z.nfree == 0 then arr[i := [x] + arr[i]] else arr, spare, size)
  {
    var z := zones[x];
    var i := z.index;
    MoreOk(z, live[x], size, c);
    ZonesAfter(zones, live, size, x, More(z, c), live[x] - {c});
    SpareKept(spare, zones, x, More(z, c));
    assert ListFor(arr[i], zones, i);
    if z.nfree == 0 {
      ListWith(arr[i], zones, i, x, More(z, c));
      ListsAfter(arr, zones, i, [x] + arr[i], x, More(z, c));
    } else {
      ListKept(arr[i], zones, i, x, More(z, c));
      ListsAfter(arr, zones, i, arr[i], x, More(z, c));
      assert arr[i := arr[i]] == arr;
    }
  }

  // A wholly free zone goes from its list to the spare ones.
  lemma RetireZoned(zones: map<int, Zone>, live: map<int, set<int>>, arr: seq<seq<int>>, spare: seq<int>, size: int,
                    x: int)
    requires Zoned(zones, live, arr, spare, size) && x in zones && zones[x].active && zones[x].nfree == zones[x].nmax
    ensures 0 <= zones[x].index < NZONES && live[x] == {} && x in arr[zones[x].index]
    ensures var z := zones[x]; var i := z.index;
      Zoned(zones[x := z.(active := false)], live, arr[i := Without(arr[i], x)], [x] + spare, size)
  {
    var z := zones[x];
    var i := z.index;
    WhollyFree(z, live[x], size);
    assert ListFor(arr[i], zones, i);
    ZonesAfter(zones, live, size, x, z.(active := false), {});
    assert live[x := {}] == live;
    ListWithout(arr[i], zones, i, x, z.(active := false));
    ListsAfter(arr, zones, i, Without(arr[i], x), x, z.(active := false));
    assert [x] + spare == Inserted(spare, 0, x);
    InsertedNoDup(spare, 0, x);
  }

  // A spare zone is given up.
  lemma ReleaseZoned(zones: map<int, Zone>, live: map<int, set<int>>, arr: seq<seq<int>>, spare: seq<int>, size: int)
    requires Zoned(zones, live, arr, spare, size) && spare != []
    ensures spare[0] in zones && !zones[spare[0]].active && live[spare[0]] == {}
    ensures Zoned(zones - {spare[0]}, live - {spare[0]}, arr, spare[1..], size)
  {
    var x := spare[0];
    assert x in spare;
    DequeueMembers(spare);
    var zones' := zones - {x};
    forall i | 0 <= i < NZONES ensures ListFor(arr[i], zones', i) { assert ListFor(arr[i], zones, i); }
  }

  // --- the blocks handed out ----------------------------------------------------------------------------

  // A chunk of the zone at page x, or a large block at page b
  datatype Block = Small(x: int, c: int) | Large(b: int)

  ghost predicate Live(live: map<int, set<int>>, large: map<int, int>, k: Block) {
    match k
    case Small(x, c) => x in live && c in live[x]
    case Large(b) => b in large
  }

  // The first byte of a block, and the first behind it
  ghost function Start(zones: map<int, Zone>, k: Block): int
    requires k.Small? ==> k.x in zones
  {
    if k.Small? then Address(k.x, zones[k.x], k.c) else k.b * PAGE
  }

  ghost function End(zones: map<int, Zone>, large: map<int, int>, k: Block): int
    requires if k.Small? then k.x in zones else k.b in large
  {
    if k.Small? then Start(zones, k) + zones[k.x].chunk else (k.b + large[k.b]) * PAGE
  }

  function Owns(k: Block): Owner { if k.Small? then ZoneAt(k.x) else LargeAt(k.b) }

  lemma ChunkSpan(base: int, nmax: int, chunk: int, size: int, c: int)
    requires 0 <= c < nmax && 0 < chunk && base + nmax * chunk <= size
    ensures base <= base + c * chunk && base + c * chunk + chunk <= size
  {
    Times(c + 1, nmax, chunk);
    Times(0, c, chunk);
  }

  lemma ChunksApart(chunk: int, c: int, d: int)
    requires c < d && 0 < chunk
    ensures c * chunk + chunk <= d * chunk
  {
    Times(c + 1, d, chunk);
  }

  // What different owners own does not overlap.
  lemma OwnersApart(owner: seq<Owner>, y: int, n: int, o: Owner, z: int, m: int, o': Owner)
    requires 0 <= y && 0 < n && y + n <= |owner| && 0 <= z && 0 < m && z + m <= |owner| && o != o'
    requires forall p :: y <= p < y + n ==> owner[p] == o
    requires forall p :: z <= p < z + m ==> owner[p] == o'
    ensures y + n <= z || z + m <= y
  {
    assert owner[y] == o && owner[z] == o';
  }

  // A live block lies within pages that its zone, or itself, owns, behind the header of the zone.
  lemma Inside(t: Table, zones: map<int, Zone>, live: map<int, set<int>>, large: map<int, int>,
               arr: seq<seq<int>>, spare: seq<int>, rs: seq<Run>, k: Block) returns (y: int, n: int)
    requires HeapOk(t, zones, live, large, arr, spare, rs) && Live(live, large, k)
    ensures 0 <= y && 0 < n && y + n <= |t.owner| && forall p :: y <= p < y + n ==> t.owner[p] == Owns(k)
    ensures y * PAGE <= Start(zones, k) < End(zones, large, k) <= (y + n) * PAGE
    ensures k.Small? ==> Start(zones, k) >= k.x * PAGE + ZONE_HEADER && y == k.x && n == t.cnt
  {
    match k
    case Small(x, c) =>
      assert ZoneHeld(x, t.cnt, t.owner, t.kind, t.off);
      var z := zones[x];
      assert ZoneOk(z, live[x], t.cnt * PAGE);
      ChunkSpan(z.base, z.nmax, z.chunk, t.cnt * PAGE, c);
      y, n := x, t.cnt;
    case Large(b) =>
      assert LargeHeld(b, large[b], t.owner, t.kind, t.off);
      y, n := b, large[b];
  }

  // Two live blocks have no byte in common, and no live block has a byte in a free page.
  lemma BlocksApart(t: Table, zones: map<int, Zone>, live: map<int, set<int>>, large: map<int, int>,
                    arr: seq<seq<int>>, spare: seq<int>, rs: seq<Run>, j: Block, k: Block)
    requires HeapOk(t, zones, live, large, arr, spare, rs) && Live(live, large, j) && Live(live, large, k) && j != k
    ensures End(zones, large, j) <= Start(zones, k) || End(zones, large, k) <= Start(zones, j)
  {
    var y, n := Inside(t, zones, live, large, arr, spare, rs, j);
    var z, m := Inside(t, zones, live, large, arr, spare, rs, k);
    if Owns(j) == Owns(k) {
      assert ZoneOk(zones[j.x], live[j.x], t.cnt * PAGE);
      if j.c < k.c { ChunksApart(zones[j.x].chunk, j.c, k.c); } else { ChunksApart(zones[j.x].chunk, k.c, j.c); }
    } else {
      OwnersApart(t.owner, y, n, Owns(j), z, m, Owns(k));
    }
  }

  lemma BlockNotFree(t: Table, zones: map<int, Zone>, live: map<int, set<int>>, large: map<int, int>,
                     arr: seq<seq<int>>, spare: seq<int>, rs: seq<Run>, k: Block, p: int)
    requires HeapOk(t, zones, live, large, arr, spare, rs) && Live(live, large, k) && Free(rs, p)
    ensures End(zones, large, k) <= p * PAGE || (p + 1) * PAGE <= Start(zones, k)
  {
    var y, n := Inside(t, zones, live, large, arr, spare, rs, k);
    assert t.owner[p] == Nobody;
  }

  // The table leads from the address of a chunk back to its zone and its place there, and from the
  // address of a large block to its length.
  lemma LookUp(t: Table, zones: map<int, Zone>, live: map<int, set<int>>, large: map<int, int>,
               arr: seq<seq<int>>, spare: seq<int>, rs: seq<Run>, k: Block)
    requires HeapOk(t, zones, live, large, arr, spare, rs) && Live(live, large, k)
    ensures var a := Start(zones, k); var p := a / PAGE;
      && 0 <= p < |t.kind|
      && match k {
           case Small(x, c) =>
             t.kind[p] != LARGE && p - t.off[p] == x && (a - x * PAGE - zones[x].base) / zones[x].chunk == c
           case Large(b) => t.kind[p] == LARGE && p == b && t.off[p] == large[b]
         }
  {
    match k
    case Small(x, c) =>
      assert ZoneHeld(x, t.cnt, t.owner, t.kind, t.off);
      assert ZoneOk(zones[x], live[x], t.cnt * PAGE);
      AddressRight(x, zones[x], live[x], t.cnt, c);
    case Large(b) =>
      assert LargeHeld(b, large[b], t.owner, t.kind, t.off);
      Exact(b, PAGE);
  }

  // --- what each operation does to the whole heap -------------------------------------------------------

  // The blocks in use stay where they are.
  ghost predicate Unmoved(zones: map<int, Zone>, live: map<int, set<int>>, zones': map<int, Zone>) {
    forall x :: x in zones && x in live && live[x] != {} ==>
      x in zones' && zones'[x].base == zones[x].base && zones'[x].chunk == zones[x].chunk
  }

  // The second heap has the block k more than the first, and every other block lies where it lay.
  ghost predicate Obtained(zones: map<int, Zone>, live: map<int, set<int>>, large: map<int, int>,
                           zones': map<int, Zone>, live': map<int, set<int>>, large': map<int, int>, k: Block) {
    && !Live(live, large, k) && (k.Small? ==> k.x in zones') && (k.Large? ==> k.b in large')
    && (forall j :: Live(live', large', j) <==> Live(live, large, j) || j == k)
    && Unmoved(zones, live, zones') && forall b :: b in large ==> b in large' && large'[b] == large[b]
  }

  lemma UnmovedTwice(zones: map<int, Zone>, live: map<int, set<int>>, zones': map<int, Zone>,
                     live': map<int, set<int>>, zones'': map<int, Zone>)
    requires Unmoved(zones, live, zones') && Unmoved(zones', live', zones'')
    requires forall x :: x in live' ==> x in live && live[x] == live'[x]
    ensures Unmoved(zones, live', zones'')
  {
  }

  lemma ObtainedChunk(zones: map<int, Zone>, live: map<int, set<int>>, large: map<int, int>, zones': map<int, Zone>,
                      x: int, c: int)
    requires (x in live ==> c !in live[x]) && x in zones' && Unmoved(zones, live, zones')
    ensures Obtained(zones, live, large, zones', live[x := (if x in live then live[x] else {}) + {c}], large,
                     Small(x, c))
  {
    var live' := live[x := (if x in live then live[x] else {}) + {c}];
    forall j ensures Live(live', large, j) <==> Live(live, large, j) || j == Small(x, c) { }
  }

  lemma ObtainedLarge(zones: map<int, Zone>, live: map<int, set<int>>, large: map<int, int>, b: int, n: int)
    requires b !in large
    ensures Obtained(zones, live, large, zones, live, large[b := n], Large(b))
  {
  }

  // A chunk was given back, and then its zone may have gone.
  lemma ChunkGone(zones: map<int, Zone>, live: map<int, set<int>>, large: map<int, int>, zones': map<int, Zone>,
                  zones'': map<int, Zone>, live'': map<int, set<int>>, x: int, c: int)
    requires x in live && c in live[x] && live.Keys == zones.Keys
    requires var live' := live[x := live[x] - {c}];
      && Unmoved(zones, live', zones') && Unmoved(zones', live'', zones'')
      && (live'' == live' || (live'[x] == {} && live'' == live' - {x}))
    ensures Obtained(zones'', live'', large, zones, live, large, Small(x, c))
  {
    var live' := live[x := live[x] - {c}];
    UnmovedTwice(zones, live', zones', live'', zones'');
    forall j ensures Live(live, large, j) <==> Live(live'', large, j) || j == Small(x, c) { }
  }

  lemma InitOk(t: Table, n: nat, m: int, arr: seq<seq<int>>, rs: seq<Run>)
    requires 0 < t.cnt && 0 < m == BooksSize(n) <= n == |t.owner| == |t.kind| == |t.off|
    requires |arr| == NZONES && forall i :: 0 <= i < NZONES ==> arr[i] == []
    requires forall p :: 0 <= p < n ==> t.owner[p] == if p < m then Books else Nobody
    requires rs == if m < n then [Run(m, n - m)] else []
    ensures HeapOk(t, map[], map[], map[], arr, [], rs)
  {
    forall i | 0 <= i < NZONES ensures ListFor(arr[i], map[], i) { }
    forall p | Free(rs, p) ensures m <= p < n {
      assert !Free(rs[1..], p);
    }
    forall p | 0 <= p < n ensures Accounted(t, {}, map[], rs, p) { }
    var none: map<int, Zone> := map[];
    assert none.Keys == {} && PagesOk(t, {}, map[], rs);
    assert ZonesOk(map[], map[], t.cnt * PAGE) && ListsOk(arr, map[]);
  }

  lemma ChunkFrom(t: Table, zones: map<int, Zone>, live: map<int, set<int>>, large: map<int, int>, rs: seq<Run>,
                  x: int, c: int)
    requires ZonesOk(zones, live, t.cnt * PAGE) && PagesOk(t, zones.Keys, large, rs) && x in zones
    requires zones[x].active && 0 <= c
    ensures Address(x, zones[x], c) >= 0
  {
    assert ZoneHeld(x, t.cnt, t.owner, t.kind, t.off);
    Times(0, c, zones[x].chunk);
  }

  lemma TakeOk(t: Table, zones: map<int, Zone>, live: map<int, set<int>>, large: map<int, int>,
               arr: seq<seq<int>>, spare: seq<int>, rs: seq<Run>, i: int)
    requires HeapOk(t, zones, live, large, arr, spare, rs) && 0 <= i < NZONES && arr[i] != []
    ensures arr[i][0] in zones && arr[i][0] in live && zones[arr[i][0]].chunk == ChunkOf(i)
    ensures var x := arr[i][0]; var z := zones[x];
      && (z.uindex + 1 != z.nmax || z.chunks != []) && Pick(z) !in live[x]
      && Address(x, z, Pick(z)) >= 0
      && Obtained(zones, live, large, zones[x := Less(z)], live[x := live[x] + {Pick(z)}], large, Small(x, Pick(z)))
      && HeapOk(t, zones[x := Less(z)], live[x := live[x] + {Pick(z)}], large,
                if z.nfree == 1 then arr[i := arr[i][1..]] else arr, spare, rs)
  {
    TakeZoned(zones, live, arr, spare, t.cnt * PAGE, i);
    var x := arr[i][0];
    var z := zones[x];
    assert zones[x := Less(z)].Keys == zones.Keys;
    ObtainedChunk(zones, live, large, zones[x := Less(z)], x, Pick(z));
    ChunkFrom(t, zones, live, large, rs, x, Pick(z));
  }

  lemma ReuseOk(t: Table, zones: map<int, Zone>, live: map<int, set<int>>, large: map<int, int>,
                arr: seq<seq<int>>, spare: seq<int>, rs: seq<Run>, i: int, z: Zone)
    requires HeapOk(t, zones, live, large, arr, spare, rs) && 0 <= i < NZONES && spare != []
    requires Listed(z, i) && ZoneOk(z, {0}, t.cnt * PAGE)
    ensures var x := spare[0];
      && x in zones && x in live && live[x] == {}
      && x >= 0 && Obtained(zones, live, large, zones[x := z], live[x := {0}], large, Small(x, 0))
      && HeapOk(t, zones[x := z], live[x := {0}], large, arr[i := [x] + arr[i]], spare[1..], rs)
  {
    var x := spare[0];
    assert x in spare;
    FreshZoned(zones, live, arr, spare, t.cnt * PAGE, i, x, z);
    WithoutAt(spare, x, 0);
    assert Removed(spare, 0) == spare[1..];
    assert zones[x := z].Keys == zones.Keys;
    ObtainedChunk(zones, live, large, zones[x := z], x, 0);
    assert live[x] + {0} == {0};
    assert ZoneHeld(x, t.cnt, t.owner, t.kind, t.off);
  }

  lemma AddOk(t: Table, t': Table, zones: map<int, Zone>, live: map<int, set<int>>, large: map<int, int>,
              arr: seq<seq<int>>, spare: seq<int>, rs: seq<Run>, rs': seq<Run>, i: int, x: int, z: Zone)
    requires HeapOk(t, zones, live, large, arr, spare, rs) && 0 <= i < NZONES && x !in zones && t'.cnt == t.cnt
    requires Listed(z, i) && ZoneOk(z, {0}, t.cnt * PAGE) && PagesOk(t', zones.Keys + {x}, large, rs')
    ensures Obtained(zones, live, large, zones[x := z], live[x := {0}], large, Small(x, 0))
    ensures HeapOk(t', zones[x := z], live[x := {0}], large, arr[i := [x] + arr[i]], spare, rs')
  {
    FreshZoned(zones, live, arr, spare, t.cnt * PAGE, i, x, z);
    WithoutNone(spare, x);
    assert zones[x := z].Keys == zones.Keys + {x};
    ObtainedChunk(zones, live, large, zones[x := z], x, 0);
    assert {} + {0} == {0};
  }

  lemma GiveOk(t: Table, zones: map<int, Zone>, live: map<int, set<int>>, large: map<int, int>,
               arr: seq<seq<int>>, spare: seq<int>, rs: seq<Run>, x: int, c: int)
    requires HeapOk(t, zones, live, large, arr, spare, rs) && x in live && c in live[x]
    ensures x in zones && zones[x].active && 0 <= zones[x].index < NZONES
    ensures var z := zones[x]; var i := z.index;
      && zones[x := More(z, c)].Keys == zones.Keys
      && HeapOk(t, zones[x := More(z, c)], live[x := live[x] - {c}], large,
                if z.nfree == 0 then arr[i := [x] + arr[i]] else arr, spare, rs)
  {
    GiveZoned(zones, live, arr, spare, t.cnt * PAGE, x, c);
    assert zones[x := More(zones[x], c)].Keys == zones.Keys;
  }

  lemma RetireOk(t: Table, zones: map<int, Zone>, live: map<int, set<int>>, large: map<int, int>,
                 arr: seq<seq<int>>, spare: seq<int>, rs: seq<Run>, x: int)
    requires HeapOk(t, zones, live, large, arr, spare, rs) && x in zones && zones[x].active
    requires zones[x].nfree == zones[x].nmax
    ensures 0 <= zones[x].index < NZONES && x in live && live[x] == {} && x in arr[zones[x].index]
    ensures var z := zones[x]; var i := z.index;
      && zones[x := z.(active := false)].Keys == zones.Keys
      && HeapOk(t, zones[x := z.(active := false)], live, large, arr[i := Without(arr[i], x)], [x] + spare, rs)
  {
    RetireZoned(zones, live, arr, spare, t.cnt * PAGE, x);
    assert zones[x := zones[x].(active := false)].Keys == zones.Keys;
  }

  lemma ReleaseOk(t: Table, t': Table, zones: map<int, Zone>, live: map<int, set<int>>, large: map<int, int>,
                  arr: seq<seq<int>>, spare: seq<int>, rs: seq<Run>, rs': seq<Run>)
    requires HeapOk(t, zones, live, large, arr, spare, rs) && spare != [] && t'.cnt == t.cnt
    requires PagesOk(t', zones.Keys - {spare[0]}, large, rs')
    ensures spare[0] in live && live[spare[0]] == {}
    ensures HeapOk(t', zones - {spare[0]}, live - {spare[0]}, large, arr, spare[1..], rs')
  {
    ReleaseZoned(zones, live, arr, spare, t.cnt * PAGE);
    assert (zones - {spare[0]}).Keys == zones.Keys - {spare[0]};
  }

  // The pages of a spare zone
  lemma SparePages(t: Table, zones: map<int, Zone>, live: map<int, set<int>>, large: map<int, int>,
                   arr: seq<seq<int>>, spare: seq<int>, rs: seq<Run>)
    requires HeapOk(t, zones, live, large, arr, spare, rs) && spare != []
    ensures var x := spare[0]; x in zones && 0 <= x && x + t.cnt <= |t.owner| && NoneFree(rs, Run(x, t.cnt))
  {
    var x := spare[0];
    assert x in spare;
    assert ZoneHeld(x, t.cnt, t.owner, t.kind, t.off);
    OwnedNotFree(t, zones.Keys, large, rs, x, t.cnt, ZoneAt(x));
  }

  // The pages of a large block
  lemma LargePages(t: Table, zones: map<int, Zone>, live: map<int, set<int>>, large: map<int, int>,
                   arr: seq<seq<int>>, spare: seq<int>, rs: seq<Run>, b: int)
    requires HeapOk(t, zones, live, large, arr, spare, rs) && b in large
    ensures 0 <= b && 0 < large[b] && b + large[b] <= |t.owner| && NoneFree(rs, Run(b, large[b]))
  {
    assert LargeHeld(b, large[b], t.owner, t.kind, t.off);
    OwnedNotFree(t, zones.Keys, large, rs, b, large[b], LargeAt(b));
  }
}
