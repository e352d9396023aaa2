// The slab allocator on values: chunk sizes, one zone, and the lists of zones.

module SlabSpec {
  import opened RingList
  import opened SortedList
  import opened WaitQueue

  const PAGE := 4096          // RT_MM_PAGE_SIZE
  const ZONE_HEADER := 36     // sizeof(slab_zone)
  const NZONES := 72

  // --- zoneindex -----------------------------------------------------------------------------------

  // (n + k - 1) & ~(k - 1), for a power of two k
  function RoundUp(n: nat, k: nat): nat
    requires k > 0
  {
    (n + k - 1) / k * k
  }

  // The zone index and the chunk size for a request of n bytes.
  function ZoneIndex(n: nat): (int, nat)
    requires n < 16384
  {
    if n < 128 then var c := RoundUp(n, 8); (c / 8 - 1, c)
    else if n < 256 then var c := RoundUp(n, 16); (c / 16 + 7, c)
    else if n < 512 then var c := RoundUp(n, 32); (c / 32 + 15, c)
    else if n < 1024 then var c := RoundUp(n, 64); (c / 64 + 23, c)
    else if n < 2048 then var c := RoundUp(n, 128); (c / 128 + 31, c)
    else if n < 4096 then var c := RoundUp(n, 256); (c / 256 + 39, c)
    else if n < 8192 then var c := RoundUp(n, 512); (c / 512 + 47, c)
    else var c := RoundUp(n, 1024); (c / 1024 + 55, c)
  }

  // The chunk size of an index, by itself.
  function ChunkOf(i: int): int {
    if i < 16 then (i + 1) * 8
    else if i < 24 then (i - 7) * 16
    else if i < 32 then (i - 15) * 32
    else if i < 40 then (i - 23) * 64
    else if i < 48 then (i - 31) * 128
    else if i < 56 then (i - 39) * 256
    else if i < 64 then (i - 47) * 512
    else (i - 55) * 1024
  }

  function Max(a: int, b: int): int { if a < b then b else a }

  lemma DivBounds(m: int, k: nat)
    requires k > 0
    ensures m / k * k <= m < m / k * k + k
  {
    assert m == m / k * k + m % k;
  }

  lemma RoundUpBounds(n: nat, k: nat)
    requires k > 0
    ensures n <= RoundUp(n, k) < n + k
  {
    DivBounds(n + k - 1, k);
  }

  // Every request gets an index below 72 and the chunk size of that index, so equal indices mean equal
  // sizes; the chunk holds the request and wastes less than 8 bytes or an eighth of it.
  lemma ZoneIndexRight(n: nat)
    requires 0 < n < 16384
    ensures var (i, c) := ZoneIndex(n);
      0 <= i < NZONES && c == ChunkOf(i) && n <= c && c - n < Max(8, n / 8)
  {
    var k := if n < 128 then 8 else if n < 256 then 16 else if n < 512 then 32 else if n < 1024 then 64
             else if n < 2048 then 128 else if n < 4096 then 256 else if n < 8192 then 512 else 1024;
    var q := (n + k - 1) / k;
    RoundUpBounds(n, k);
    Exact(q, k);
    assert RoundUp(n, k) == q * k;
    ChunkRange(n, k, q);
  }

  // The index that the quotient gives, in each of the ranges.
  lemma ChunkRange(n: nat, k: nat, q: nat)
    requires 0 < n < 16384 && n <= q * k < n + k
    requires k == if n < 128 then 8 else if n < 256 then 16 else if n < 512 then 32 else if n < 1024 then 64
             else if n < 2048 then 128 else if n < 4096 then 256 else if n < 8192 then 512 else 1024
    ensures var i := if k == 8 then q - 1 else if k == 16 then q + 7 else if k == 32 then q + 15
             else if k == 64 then q + 23
             else if k == 128 then q + 31 else if k == 256 then q + 39 else if k == 512 then q + 47 else q + 55;
      0 <= i < NZONES && ChunkOf(i) == q * k && q * k - n < Max(8, n / 8)
  {
  }

  // --- one zone ----------------------------------------------------------------------------------------

  // base: offset of the chunk array; uindex: last chunk ever taken from the array; chunks: z_freechunk.
  datatype Zone = Zone(active: bool, index: int, chunk: int, base: int, nmax: int, nfree: int, uindex: int,
                       chunks: seq<int>)

  // The chunks in use, the free list and the chunks never used are a partition of all chunks, and
  // nfree counts the last two.
  ghost predicate ZoneOk(z: Zone, live: set<int>, size: int) {
    && 0 <= z.index < NZONES && z.chunk == ChunkOf(z.index) > 0
    && ZONE_HEADER <= z.base == BaseOf(z.chunk) && z.base + z.nmax * z.chunk <= size
    && 0 <= z.uindex < z.nmax && NoDup(z.chunks)
    && (forall c :: c in z.chunks ==> 0 <= c <= z.uindex && c !in live)
    && (forall c :: c in live ==> 0 <= c <= z.uindex)
    && (forall c :: 0 <= c <= z.uindex ==> c in z.chunks || c in live)
    && z.nfree == |z.chunks| + (z.nmax - 1 - z.uindex)
  }

  // The chunk that an allocation takes from a zone with free chunks.
  function Pick(z: Zone): int
    requires z.uindex + 1 != z.nmax || z.chunks != []
  {
    if z.uindex + 1 != z.nmax then z.uindex + 1 else z.chunks[0]
  }

  function Less(z: Zone): Zone
    requires z.uindex + 1 != z.nmax || z.chunks != []
  {
    if z.uindex + 1 != z.nmax then z.(nfree := z.nfree - 1, uindex := z.uindex + 1)
    else z.(nfree := z.nfree - 1, chunks := z.chunks[1..])
  }

  function More(z: Zone, c: int): Zone { z.(nfree := z.nfree + 1, chunks := [c] + z.chunks) }

  lemma LessOk(z: Zone, live: set<int>, size: int)
    requires ZoneOk(z, live, size) && z.nfree > 0
    ensures z.uindex + 1 != z.nmax || z.chunks != []
    ensures Pick(z) !in live && 0 <= Pick(z) < z.nmax && ZoneOk(Less(z), live + {Pick(z)}, size)
  {
    if z.uindex + 1 == z.nmax {
      assert z.chunks[0] in z.chunks;
      DequeueMembers(z.chunks);
    }
  }

  lemma MoreOk(z: Zone, live: set<int>, size: int, c: int)
    requires ZoneOk(z, live, size) && c in live
    ensures ZoneOk(More(z, c), live - {c}, size) && z.nfree < z.nmax
  {
    assert [c] + z.chunks == Inserted(z.chunks, 0, c);
    InsertedNoDup(z.chunks, 0, c);
    Below(z.chunks, live, z.uindex, c);
  }

  // A list of distinct numbers up to u that misses one has at most u members.
  lemma Below(s: seq<int>, live: set<int>, u: int, c: int)
    requires NoDup(s) && (forall x :: x in s ==> 0 <= x <= u && x !in live) && c in live && 0 <= c <= u
    ensures |s| <= u
  {
    var t := s + [c];
    assert t == Inserted(s, |s|, c);
    InsertedNoDup(s, |s|, c);
    Pigeons(t, u + 1);
  }

  lemma {:induction false} Pigeons(s: seq<int>, n: nat)
    requires NoDup(s) && forall x :: x in s ==> 0 <= x < n
    ensures |s| <= n
    decreases n
  {
    if s != [] {
      assert s[0] in s;
      var t := Without(s, n - 1);
      if n - 1 in s {
        var i :| 0 <= i < |s| && s[i] == n - 1;
        WithoutAt(s, n - 1, i);
        RemovedNoDup(s, i);
        assert |t| == |s| - 1;
      } else {
        WithoutNone(s, n - 1);
      }
      Pigeons(t, n - 1);
    }
  }

  // A zone is wholly free exactly if no chunk of it is in use.
  lemma WhollyFree(z: Zone, live: set<int>, size: int)
    requires ZoneOk(z, live, size)
    ensures z.nfree == z.nmax ==> live == {}
  {
    if z.nfree == z.nmax {
      forall c ensures c !in live {
        if c in live { Below(z.chunks, live, z.uindex, c); }
      }
    }
  }

  // --- a new zone -----------------------------------------------------------------------------------------

  predicate PowerOfTwo(n: nat) { n == 1 || (n > 1 && n % 2 == 0 && PowerOfTwo(n / 2)) }

  function BaseOf(chunk: nat): nat
    requires chunk > 0
  {
    if PowerOfTwo(chunk) then RoundUp(ZONE_HEADER, chunk) else RoundUp(ZONE_HEADER, 8)
  }

  function Fresh(index: int, chunk: nat, size: int): Zone
    requires chunk > 0
  {
    var base := BaseOf(chunk);
    var nmax := (size - base) / chunk;
    Zone(true, index, chunk, base, nmax, nmax - 1, 0, [])
  }

  // The first chunk of a new zone is in use; the zone has more.
  lemma FreshOk(index: int, chunk: nat, size: int)
    requires 0 <= index < NZONES && chunk == ChunkOf(index) && 0 < chunk && 4 * chunk <= size && 32768 <= size
    ensures ZoneOk(Fresh(index, chunk, size), {0}, size) && Fresh(index, chunk, size).nfree > 0
  {
    var base := BaseOf(chunk);
    RoundUpBounds(ZONE_HEADER, chunk);
    RoundUpBounds(ZONE_HEADER, 8);
    var nmax := (size - base) / chunk;
    assert base < ZONE_HEADER + Max(chunk, 8) && ChunkOf(index) >= 8;
    Quotient(size - base, chunk, nmax);
  }

  lemma Quotient(a: int, b: nat, q: int)
    requires b > 0 && 2 * b <= a && q == a / b
    ensures 2 <= q && q * b <= a
  {
  }

  // --- addresses -------------------------------------------------------------------------------------------

  // The address of chunk c of the zone that starts at page x.
  function Address(x: int, z: Zone, c: int): int { x * PAGE + z.base + c * z.chunk }

  // The page of a chunk lies in its zone, so the offset stored for that page leads back to the zone;
  // and the address gives the chunk.
  lemma AddressRight(x: int, z: Zone, live: set<int>, pages: nat, c: int)
    requires 0 <= x && ZoneOk(z, live, pages * PAGE) && 0 <= c < z.nmax
    ensures x <= Address(x, z, c) / PAGE < x + pages
    ensures (Address(x, z, c) - x * PAGE - z.base) / z.chunk == c
  {
    var a := z.base + c * z.chunk;
    assert (c + 1) * z.chunk <= z.nmax * z.chunk by { Times(c + 1, z.nmax, z.chunk); }
    assert 0 <= c * z.chunk by { Times(0, c, z.chunk); }
    assert a < pages * PAGE;
    Within(x, a, pages);
    Exact(c, z.chunk);
  }

  lemma Times(a: int, b: int, k: int)
    requires a <= b && k >= 0
    ensures a * k <= b * k
  {
  }

  lemma Exact(c: int, k: int)
    requires k > 0
    ensures c * k / k == c
  {
    var q := c * k / k;
    DivBounds(c * k, k);
    if q < c { Times(q + 1, c, k); }
    if c < q { Times(c + 1, q, k); }
  }

  lemma Within(x: int, a: int, pages: nat)
    requires 0 <= x && 0 <= a < pages * PAGE
    ensures x <= (x * PAGE + a) / PAGE < x + pages
  {
  }

  // --- alignment ---------------------------------------------------------------------------------------------

  lemma Remainder(q: int, r: int, k: int)
    requires 0 <= r < k
    ensures (q * k + r) / k == q && (q * k + r) % k == r
  {
    var d := (q * k + r) / k;
    DivBounds(q * k + r, k);
    if d < q { Times(d + 1, q, k); }
    if q < d { Times(q + 1, d, k); }
    assert q * k + r == d * k + (q * k + r) % k;
  }

  lemma ModShift(x: int, q: int, k: int)
    requires k > 0
    ensures (x + q * k) % k == x % k
  {
    var d := x / k;
    assert x == d * k + x % k;
    assert x + q * k == (d + q) * k + x % k by { assert (d + q) * k == d * k + q * k; }
    Remainder(d + q, x % k, k);
  }

  // The smaller of two powers of two divides the other.
  lemma {:induction false} PowersDivide(a: nat, b: nat) returns (q: int)
    requires PowerOfTwo(a) && PowerOfTwo(b) && a <= b
    ensures b == q * a
  {
    if a == 1 {
      q := b;
    } else {
      q := PowersDivide(a / 2, b / 2);
    }
  }

  // A chunk whose size is a power of two is aligned to its size, from the start of the heap, exactly if its
  // zone is; so every chunk of up to a page is.  Every chunk is aligned to 8 bytes.
  lemma Aligned(x: int, z: Zone, live: set<int>, size: int, c: int)
    requires ZoneOk(z, live, size)
    ensures PowerOfTwo(z.chunk) ==> (Address(x, z, c) % z.chunk == 0 <==> x * PAGE % z.chunk == 0)
    ensures PowerOfTwo(z.chunk) && z.chunk <= PAGE ==> Address(x, z, c) % z.chunk == 0
    ensures Address(x, z, c) % 8 == 0
  {
    var k := z.chunk;
    if PowerOfTwo(k) {
      ModShift(x * PAGE, (ZONE_HEADER + k - 1) / k, k);
      ModShift(x * PAGE + z.base, c, k);
      if k <= PAGE { PageMultiple(x, k); }
    }
    EightAligned(x, z, c);
  }

  lemma PageMultiple(x: int, k: nat)
    requires PowerOfTwo(k) && k <= PAGE
    ensures k > 0 && x * PAGE % k == 0
  {
    PagePower();
    var d := PowersDivide(k, PAGE);
    assert x * PAGE == 0 + (x * d) * k;
    ModShift(0, x * d, k);
  }

  lemma PagePower()
    ensures PowerOfTwo(PAGE)
  {
    assert PowerOfTwo(16) && PowerOfTwo(256);
    assert PowerOfTwo(32) && PowerOfTwo(64) && PowerOfTwo(128);
    assert PowerOfTwo(512) && PowerOfTwo(1024) && PowerOfTwo(2048);
  }

  lemma EightAligned(x: int, z: Zone, c: int)
    requires 0 <= z.index < NZONES && z.chunk == ChunkOf(z.index) > 0 && z.base == BaseOf(z.chunk)
    ensures Address(x, z, c) % 8 == 0
  {
    var d := ChunkEights(z.index);
    var b := BaseEights(z.chunk, d);
    EightsSum(x, b, c, d);
  }

  lemma ChunkEights(i: int) returns (d: int)
    requires 0 <= i < NZONES
    ensures ChunkOf(i) == d * 8
  {
    d := ChunkOf(i) / 8;
  }

  lemma EightsSum(x: int, b: int, c: int, d: int)
    ensures (x * PAGE + b * 8 + c * (d * 8)) % 8 == 0
  {
    assert c * (d * 8) == (c * d) * 8;
    assert x * PAGE + b * 8 + c * (d * 8) == 0 + (x * 512 + b + c * d) * 8;
    ModShift(0, x * 512 + b + c * d, 8);
  }

  lemma BaseEights(chunk: nat, d: int) returns (b: int)
    requires chunk > 0 && chunk == d * 8
    ensures BaseOf(chunk) == b * 8
  {
    if PowerOfTwo(chunk) {
      var q := (ZONE_HEADER + chunk - 1) / chunk;
      b := q * d;
      assert q * chunk == (q * d) * 8;
    } else {
      b := (ZONE_HEADER + 7) / 8;
    }
  }

  // --- the lists of zones -----------------------------------------------------------------------------------

  predicate Listed(z: Zone, i: int) { z.active && z.index == i && z.nfree > 0 }

  // The list of index i holds exactly the zones of that index with free chunks.
  ghost predicate ListFor(list: seq<int>, zones: map<int, Zone>, i: int) {
    NoDup(list) && forall x :: x in list <==> x in zones && Listed(zones[x], i)
  }

  ghost predicate ListsOk(arr: seq<seq<int>>, zones: map<int, Zone>) {
    |arr| == NZONES && forall i :: 0 <= i < NZONES ==> ListFor(arr[i], zones, i)
  }

  // zone_free holds exactly the zones that are not in use.
  ghost predicate SpareOk(spare: seq<int>, zones: map<int, Zone>) {
    NoDup(spare) && forall x :: x in spare <==> x in zones && !zones[x].active
  }

  lemma ListKept(list: seq<int>, zones: map<int, Zone>, i: int, x: int, z: Zone)
    requires ListFor(list, zones, i)
    requires (x in zones && Listed(zones[x], i)) == Listed(z, i)
    ensures ListFor(list, zones[x := z], i)
  {
  }

  lemma ListWithout(list: seq<int>, zones: map<int, Zone>, i: int, x: int, z: Zone)
    requires ListFor(list, zones, i) && x in list && !Listed(z, i)
    ensures ListFor(Without(list, x), zones[x := z], i)
  {
    var k :| 0 <= k < |list| && list[k] == x;
    WithoutAt(list, x, k);
    RemovedNoDup(list, k);
  }

  lemma ListWith(list: seq<int>, zones: map<int, Zone>, i: int, x: int, z: Zone)
    requires ListFor(list, zones, i) && x !in list && Listed(z, i)
    ensures ListFor([x] + list, zones[x := z], i)
  {
    assert [x] + list == Inserted(list, 0, x);
    InsertedNoDup(list, 0, x);
  }

  // One zone changes; only the list of its index may change with it.
  lemma ListsAfter(arr: seq<seq<int>>, zones: map<int, Zone>, i: int, list: seq<int>, x: int, z: Zone)
    requires ListsOk(arr, zones) && 0 <= i < NZONES && ListFor(list, zones[x := z], i)
    requires (x in zones && zones[x].active ==> zones[x].index == i) && (z.active ==> z.index == i)
    ensures ListsOk(arr[i := list], zones[x := z])
  {
    var arr', zones' := arr[i := list], zones[x := z];
    forall j | 0 <= j < NZONES ensures ListFor(arr'[j], zones', j) {
      if j != i { ListKept(arr[j], zones, j, x, z); }
    }
  }
}
