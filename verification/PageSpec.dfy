// The page allocator on values: the runs of free pages, in address order.

module PageSpec {

  datatype Run = Run(addr: int, len: int)

  // Each run ends before the next begins, with a gap: the list is sorted, disjoint and coalesced.
  ghost predicate Apart(rs: seq<Run>, i: int)
    requires 0 <= i < |rs| - 1
  {
    rs[i].addr + rs[i].len < rs[i + 1].addr
  }

  ghost predicate Canonical(rs: seq<Run>) {
    && (forall i :: 0 <= i < |rs| ==> Filled(rs[i]))
    && (forall i :: 0 <= i < |rs| - 1 ==> Apart(rs, i))
  }

  predicate Filled(r: Run) { 0 <= r.addr && 0 < r.len }

  predicate In(r: Run, p: int) { r.addr <= p < r.addr + r.len }

  // Page p is free.
  predicate Free(rs: seq<Run>, p: int) { rs != [] && (In(rs[0], p) || Free(rs[1..], p)) }

  function Pages(rs: seq<Run>): int { if rs == [] then 0 else rs[0].len + Pages(rs[1..]) }

  lemma CanonicalTail(rs: seq<Run>)
    requires Canonical(rs) && rs != []
    ensures Canonical(rs[1..])
  {
    forall i | 0 <= i < |rs| - 1 ensures Filled(rs[1..][i]) { assert Filled(rs[i + 1]); }
    forall i | 0 <= i < |rs| - 2 ensures Apart(rs[1..], i) { assert Apart(rs, i + 1); }
  }

  // Everything behind the first run lies beyond it.
  lemma {:induction false} FreeBehind(rs: seq<Run>, p: int)
    requires Canonical(rs) && rs != [] && Free(rs, p)
    ensures In(rs[0], p) || (|rs| > 1 && p >= rs[1].addr && p > rs[0].addr + rs[0].len)
    ensures p >= rs[0].addr
  {
    assert Filled(rs[0]);
    if !In(rs[0], p) {
      assert Apart(rs, 0);
      CanonicalTail(rs);
      FreeBehind(rs[1..], p);
    }
  }

  lemma ConsCanonical(r: Run, rs: seq<Run>)
    requires Filled(r) && Canonical(rs) && (rs != [] ==> r.addr + r.len < rs[0].addr)
    ensures Canonical([r] + rs)
  {
    var s := [r] + rs;
    forall i | 0 <= i < |s| ensures Filled(s[i]) { if i > 0 { assert Filled(rs[i - 1]); } }
    forall i | 0 <= i < |s| - 1 ensures Apart(s, i) { if i > 0 { assert Apart(rs, i - 1); } }
  }

  lemma ConsFree(r: Run, rs: seq<Run>, p: int)
    ensures Free([r] + rs, p) <==> In(r, p) || Free(rs, p)
    ensures Pages([r] + rs) == r.len + Pages(rs)
  {
    assert ([r] + rs)[1..] == rs;
  }

  // A canonical list is determined by its pages.
  lemma {:induction false} CanonicalUnique(a: seq<Run>, b: seq<Run>)
    requires Canonical(a) && Canonical(b) && forall p :: Free(a, p) <==> Free(b, p)
    ensures a == b
    decreases |a|
  {
    if a == [] {
      if b != [] { assert Filled(b[0]); assert Free(b, b[0].addr); }
    } else {
      assert Filled(a[0]);
      assert Free(a, a[0].addr);
      assert Free(b, a[0].addr);
      assert Filled(b[0]);
      assert Free(b, b[0].addr);
      FreeBehind(a, b[0].addr);
      FreeBehind(b, a[0].addr);
      SameFirst(a, b);
      SameFirst(b, a);
      CanonicalTail(a);
      CanonicalTail(b);
      forall p ensures Free(a[1..], p) <==> Free(b[1..], p) { TailFree(a, p); TailFree(b, p); }
      CanonicalUnique(a[1..], b[1..]);
    }
  }

  lemma SameFirst(a: seq<Run>, b: seq<Run>)
    requires Canonical(a) && Canonical(b) && a != [] && b != [] && a[0].addr == b[0].addr
    requires forall p :: Free(a, p) <==> Free(b, p)
    ensures a[0].len <= b[0].len
  {
    if a[0].len > b[0].len {
      var p := b[0].addr + b[0].len;
      assert Filled(b[0]);
      assert Free(a, p);
      FreeBehind(b, p);
    }
  }

  lemma TailFree(a: seq<Run>, p: int)
    requires Canonical(a) && a != []
    ensures Free(a[1..], p) <==> Free(a, p) && !In(a[0], p)
  {
    if Free(a[1..], p) {
      assert Apart(a, 0);
      CanonicalTail(a);
      FreeBehind(a[1..], p);
    }
  }

  // --- rt_page_alloc -------------------------------------------------------------------------------

  // The run the search stops at: the first with at least n pages.
  function FirstFit(rs: seq<Run>, n: int): (k: int)
    ensures 0 <= k <= |rs| && (k < |rs| ==> rs[k].len >= n)
  {
    if rs == [] then 0 else if rs[0].len >= n then 0 else 1 + FirstFit(rs[1..], n)
  }

  // The list after n pages were taken from the front of run k.
  function Taken(rs: seq<Run>, k: int, n: int): seq<Run>
    requires 0 <= k < |rs|
  {
    if k > 0 then [rs[0]] + Taken(rs[1..], k - 1, n)
    else if rs[0].len > n then [Run(rs[0].addr + n, rs[0].len - n)] + rs[1..]
    else rs[1..]
  }

  lemma {:induction false} FirstFitFirst(rs: seq<Run>, n: int, j: int)
    requires 0 <= j < FirstFit(rs, n)
    ensures rs[j].len < n
  {
    if j > 0 { FirstFitFirst(rs[1..], n, j - 1); }
  }

  // What is taken leaves the free pages; nothing else does, and the list stays canonical.
  lemma {:induction false} TakenRight(rs: seq<Run>, k: int, n: int, p: int)
    requires Canonical(rs) && 0 <= k < |rs| && 0 < n <= rs[k].len
    ensures Canonical(Taken(rs, k, n)) && Pages(Taken(rs, k, n)) == Pages(rs) - n
    ensures Free(Taken(rs, k, n), p) <==> Free(rs, p) && !In(Run(rs[k].addr, n), p)
    ensures Taken(rs, k, n) != [] ==> Taken(rs, k, n)[0].addr >= rs[0].addr
  {
    CanonicalTail(rs);
    assert Filled(rs[0]);
    assert rs == [rs[0]] + rs[1..];
    ConsFree(rs[0], rs[1..], p);
    if k == 0 {
      if |rs| > 1 { assert Apart(rs, 0) && Filled(rs[1]); }
      if Free(rs[1..], p) { TailFree(rs, p); }
      if rs[0].len > n {
        var r := Run(rs[0].addr + n, rs[0].len - n);
        assert Taken(rs, 0, n) == [r] + rs[1..];
        ConsCanonical(r, rs[1..]);
        ConsFree(r, rs[1..], p);
      } else {
        assert Taken(rs, 0, n) == rs[1..];
      }
    } else {
      assert Apart(rs, 0);
      TakenRight(rs[1..], k - 1, n, p);
      ConsCanonical(rs[0], Taken(rs[1..], k - 1, n));
      ConsFree(rs[0], Taken(rs[1..], k - 1, n), p);
      TakenBeyond(rs, k, n, p);
    }
  }

  // A run behind the first has no page in common with it.
  lemma TakenBeyond(rs: seq<Run>, k: int, n: int, p: int)
    requires Canonical(rs) && 0 < k < |rs| && 0 < n <= rs[k].len
    ensures !(In(rs[0], p) && In(Run(rs[k].addr, n), p))
  {
    if In(Run(rs[k].addr, n), p) {
      MemberFree(rs[1..], k - 1, p);
      TailFree(rs, p);
    }
  }

  lemma {:induction false} MemberFree(rs: seq<Run>, k: int, p: int)
    requires 0 <= k < |rs| && In(rs[k], p)
    ensures Free(rs, p)
  {
    if k > 0 { MemberFree(rs[1..], k - 1, p); }
  }

  // --- rt_page_free --------------------------------------------------------------------------------

  function Given(rs: seq<Run>, r: Run): seq<Run> {
    if rs == [] then [r]
    else
      var b := rs[0];
      if b.addr + b.len == r.addr then JoinAfter(rs, r)
      else if b.addr == r.addr + r.len then [Run(r.addr, r.len + b.len)] + rs[1..]
      else if b.addr > r.addr + r.len then [r] + rs
      else [b] + Given(rs[1..], r)
  }

  // r joins the first run, and perhaps that joins the second.
  function JoinAfter(rs: seq<Run>, r: Run): seq<Run>
    requires rs != []
  {
    var b := Run(rs[0].addr, rs[0].len + r.len);
    if |rs| > 1 && b.addr + b.len == rs[1].addr then [Run(b.addr, b.len + rs[1].len)] + rs[2..] else [b] + rs[1..]
  }

  ghost predicate NoneFree(rs: seq<Run>, r: Run) { forall p :: In(r, p) ==> !Free(rs, p) }

  lemma NoneFreeParts(rs: seq<Run>, r: Run)
    requires Canonical(rs) && rs != [] && Filled(r) && NoneFree(rs, r)
    ensures rs[0].addr + rs[0].len <= r.addr || r.addr + r.len <= rs[0].addr
    ensures NoneFree(rs[1..], r)
  {
    assert Filled(rs[0]);
    if rs[0].addr + rs[0].len > r.addr && r.addr + r.len > rs[0].addr {
      var p := if rs[0].addr > r.addr then rs[0].addr else r.addr;
      assert In(r, p) && In(rs[0], p);
      assert Free(rs, p);
    }
    forall p | In(r, p) ensures !Free(rs[1..], p) { TailFree(rs, p); }
  }

  // The first run grows by r at its end, and does not reach the second.
  lemma GrowFirst(rs: seq<Run>, r: Run, p: int)
    requires Canonical(rs) && rs != [] && Filled(r) && rs[0].addr + rs[0].len == r.addr
    requires |rs| > 1 ==> r.addr + r.len < rs[1].addr
    ensures var s := [Run(rs[0].addr, rs[0].len + r.len)] + rs[1..];
      Canonical(s) && Pages(s) == Pages(rs) + r.len && (Free(s, p) <==> Free(rs, p) || In(r, p))
  {
    assert Filled(rs[0]);
    var b := Run(rs[0].addr, rs[0].len + r.len);
    CanonicalTail(rs);
    ConsCanonical(b, rs[1..]);
    ConsFree(b, rs[1..], p);
    assert rs == [rs[0]] + rs[1..];
    ConsFree(rs[0], rs[1..], p);
  }

  // The first run grows by r and takes in the second, which r reaches.
  lemma BridgeFirst(rs: seq<Run>, r: Run, p: int)
    requires Canonical(rs) && |rs| > 1 && Filled(r) && rs[0].addr + rs[0].len == r.addr && r.addr + r.len == rs[1].addr
    ensures var s := [Run(rs[0].addr, rs[0].len + r.len + rs[1].len)] + rs[2..];
      Canonical(s) && Pages(s) == Pages(rs) + r.len && (Free(s, p) <==> Free(rs, p) || In(r, p))
  {
    assert Filled(rs[0]) && Filled(rs[1]);
    var c, tail, rest := Run(rs[0].addr, rs[0].len + r.len + rs[1].len), rs[1..], rs[2..];
    CanonicalTail(rs);
    assert tail[1..] == rest;
    CanonicalTail(tail);
    if rest != [] { assert Apart(rs, 1); }
    ConsCanonical(c, rest);
    ConsFree(c, rest, p);
    assert rs == [rs[0]] + tail && tail == [rs[1]] + rest;
    ConsFree(rs[0], tail, p);
    ConsFree(rs[1], rest, p);
  }

  lemma JoinAfterRight(rs: seq<Run>, r: Run, p: int)
    requires Canonical(rs) && rs != [] && Filled(r) && NoneFree(rs, r) && rs[0].addr + rs[0].len == r.addr
    ensures Canonical(JoinAfter(rs, r)) && Pages(JoinAfter(rs, r)) == Pages(rs) + r.len
    ensures Free(JoinAfter(rs, r), p) <==> Free(rs, p) || In(r, p)
    ensures JoinAfter(rs, r)[0].addr == rs[0].addr
  {
    if |rs| > 1 {
      CanonicalTail(rs);
      NoneFreeParts(rs, r);
      assert Apart(rs, 0) && Filled(rs[1]);
      NoneFreeParts(rs[1..], r);
    }
    if |rs| > 1 && r.addr + r.len == rs[1].addr { BridgeFirst(rs, r, p); } else { GrowFirst(rs, r, p); }
  }

  // What is given back joins the free pages, and the list stays canonical.
  lemma {:induction false} GivenRight(rs: seq<Run>, r: Run, p: int)
    requires Canonical(rs) && Filled(r) && NoneFree(rs, r)
    ensures Canonical(Given(rs, r)) && Pages(Given(rs, r)) == Pages(rs) + r.len
    ensures Free(Given(rs, r), p) <==> Free(rs, p) || In(r, p)
    ensures Given(rs, r) != [] && (Given(rs, r)[0].addr == r.addr || (rs != [] && Given(rs, r)[0].addr == rs[0].addr))
  {
    if rs == [] {
      ConsCanonical(r, []);
      ConsFree(r, [], p);
      assert [r] + [] == [r];
    } else {
      var b, tail := rs[0], rs[1..];
      assert Filled(b);
      NoneFreeParts(rs, r);
      CanonicalTail(rs);
      assert rs == [b] + tail;
      ConsFree(b, tail, p);
      if b.addr + b.len == r.addr {
        JoinAfterRight(rs, r, p);
      } else if b.addr == r.addr + r.len {
        if tail != [] { assert Apart(rs, 0); }
        ConsCanonical(Run(r.addr, r.len + b.len), tail);
        ConsFree(Run(r.addr, r.len + b.len), tail, p);
      } else if b.addr > r.addr + r.len {
        ConsCanonical(r, rs);
        ConsFree(r, rs, p);
      } else {
        GivenRight(tail, r, p);
        if tail != [] { assert Apart(rs, 0); }
        ConsCanonical(b, Given(tail, r));
        ConsFree(b, Given(tail, r), p);
      }
    }
  }

  // Freeing a run just allocated restores the list.
  lemma FreeUndoes(rs: seq<Run>, k: int, n: int)
    requires Canonical(rs) && 0 <= k < |rs| && 0 < n <= rs[k].len
    ensures Given(Taken(rs, k, n), Run(rs[k].addr, n)) == rs
  {
    var r, rs1 := Run(rs[k].addr, n), Taken(rs, k, n);
    assert Filled(rs[k]);
    forall p ensures Free(rs1, p) <==> Free(rs, p) && !In(r, p) { TakenRight(rs, k, n, p); }
    TakenRight(rs, k, n, 0);
    forall p ensures Free(Given(rs1, r), p) <==> Free(rs, p) {
      GivenRight(rs1, r, p);
      if In(r, p) { MemberFree(rs, k, p); }
    }
    GivenRight(rs1, r, 0);
    CanonicalUnique(Given(rs1, r), rs);
  }

  // No allocation that could be served is refused, and the lowest run that serves it is used.
  lemma AllocRefuses(rs: seq<Run>, n: int, j: int)
    requires 0 <= j < |rs| && rs[j].len >= n
    ensures FirstFit(rs, n) <= j
  {
    if j < FirstFit(rs, n) { FirstFitFirst(rs, n, j); }
  }
}
