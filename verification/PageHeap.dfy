// The page allocator: free runs linked through their first pages.

module PageHeap {
  import opened PageSpec

  const NULL := -1

  function At(rs: seq<Run>, i: int): int
    requires 0 <= i <= |rs|
  {
    if i < |rs| then rs[i].addr else NULL
  }

  ghost predicate NodeAt(nx: seq<int>, pg: seq<int>, rs: seq<Run>, i: int)
    requires 0 <= i < |rs|
  {
    && |nx| == |pg| && 0 <= rs[i].addr < |nx| && rs[i].addr + rs[i].len <= |nx|
    && pg[rs[i].addr] == rs[i].len && nx[rs[i].addr] == At(rs, i + 1)
  }

  ghost predicate Chain(nx: seq<int>, pg: seq<int>, h: int, rs: seq<Run>) {
    |nx| == |pg| && h == At(rs, 0) && forall i :: 0 <= i < |rs| ==> NodeAt(nx, pg, rs, i)
  }

  lemma {:induction false} Order(rs: seq<Run>, i: int, j: int)
    requires Canonical(rs) && 0 <= i < j < |rs|
    ensures rs[i].addr + rs[i].len < rs[j].addr
    decreases j - i
  {
    assert Apart(rs, i) && Filled(rs[i]);
    if i + 1 < j {
      assert Filled(rs[i + 1]);
      Order(rs, i + 1, j);
    }
  }

  // The list with the runs i..j replaced.
  function Spliced(rs: seq<Run>, i: int, j: int, mid: seq<Run>): (r: seq<Run>)
    requires 0 <= i <= j <= |rs|
    ensures |r| == |rs| - (j - i) + |mid|
    ensures forall x {:trigger r[x]} :: 0 <= x < i ==> r[x] == rs[x]
    ensures forall x {:trigger r[x]} :: i <= x < i + |mid| ==> r[x] == mid[x - i]
    ensures forall x {:trigger r[x]} :: i + |mid| <= x < |r| ==> r[x] == rs[x - |mid| + j - i]
  {
    rs[..i] + mid + rs[j..]
  }

  ghost predicate Points(nx: seq<int>, pg: seq<int>, a: int, next: int, len: int) {
    0 <= a < |nx| == |pg| && nx[a] == next && pg[a] == len
  }

  ghost predicate Kept(nx: seq<int>, pg: seq<int>, nx': seq<int>, pg': seq<int>, a: int) {
    0 <= a < |nx| == |pg| && Points(nx', pg', a, nx[a], pg[a])
  }

  // The links after the runs i..j were replaced by one run m, or by none: the pointer to run i now
  // points to what comes there, and m has its fields set.
  lemma ChainSpliced(nx: seq<int>, pg: seq<int>, h: int, rs: seq<Run>, i: int, j: int, mid: seq<Run>,
                     nx': seq<int>, pg': seq<int>, h': int)
    requires Canonical(rs) && Chain(nx, pg, h, rs) && 0 <= i <= j <= |rs| && |mid| <= 1
    requires |nx'| == |pg'| == |nx|
    requires h' == At(Spliced(rs, i, j, mid), 0)
    requires i > 0 ==> Points(nx', pg', rs[i - 1].addr, At(Spliced(rs, i, j, mid), i), rs[i - 1].len)
    requires forall x :: (0 <= x < i - 1 || j <= x < |rs|) ==> Kept(nx, pg, nx', pg', rs[x].addr)
    requires mid != [] ==> NodeAt(nx', pg', Spliced(rs, i, j, mid), i)
    ensures Chain(nx', pg', h', Spliced(rs, i, j, mid))
  {
    var r := Spliced(rs, i, j, mid);
    forall x | 0 <= x < |r| ensures NodeAt(nx', pg', r, x) {
      if x < i {
        assert NodeAt(nx, pg, rs, x);
      } else if x >= i + |mid| {
        assert NodeAt(nx, pg, rs, x - |mid| + j - i);
      }
    }
  }

  lemma SplicedOne(rs: seq<Run>, i: int, j: int, m: Run)
    requires 0 <= i <= j <= |rs|
    ensures rs[..i] + ([m] + rs[j..]) == Spliced(rs, i, j, [m])
  {
  }

  lemma SplicedNone(rs: seq<Run>, i: int, j: int)
    requires 0 <= i <= j <= |rs|
    ensures rs[..i] + rs[j..] == Spliced(rs, i, j, [])
  {
    assert rs[..i] + [] == rs[..i];
  }

  // Past a run that is left as it is.
  lemma Passed(rs: seq<Run>, i: int, rest: seq<Run>)
    requires 0 <= i < |rs|
    ensures rs[..i] + ([rs[i]] + rest) == rs[..i + 1] + rest
  {
    assert rs[..i + 1] == rs[..i] + [rs[i]];
  }

  // Every run but run i starts outside run i, and outside the page behind it.
  lemma Distinct(rs: seq<Run>, i: int)
    requires Canonical(rs) && 0 <= i < |rs|
    ensures forall x :: 0 <= x < |rs| && x != i ==> !(rs[i].addr <= rs[x].addr <= rs[i].addr + rs[i].len)
  {
    assert Filled(rs[i]);
    forall x | 0 <= x < |rs| && x != i ensures !(rs[i].addr <= rs[x].addr <= rs[i].addr + rs[i].len) {
      assert Filled(rs[x]);
      if x < i { Order(rs, x, i); } else { Order(rs, i, x); }
    }
  }

  lemma AtNull(nx: seq<int>, pg: seq<int>, rs: seq<Run>, i: int)
    requires 0 <= i <= |rs| && forall x :: 0 <= x < |rs| ==> NodeAt(nx, pg, rs, x)
    ensures At(rs, i) == NULL <==> i == |rs|
  {
    if i < |rs| { assert NodeAt(nx, pg, rs, i); }
  }

  ghost function Prev(rs: seq<Run>, i: int): int
    requires 0 <= i <= |rs|
  {
    if i == 0 then NULL else rs[i - 1].addr
  }

  ghost function Stored(nx: seq<int>, prev: int, v: int): seq<int> {
    if 0 <= prev < |nx| then nx[prev := v] else nx
  }

  // The runs i..j give way to one run m: its fields are set, and the pointer to run i points to it.
  lemma ReplaceRuns(nx: seq<int>, pg: seq<int>, h: int, rs: seq<Run>, i: int, j: int, m: Run)
    requires Canonical(rs) && Chain(nx, pg, h, rs) && 0 <= i <= j <= |rs|
    requires Filled(m) && m.addr + m.len <= |nx|
    requires forall x :: 0 <= x < |rs| && !(i <= x < j) ==> rs[x].addr != m.addr
    ensures Chain(Stored(nx[m.addr := At(rs, j)], Prev(rs, i), m.addr), pg[m.addr := m.len],
                  if i == 0 then m.addr else h, Spliced(rs, i, j, [m]))
  {
    var nx', pg' := Stored(nx[m.addr := At(rs, j)], Prev(rs, i), m.addr), pg[m.addr := m.len];
    if i > 0 { assert NodeAt(nx, pg, rs, i - 1); Distinct(rs, i - 1); }
    forall x | 0 <= x < i - 1 || j <= x < |rs| ensures Kept(nx, pg, nx', pg', rs[x].addr) {
      assert NodeAt(nx, pg, rs, x);
    }
    ChainSpliced(nx, pg, h, rs, i, j, [m], nx', pg', if i == 0 then m.addr else h);
  }

  lemma DropRun(nx: seq<int>, pg: seq<int>, h: int, rs: seq<Run>, i: int)
    requires Canonical(rs) && Chain(nx, pg, h, rs) && 0 <= i < |rs|
    ensures Chain(Stored(nx, Prev(rs, i), At(rs, i + 1)), pg, if i == 0 then At(rs, 1) else h,
                  Spliced(rs, i, i + 1, []))
  {
    var nx' := Stored(nx, Prev(rs, i), At(rs, i + 1));
    if i > 0 { assert NodeAt(nx, pg, rs, i - 1); Distinct(rs, i - 1); }
    forall x | 0 <= x < i - 1 || i + 1 <= x < |rs| ensures Kept(nx, pg, nx', pg, rs[x].addr) {
      assert NodeAt(nx, pg, rs, x);
    }
    ChainSpliced(nx, pg, h, rs, i, i + 1, [], nx', pg, if i == 0 then At(rs, 1) else h);
  }

  class PageAllocator {
    const next: array<int>
    const page: array<int>
    var list: int                // rt_page_list
    ghost var runs: seq<Run>

    ghost predicate Valid()
      reads this, next, page
    {
      next != page && next.Length == page.Length && Canonical(runs) && Chain(next[..], page[..], list, runs)
    }

    // No page is free yet; rt_page_init then frees all of them.
    constructor Empty(pages: nat)
      ensures Valid() && fresh(next) && fresh(page) && next.Length == pages && runs == []
    {
      next, page := new int[pages], new int[pages];
      list, runs := NULL, [];
    }

    // Store through the pointer to run i: the list head, or the next field of the run before.
    method SetPointer(prev: int, v: int)
      requires prev == NULL || 0 <= prev < next.Length
      modifies next, `list
      ensures list == (if prev == NULL then v else old(list)) && next[..] == Stored(old(next[..]), prev, v)
    {
      if prev == NULL { list := v; } else { next[prev] := v; }
    }

    // rt_page_alloc
    method Alloc(n: nat) returns (b: int)
      requires Valid()
      modifies next, page, `list, `runs
      ensures Valid()
      ensures var k := FirstFit(old(runs), n);
        if n == 0 || k == |old(runs)| then b == NULL && runs == old(runs)
        else b == old(runs)[k].addr && runs == Taken(old(runs), k, n)
    {
      if n == 0 {
        return NULL;
      }
      var prev;
      ghost var i;
      prev, b, i := Find(n);
      if b != NULL {
        TakenRight(runs, i, n, 0);
        TakenSplit(runs, i, n);
        TakeFrom(prev, b, n, i);
      }
    }

    // The search loop: the first run with enough pages, and the place of the pointer to it.
    method Find(n: nat) returns (prev: int, b: int, ghost i: int)
      requires Valid() && n > 0
      ensures i == FirstFit(runs, n) && b == At(runs, i) && prev == Prev(runs, i) && (b == NULL <==> i == |runs|)
    {
      prev, b, i := NULL, list, 0;
      assert runs[0..] == runs;
      while b != NULL
        invariant 0 <= i <= |runs| && b == At(runs, i) && prev == Prev(runs, i)
        invariant FirstFit(runs, n) == i + FirstFit(runs[i..], n)
        decreases |runs| - i
      {
        assert NodeAt(next[..], page[..], runs, i);
        assert runs[i..][1..] == runs[i + 1..];
        if page[b] >= n {
          return;
        }
        prev, b, i := b, next[b], i + 1;
      }
      AtNull(next[..], page[..], runs, i);
    }

    // Take n pages from the front of run i.
    method TakeFrom(prev: int, b: int, n: nat, ghost i: int)
      requires Valid() && 0 <= i < |runs| && b == runs[i].addr && 0 < n <= runs[i].len && prev == Prev(runs, i)
      requires Canonical(runs[..i] + Taken(runs[i..], 0, n))
      modifies next, page, `list, `runs
      ensures Valid() && runs == old(runs[..i] + Taken(runs[i..], 0, n))
    {
      ghost var goal := runs[..i] + Taken(runs[i..], 0, n);
      assert runs[i..][1..] == runs[i + 1..];
      assert NodeAt(next[..], page[..], runs, i);
      if i > 0 { assert NodeAt(next[..], page[..], runs, i - 1); }
      if page[b] > n {
        SplicedOne(runs, i, i + 1, Run(b + n, runs[i].len - n));
        CutFront(prev, b, n, i);
      } else {
        SplicedNone(runs, i, i + 1);
        DropRun(next[..], page[..], list, runs, i);
        SetPointer(prev, next[b]);
      }
      runs := goal;
    }

    method CutFront(prev: int, b: int, n: nat, ghost i: int)
      requires Valid() && 0 <= i < |runs| && b == runs[i].addr && 0 < n < runs[i].len && prev == Prev(runs, i)
      modifies next, page, `list
      ensures Chain(next[..], page[..], list, Spliced(runs, i, i + 1, [Run(b + n, runs[i].len - n)]))
    {
      assert NodeAt(next[..], page[..], runs, i);
      if i > 0 { assert NodeAt(next[..], page[..], runs, i - 1); }
      Distinct(runs, i);
      ReplaceRuns(next[..], page[..], list, runs, i, i + 1, Run(b + n, runs[i].len - n));
      next[b + n] := next[b];
      page[b + n] := page[b] - n;
      SetPointer(prev, b + n);
    }

    // rt_page_free
    method Free(n: int, npages: int)
      requires Valid() && Filled(Run(n, npages)) && n + npages <= next.Length && NoneFree(runs, Run(n, npages))
      modifies next, page, `list, `runs
      ensures Valid() && runs == Given(old(runs), Run(n, npages))
    {
      ghost var r := Run(n, npages);
      ghost var goal := Given(runs, r);
      GivenRight(runs, r, 0);
      var prev, b := NULL, list;
      ghost var i := 0;
      assert runs[0..] == runs && [] + goal == goal;
      while b != NULL
        invariant Valid() && runs == old(runs)
        invariant 0 <= i <= |runs| && b == At(runs, i) && prev == Prev(runs, i)
        invariant goal == runs[..i] + Given(runs[i..], r)
        invariant i > 0 ==> runs[i - 1].addr + runs[i - 1].len < n
        decreases |runs| - i
      {
        assert NodeAt(next[..], page[..], runs, i);
        if b + page[b] == n {
          Append(b, n, npages, i);
          return;
        }
        if b == n + npages {
          Prepend(prev, b, n, npages, i);
          return;
        }
        if b > n + npages {
          break;
        }
        SkipRun(runs, i, r);
        prev, b, i := b, next[b], i + 1;
      }
      AtNull(next[..], page[..], runs, i);
      InsertHere(prev, b, n, npages, i);
    }

    // Run i ends where the pages begin: they join it, and perhaps the run behind.
    method Append(b: int, n: int, npages: int, ghost i: int)
      requires Valid() && 0 <= i < |runs| && b == runs[i].addr && b + runs[i].len == n && npages > 0
      requires n + npages <= next.Length
      requires Canonical(runs[..i] + Given(runs[i..], Run(n, npages)))
      modifies next, page, `runs
      ensures Valid() && runs == old(runs[..i] + Given(runs[i..], Run(n, npages)))
    {
      AppendSpliced(runs, i, Run(n, npages));
      assert NodeAt(next[..], page[..], runs, i);
      page[b] := page[b] + npages;
      if b + page[b] == next[b] {
        AtNull(next[..], old(page[..]), runs, i + 1);
        Bridge(b, n, npages, i, old(page[..]));
      } else {
        Grow(b, n, npages, i, old(page[..]));
      }
    }

    method Bridge(b: int, n: int, npages: int, ghost i: int, ghost pg: seq<int>)
      requires next != page && next.Length == page.Length && Canonical(runs) && Chain(next[..], pg, list, runs)
      requires 0 <= i < |runs| - 1 && 0 <= b < |pg| && b == runs[i].addr && b + runs[i].len == n && npages > 0
      requires n + npages == runs[i + 1].addr
      requires page[..] == pg[b := runs[i].len + npages]
      requires Canonical(Spliced(runs, i, i + 2, [Run(b, runs[i].len + npages + runs[i + 1].len)]))
      modifies next, page, `runs
      ensures Valid() && runs == old(Spliced(runs, i, i + 2, [Run(b, runs[i].len + npages + runs[i + 1].len)]))
    {
      ghost var m, nx := Run(b, runs[i].len + npages + runs[i + 1].len), next[..];
      assert NodeAt(nx, pg, runs, i) && NodeAt(nx, pg, runs, i + 1);
      Distinct(runs, i);
      ReplaceRuns(nx, pg, list, runs, i, i + 2, m);
      StoredSame(nx, pg, list, runs, i, At(runs, i + 2));
      page[b] := page[b] + page[next[b]];
      next[b] := next[next[b]];
      assert page[..] == pg[b := m.len] && next[..] == nx[b := At(runs, i + 2)];
      runs := Spliced(runs, i, i + 2, [m]);
    }

    ghost method Grow(b: int, n: int, npages: int, i: int, pg: seq<int>)
      requires next != page && next.Length == page.Length && Canonical(runs) && Chain(next[..], pg, list, runs)
      requires 0 <= i < |runs| && 0 <= b < |pg| && b == runs[i].addr && npages > 0
      requires b + runs[i].len + npages <= next.Length
      requires page[..] == pg[b := runs[i].len + npages]
      requires Canonical(Spliced(runs, i, i + 1, [Run(b, runs[i].len + npages)]))
      modifies `runs
      ensures Valid() && runs == old(Spliced(runs, i, i + 1, [Run(b, runs[i].len + npages)]))
    {
      var m, nx := Run(b, runs[i].len + npages), next[..];
      assert NodeAt(nx, pg, runs, i);
      Distinct(runs, i);
      ReplaceRuns(nx, pg, list, runs, i, i + 1, m);
      StoredSame(nx, pg, list, runs, i, At(runs, i + 1));
      assert nx[b := At(runs, i + 1)] == nx;
      runs := Spliced(runs, i, i + 1, [m]);
    }

    // The pages end where run i begins: they become its front.
    method Prepend(prev: int, b: int, n: int, npages: int, ghost i: int)
      requires Valid() && 0 <= i < |runs| && b == runs[i].addr && prev == Prev(runs, i)
      requires 0 <= n && npages > 0 && n + npages == b && (i > 0 ==> runs[i - 1].addr + runs[i - 1].len < n)
      requires Canonical(runs[..i] + Given(runs[i..], Run(n, npages)))
      modifies next, page, `list, `runs
      ensures Valid() && runs == old(runs[..i] + Given(runs[i..], Run(n, npages)))
    {
      ghost var goal := runs[..i] + Given(runs[i..], Run(n, npages));
      assert NodeAt(next[..], page[..], runs, i);
      if i > 0 { assert NodeAt(next[..], page[..], runs, i - 1); }
      Between(runs, i, n);
      assert runs[i..][1..] == runs[i + 1..];
      SplicedOne(runs, i, i + 1, Run(n, npages + runs[i].len));
      ReplaceRuns(next[..], page[..], list, runs, i, i + 1, Run(n, npages + runs[i].len));
      page[n] := page[b] + npages;
      next[n] := next[b];
      SetPointer(prev, n);
      runs := goal;
    }

    // The pages touch no run: they become one, before run i.
    method InsertHere(prev: int, b: int, n: int, npages: int, ghost i: int)
      requires Valid() && 0 <= i <= |runs| && b == At(runs, i) && prev == Prev(runs, i)
      requires 0 <= n && npages > 0 && n + npages <= next.Length && (i > 0 ==> runs[i - 1].addr + runs[i - 1].len < n)
      requires i < |runs| ==> runs[i].addr > n + npages
      requires Canonical(runs[..i] + Given(runs[i..], Run(n, npages)))
      modifies next, page, `list, `runs
      ensures Valid() && runs == old(runs[..i] + Given(runs[i..], Run(n, npages)))
    {
      ghost var goal := runs[..i] + Given(runs[i..], Run(n, npages));
      if i > 0 { assert NodeAt(next[..], page[..], runs, i - 1); }
      Between(runs, i, n);
      SplicedOne(runs, i, i, Run(n, npages));
      assert i == |runs| ==> [Run(n, npages)] + runs[i..] == [Run(n, npages)];
      ReplaceRuns(next[..], page[..], list, runs, i, i, Run(n, npages));
      page[n] := npages;
      next[n] := b;
      SetPointer(prev, n);
      runs := goal;
    }
  }

  lemma {:induction false} TakenSplit(rs: seq<Run>, k: int, n: int)
    requires 0 <= k < |rs|
    ensures Taken(rs, k, n) == rs[..k] + Taken(rs[k..], 0, n)
  {
    if k == 0 {
      assert rs[0..] == rs && rs[..0] == [];
    } else {
      TakenSplit(rs[1..], k - 1, n);
      assert rs[1..][k - 1..] == rs[k..];
      Grouped([rs[0]], rs[1..][..k - 1], Taken(rs[k..], 0, n));
      assert [rs[0]] + rs[1..][..k - 1] == rs[..k];
    }
  }

  lemma Grouped(a: seq<Run>, b: seq<Run>, c: seq<Run>)
    ensures a + (b + c) == a + b + c
  {
  }

  // The pointer to run i points to it already.
  lemma StoredSame(nx: seq<int>, pg: seq<int>, h: int, rs: seq<Run>, i: int, v: int)
    requires Canonical(rs) && Chain(nx, pg, h, rs) && 0 <= i < |rs| && 0 <= rs[i].addr < |nx|
    ensures Stored(nx[rs[i].addr := v], Prev(rs, i), rs[i].addr) == nx[rs[i].addr := v]
    ensures i == 0 ==> h == rs[i].addr
  {
    if i > 0 {
      assert NodeAt(nx, pg, rs, i - 1);
      Distinct(rs, i);
    }
  }

  // An address behind run i-1 and before run i is the address of no run.
  lemma Between(rs: seq<Run>, i: int, n: int)
    requires Canonical(rs) && 0 <= i <= |rs| && (i > 0 ==> rs[i - 1].addr + rs[i - 1].len < n)
    requires (i < |rs| ==> n < rs[i].addr)
    ensures forall x :: 0 <= x < |rs| ==> rs[x].addr != n
  {
    forall x | 0 <= x < |rs| ensures rs[x].addr != n {
      assert Filled(rs[x]);
      if x < i - 1 { Order(rs, x, i - 1); assert Filled(rs[i - 1]); }
      if x > i { Order(rs, i, x); assert Filled(rs[i]); }
    }
  }

  lemma SkipRun(rs: seq<Run>, i: int, r: Run)
    requires Canonical(rs) && 0 <= i < |rs| && Filled(r) && NoneFree(rs, r)
    requires rs[i].addr + rs[i].len != r.addr && rs[i].addr <= r.addr + r.len && rs[i].addr != r.addr + r.len
    ensures rs[..i] + Given(rs[i..], r) == rs[..i + 1] + Given(rs[i + 1..], r)
    ensures rs[i].addr + rs[i].len < r.addr
  {
    assert rs[i..][1..] == rs[i + 1..];
    Passed(rs, i, Given(rs[i + 1..], r));
    assert Filled(rs[i]);
    if rs[i].addr + rs[i].len > r.addr {
      var p := if rs[i].addr > r.addr then rs[i].addr else r.addr;
      MemberFree(rs, i, p);
      assert In(r, p);
    }
  }

  lemma AppendSpliced(rs: seq<Run>, i: int, r: Run)
    requires 0 <= i < |rs| && rs[i].addr + rs[i].len == r.addr
    ensures rs[..i] + Given(rs[i..], r) ==
      if i + 1 < |rs| && r.addr + r.len == rs[i + 1].addr
      then Spliced(rs, i, i + 2, [Run(rs[i].addr, rs[i].len + r.len + rs[i + 1].len)])
      else Spliced(rs, i, i + 1, [Run(rs[i].addr, rs[i].len + r.len)])
  {
    var tail := rs[i..];
    assert tail[1..] == rs[i + 1..];
    if i + 1 < |rs| && r.addr + r.len == rs[i + 1].addr {
      var m := Run(rs[i].addr, rs[i].len + r.len + rs[i + 1].len);
      assert tail[2..] == rs[i + 2..];
      assert Given(tail, r) == [m] + rs[i + 2..];
      SplicedOne(rs, i, i + 2, m);
    } else {
      var m := Run(rs[i].addr, rs[i].len + r.len);
      assert Given(tail, r) == [m] + rs[i + 1..];
      SplicedOne(rs, i, i + 1, m);
    }
  }
}
