// The rows of the timer skip list.  Row l links the timers of height at least levels - l, in the
// order of the bottom row; node 0 is the list head.

module TimerRows {
  import opened RingList
  import opened SortedList
  import opened TimerSpec

  // The timers of at least the given height.
  ghost function Tall(list: seq<int>, height: seq<int>, least: int): (r: seq<int>)
    requires InRange(list, |height|)
    ensures InRange(r, |height|) && forall x :: x in r ==> x in list
  {
    if list == [] then []
    else
      var rest := Tall(list[1..], height, least);
      if height[list[0]] >= least then [list[0]] + rest else rest
  }

  // Row k links exactly the timers r, in this order; the link field of every other timer is free.
  ghost predicate RowOk(k: Links, n: int, r: seq<int>) {
    && |k.next| == |k.prev| == n
    && InRange(r, n) && IsRing(k, [0] + r)
    && forall x :: 1 <= x < n && x !in r ==> Alone(k, x)
  }

  ghost predicate RowAt(ks: seq<Links>, list: seq<int>, height: seq<int>, l: int)
    requires 0 <= l < |ks| && InRange(list, |height|)
  {
    RowOk(ks[l], |height|, Tall(list, height, |ks| - l))
  }

  ghost predicate RowsOk(ks: seq<Links>, list: seq<int>, height: seq<int>) {
    && InRange(list, |height|)
    && forall l :: 0 <= l < |ks| ==> RowAt(ks, list, height, l)
  }

  // --- one row -------------------------------------------------------------------------------------

  lemma EmptyRow(k: Links, n: int)
    requires |k.next| == |k.prev| == n && n > 0 && forall x :: 0 <= x < n ==> Alone(k, x)
    ensures RowOk(k, n, [])
  {
    var s := [0] + [];
    assert forall i :: 0 <= i < |s| ==> Placed(k, s, i) by { assert Alone(k, 0); assert s == [0]; }
  }

  lemma RowNext(k: Links, n: int, r: seq<int>, i: int)
    requires RowOk(k, n, r) && 0 <= i <= |r|
    ensures 0 <= ([0] + r)[i] < n
    ensures i < |r| ==> k.next[([0] + r)[i]] == r[i]
    ensures i == |r| <==> ([0] + r)[i] == k.prev[0]
  {
    var s := [0] + r;
    assert Placed(k, s, i) && Placed(k, s, 0);
    assert k.prev[0] == s[|r|];
    Distinct(s, i, |r|);
  }

  lemma RowNoDup(k: Links, n: int, r: seq<int>)
    requires RowOk(k, n, r)
    ensures NoDup(r)
  {
    assert ([0] + r)[1..] == r;
    NoDupTail([0] + r);
  }

  lemma RowInsert(k: Links, n: int, r: seq<int>, i: int, t: int)
    requires RowOk(k, n, r) && 0 <= i <= |r| && 1 <= t < n && t !in r
    ensures Node(k, ([0] + r)[i]) && Node(k, k.next[([0] + r)[i]])
    ensures RowOk(InsertAfter(k, ([0] + r)[i], t), n, Inserted(r, i, t))
  {
    var s := [0] + r;
    InsertAfterRing(k, s, i, t);
    var k', r' := InsertAfter(k, s[i], t), Inserted(r, i, t);
    assert [0] + r' == Inserted(s, i + 1, t);
    forall x | 1 <= x < n && x !in r' ensures Alone(k', x) {
      InsertedMembers(r, i, t, x);
      assert Alone(k, x);
      RowPlace(k, n, r, i);
    }
  }

  // The two ends of a link of the row are linked themselves.
  lemma RowPlace(k: Links, n: int, r: seq<int>, i: int)
    requires RowOk(k, n, r) && 0 <= i <= |r|
    ensures var x := ([0] + r)[i]; 0 <= x < n && (x == 0 || x in r)
    ensures var x := ([0] + r)[i]; k.next[x] == 0 || k.next[x] in r
    ensures var x := ([0] + r)[i]; k.prev[x] == 0 || k.prev[x] in r
  {
    var s := [0] + r;
    assert Placed(k, s, i);
    assert forall x :: x in s ==> x == 0 || x in r;
    assert s[i] in s && Succ(s, i) in s && Pred(s, i) in s;
  }

  lemma RowRemove(k: Links, n: int, r: seq<int>, t: int)
    requires RowOk(k, n, r) && 1 <= t < n
    ensures Node(k, t) && Node(k, k.next[t]) && Node(k, k.prev[t])
    ensures RowOk(Remove(k, t), n, Without(r, t))
  {
    if t in r {
      var i :| 0 <= i < |r| && r[i] == t;
      RowTake(k, n, r, i);
      RowNoDup(k, n, r);
      WithoutAt(r, t, i);
    } else {
      assert Alone(k, t);
      RemoveAlone(k, t);
      WithoutNone(r, t);
    }
  }

  lemma RowTake(k: Links, n: int, r: seq<int>, i: int)
    requires RowOk(k, n, r) && 0 <= i < |r|
    ensures Node(k, r[i]) && Node(k, k.next[r[i]]) && Node(k, k.prev[r[i]])
    ensures RowOk(Remove(k, r[i]), n, Removed(r, i))
  {
    var s := [0] + r;
    var t := r[i];
    assert s[i + 1] == t;
    RemoveRing(k, s, i + 1);
    var k', r' := Remove(k, t), Removed(r, i);
    assert [0] + r' == Removed(s, i + 1);
    RowNoDup(k, n, r);
    WithoutAt(r, t, i);
    forall x | 1 <= x < n && x !in r' ensures Alone(k', x) {
      if x != t {
        assert Alone(k, x);
        RowPlace(k, n, r, i + 1);
      }
    }
  }

  // --- all rows ------------------------------------------------------------------------------------

  lemma {:induction false} TallAll(list: seq<int>, height: seq<int>, least: int)
    requires InRange(list, |height|) && forall x :: x in list ==> height[x] >= least
    ensures Tall(list, height, least) == list
  {
    if list != [] {
      assert list[0] in list;
      TallAll(list[1..], height, least);
    }
  }

  // Every row is a sub-sequence of the row below it.
  lemma {:induction false} TallOfTall(list: seq<int>, height: seq<int>, low: int, high: int)
    requires InRange(list, |height|) && low <= high
    ensures Tall(Tall(list, height, low), height, high) == Tall(list, height, high)
  {
    if list != [] {
      TallOfTall(list[1..], height, low, high);
      var rest := Tall(list[1..], height, low);
      if height[list[0]] >= low { assert ([list[0]] + rest)[1..] == rest; }
    }
  }

  lemma {:induction false} TallOk(list: seq<int>, height: seq<int>, least: int, deadline: seq<int>)
    requires ListOk(list, deadline) && |height| == |deadline|
    ensures ListOk(Tall(list, height, least), deadline)
  {
    if list != [] {
      NoDupTail(list);
      SortedTail(list, deadline);
      TallOk(list[1..], height, least, deadline);
      if height[list[0]] >= least {
        var rest := Tall(list[1..], height, least);
        forall x | x in rest ensures 1 <= x < |deadline| && deadline[list[0]] <= deadline[x] && x != list[0] {
          assert x in list[1..];
          var j :| 0 <= j < |list[1..]| && list[1..][j] == x;
          assert NotAfter(list, deadline, 0, j + 1);
        }
        ConsOk(list[0], rest, deadline);
      }
    }
  }

  lemma {:induction false} TallIgnores(list: seq<int>, height: seq<int>, least: int, t: int, h: int)
    requires InRange(list, |height|) && t !in list && 0 <= t < |height|
    ensures Tall(list, height[t := h], least) == Tall(list, height, least)
  {
    if list != [] { TallIgnores(list[1..], height, least, t, h); }
  }

  lemma {:induction false} TallWithout(list: seq<int>, height: seq<int>, least: int, t: int)
    requires InRange(list, |height|)
    ensures InRange(Without(list, t), |height|)
    ensures Tall(Without(list, t), height, least) == Without(Tall(list, height, least), t)
  {
    if list != [] {
      TallWithout(list[1..], height, least, t);
      var rest, u := Tall(list[1..], height, least), Without(list[1..], t);
      TallCons(list[0], u, height, least);
      WithoutCons(list[0], rest, t);
      WithoutCons(list[0], list[1..], t);
      assert [list[0]] + list[1..] == list;
    }
  }

  lemma TallCons(x: int, rest: seq<int>, height: seq<int>, least: int)
    requires InRange(rest, |height|) && 1 <= x < |height|
    ensures InRange([x] + rest, |height|)
    ensures Tall([x] + rest, height, least) ==
      if height[x] >= least then [x] + Tall(rest, height, least) else Tall(rest, height, least)
  {
    assert ([x] + rest)[1..] == rest;
  }

  lemma WithoutCons(x: int, rest: seq<int>, t: int)
    ensures Without([x] + rest, t) == if x == t then Without(rest, t) else [x] + Without(rest, t)
  {
    assert ([x] + rest)[1..] == rest;
  }

  ghost function Place(list: seq<int>, deadline: seq<int>, v: int, t: int): seq<int>
    requires InRange(list, |deadline|)
  {
    Inserted(list, Reach(list, deadline, v), t)
  }

  // The timer t, whose deadline v is set, is linked and gets its stamp.
  ghost function Entered(s: Timers, t: int, v: int): Timers
    requires Known(s, t) && InRange(s.list, |s.deadline|)
  {
    s.(list := Place(s.list, s.deadline, v, t), active := s.active[t := true],
       stamp := s.stamp[t := s.starts], starts := s.starts + 1)
  }

  lemma PlaceOk(s: Timers, t: int, v: int, out: int)
    requires Ok(s, out) && Known(s, t) && !s.active[t] && t != out
    requires s.deadline[t] == v && s.now <= v < s.now + HALF
    ensures Ok(Entered(s, t, v), out)
  {
    assert t !in s.list;
    assert s.deadline[t := v] == s.deadline;
    KeyedInsert(s.list, s.deadline, t, v);
    RankedInsert(s.list, s.deadline, s.stamp, s.starts, t, v);
    StartMembers(s.list, Reach(s.list, s.deadline, v), s.deadline, s.active, t, v, s.now, out);
  }

  lemma PlaceCons(x: int, rest: seq<int>, deadline: seq<int>, v: int, t: int)
    requires InRange(rest, |deadline|) && 1 <= x < |deadline| && deadline[x] <= v
    ensures InRange([x] + rest, |deadline|)
    ensures Place([x] + rest, deadline, v, t) == [x] + Place(rest, deadline, v, t)
  {
    assert ([x] + rest)[1..] == rest;
    var n := Reach(rest, deadline, v);
    assert Inserted([x] + rest, n + 1, t) == [x] + Inserted(rest, n, t);
  }

  // Inserting by deadline into the bottom row shows in each row as inserting by deadline there,
  // if the timer is tall enough, and not at all otherwise.
  lemma {:induction false} TallPlace(list: seq<int>, deadline: seq<int>, height: seq<int>, least: int, v: int, t: int)
    requires ListOk(list, deadline) && |height| == |deadline| && 1 <= t < |height|
    ensures InRange(Place(list, deadline, v, t), |height|)
    ensures Tall(Place(list, deadline, v, t), height, least) ==
      if height[t] >= least then Place(Tall(list, height, least), deadline, v, t) else Tall(list, height, least)
  {
    var r := Tall(list, height, least);
    if list == [] || deadline[list[0]] > v {
      assert Place(list, deadline, v, t) == [t] + list;
      TallCons(t, list, height, least);
      FirstAfter(r, list, deadline, v);
      assert Place(r, deadline, v, t) == [t] + r;
    } else {
      var x, tail := list[0], list[1..];
      NoDupTail(list);
      SortedTail(list, deadline);
      TallPlace(tail, deadline, height, least, v, t);
      assert list == [x] + tail;
      PlaceCons(x, tail, deadline, v, t);
      TallCons(x, Place(tail, deadline, v, t), height, least);
      PlaceCons(x, Tall(tail, height, least), deadline, v, t);
    }
  }

  lemma FirstAfter(r: seq<int>, list: seq<int>, deadline: seq<int>, v: int)
    requires InRange(list, |deadline|) && Sorted(list, deadline) && (list == [] || deadline[list[0]] > v)
    requires InRange(r, |deadline|) && forall x :: x in r ==> x in list
    ensures Reach(r, deadline, v) == 0
  {
    if r != [] {
      assert r[0] in list;
      var i :| 0 <= i < |list| && list[i] == r[0];
      assert NotAfter(list, deadline, 0, i);
    }
  }

  // --- the search ----------------------------------------------------------------------------------

  // Where the search of one row ends: the last node that is not after v.
  ghost function Stand(r: seq<int>, deadline: seq<int>, v: int): int
    requires InRange(r, |deadline|)
  {
    ([0] + r)[Reach(r, deadline, v)]
  }

  // The node where the search of a row ends also lies in the row below, and no later than that
  // row's search will go.
  lemma Descend(upper: seq<int>, lower: seq<int>, deadline: seq<int>, v: int) returns (i: int)
    requires ListOk(upper, deadline) && ListOk(lower, deadline)
    requires forall x :: x in upper ==> x in lower
    ensures 0 <= i <= Reach(lower, deadline, v) && ([0] + lower)[i] == Stand(upper, deadline, v)
  {
    var n := Reach(upper, deadline, v);
    if n == 0 {
      i := 0;
    } else {
      var x := upper[n - 1];
      assert x in upper && x in lower;
      ReachBefore(upper, deadline, v, n - 1);
      var j :| 0 <= j < |lower| && lower[j] == x;
      if j >= Reach(lower, deadline, v) { ReachBehind(lower, deadline, v, j); }
      i := j + 1;
    }
  }

  ghost predicate Linked(k: Links, k': Links, p: int, t: int) {
    Node(k, p) && Node(k, t) && Node(k, k.next[p]) && k' == InsertAfter(k, p, t)
  }

  // t was linked behind the given nodes in the lowest h rows, and in no other.
  ghost predicate LinkedBelow(ks: seq<Links>, ks': seq<Links>, heads: seq<int>, t: int, h: int) {
    && |ks'| == |ks| == |heads|
    && forall l :: 0 <= l < |ks| ==> if l >= |ks| - h then Linked(ks[l], ks'[l], heads[l], t) else ks'[l] == ks[l]
  }

  ghost predicate Stands(list: seq<int>, height: seq<int>, deadline: seq<int>, v: int, heads: seq<int>, l: int)
    requires InRange(list, |height|) && |height| == |deadline| && 0 <= l < |heads|
  {
    heads[l] == Stand(Tall(list, height, |heads| - l), deadline, v)
  }

  lemma StandsMore(list: seq<int>, height: seq<int>, deadline: seq<int>, v: int, was: seq<int>, heads: seq<int>, l: int)
    requires InRange(list, |height|) && |height| == |deadline| && 0 <= l < |was|
    requires forall j :: 0 <= j < l ==> Stands(list, height, deadline, v, was, j)
    requires heads == was[l := Stand(Tall(list, height, |was| - l), deadline, v)]
    ensures forall j :: 0 <= j <= l ==> Stands(list, height, deadline, v, heads, j)
  {
    forall j | 0 <= j <= l ensures Stands(list, height, deadline, v, heads, j) {
      if j < l { assert Stands(list, height, deadline, v, was, j); }
    }
  }

  // The search of the next row starts where the search of row l ended.
  lemma NextRow(list: seq<int>, height: seq<int>, deadline: seq<int>, v: int, heads: seq<int>, l: int) returns (i: int)
    requires ListOk(list, deadline) && |height| == |deadline| && 0 <= l && l + 1 < |heads|
    requires Stands(list, height, deadline, v, heads, l)
    ensures Starts(list, height, deadline, v, |heads| - l - 1, heads[l], i)
  {
    var upper, lower := Tall(list, height, |heads| - l), Tall(list, height, |heads| - l - 1);
    TallOfTall(list, height, |heads| - l - 1, |heads| - l);
    TallOk(list, height, |heads| - l, deadline);
    TallOk(list, height, |heads| - l - 1, deadline);
    i := Descend(upper, lower, deadline, v);
  }

  // from is the i-th node of the row of the given height, and not past where its search will end.
  ghost predicate Starts(list: seq<int>, height: seq<int>, deadline: seq<int>, v: int, least: int, from: int, i: int)
    requires InRange(list, |height|) && |height| == |deadline|
  {
    var r := Tall(list, height, least);
    0 <= i <= Reach(r, deadline, v) && from == ([0] + r)[i]
  }

  // The first l rows are searched; the next starts at from.
  ghost predicate Searched(list: seq<int>, height: seq<int>, deadline: seq<int>, v: int, heads: seq<int>, l: int,
                           from: int, i: int) {
    && InRange(list, |height|) && |height| == |deadline| && 0 <= l <= |heads|
    && (forall j :: 0 <= j < l ==> Stands(list, height, deadline, v, heads, j))
    && (l < |heads| ==> Starts(list, height, deadline, v, |heads| - l, from, i))
  }

  lemma SearchBegins(list: seq<int>, height: seq<int>, deadline: seq<int>, v: int, heads: seq<int>)
    requires InRange(list, |height|) && |height| == |deadline|
    ensures Searched(list, height, deadline, v, heads, 0, 0, 0)
  {
  }

  lemma Linkable(ks: seq<Links>, list: seq<int>, height: seq<int>, deadline: seq<int>, v: int, t: int,
                 heads: seq<int>, l: int)
    requires RowsOk(ks, list, height) && |height| == |deadline| && 1 <= t < |height| && t !in list
    requires |heads| == |ks| && 0 <= l < |ks| && Stands(list, height, deadline, v, heads, l)
    ensures Node(ks[l], heads[l]) && Node(ks[l], t) && Node(ks[l], ks[l].next[heads[l]])
  {
    assert RowAt(ks, list, height, l);
    var r := Tall(list, height, |ks| - l);
    RowInsert(ks[l], |height|, r, Reach(r, deadline, v), t);
  }

  // Whatever height is chosen, the rows then are those of the list with t inserted by deadline.
  lemma LinkRows(ks: seq<Links>, ks': seq<Links>, list: seq<int>, height: seq<int>, deadline: seq<int>,
                 v: int, t: int, h: int, heads: seq<int>)
    requires RowsOk(ks, list, height) && ListOk(list, deadline) && |height| == |deadline|
    requires 1 <= t < |height| && t !in list && LinkedBelow(ks, ks', heads, t, h)
    requires forall l :: 0 <= l < |ks| ==> Stands(list, height, deadline, v, heads, l)
    ensures RowsOk(ks', Place(list, deadline, v, t), height[t := h])
  {
    var list', height' := Place(list, deadline, v, t), height[t := h];
    TallPlace(list, deadline, height', 1, v, t);
    forall l | 0 <= l < |ks| ensures RowAt(ks', list', height', l) {
      assert RowAt(ks, list, height, l) && Stands(list, height, deadline, v, heads, l);
      LinkRow(ks[l], ks'[l], list, height, deadline, v, t, h, heads[l], |ks| - l);
    }
  }

  lemma LinkRow(k: Links, k': Links, list: seq<int>, height: seq<int>, deadline: seq<int>, v: int, t: int, h: int,
                p: int, least: int)
    requires ListOk(list, deadline) && |height| == |deadline| && 1 <= t < |height| && t !in list
    requires RowOk(k, |height|, Tall(list, height, least)) && p == Stand(Tall(list, height, least), deadline, v)
    requires if h >= least then Linked(k, k', p, t) else k' == k
    ensures InRange(Place(list, deadline, v, t), |height|)
    ensures RowOk(k', |height|, Tall(Place(list, deadline, v, t), height[t := h], least))
  {
    var r := Tall(list, height, least);
    TallIgnores(list, height, least, t, h);
    TallPlace(list, deadline, height[t := h], least, v, t);
    if h >= least { RowLinked(k, k', |height|, r, deadline, v, p, t); }
  }

  lemma RowLinked(k: Links, k': Links, n: int, r: seq<int>, deadline: seq<int>, v: int, p: int, t: int)
    requires RowOk(k, n, r) && |deadline| == n && 1 <= t < n && t !in r
    requires p == Stand(r, deadline, v) && Linked(k, k', p, t)
    ensures RowOk(k', n, Place(r, deadline, v, t))
  {
    RowInsert(k, n, r, Reach(r, deadline, v), t);
  }

  ghost predicate UnlinkedAll(ks: seq<Links>, ks': seq<Links>, t: int) {
    && |ks'| == |ks|
    && forall l :: 0 <= l < |ks| ==> Unlinked(ks[l], ks'[l], t)
  }

  ghost predicate Unlinked(k: Links, k': Links, t: int) {
    Node(k, t) && Node(k, k.next[t]) && Node(k, k.prev[t]) && k' == Remove(k, t)
  }

  lemma UnlinkRows(ks: seq<Links>, ks': seq<Links>, list: seq<int>, height: seq<int>, t: int)
    requires RowsOk(ks, list, height) && 1 <= t < |height| && UnlinkedAll(ks, ks', t)
    ensures RowsOk(ks', Without(list, t), height)
  {
    TallWithout(list, height, 1, t);
    forall l | 0 <= l < |ks| ensures RowAt(ks', Without(list, t), height, l) {
      UnlinkRow(ks, ks', list, height, t, l);
    }
  }

  lemma UnlinkRow(ks: seq<Links>, ks': seq<Links>, list: seq<int>, height: seq<int>, t: int, l: int)
    requires RowsOk(ks, list, height) && 1 <= t < |height| && UnlinkedAll(ks, ks', t) && 0 <= l < |ks|
    ensures InRange(Without(list, t), |height|) && RowAt(ks', Without(list, t), height, l)
  {
    assert RowAt(ks, list, height, l) && Unlinked(ks[l], ks'[l], t);
    TallWithout(list, height, |ks| - l, t);
    RowRemove(ks[l], |height|, Tall(list, height, |ks| - l), t);
  }
}
