// Lists of numbered things in the order of a key: timers by deadline, threads by priority.

module SortedList {
  import opened RingList

  ghost predicate InRange(list: seq<int>, n: int) { forall i :: 0 <= i < |list| ==> 1 <= list[i] < n }

  ghost predicate Sorted(list: seq<int>, key: seq<int>)
    requires InRange(list, |key|)
  {
    forall i, j :: 0 <= i <= j < |list| ==> NotAfter(list, key, i, j)
  }

  ghost predicate NotAfter(list: seq<int>, key: seq<int>, i: int, j: int)
    requires InRange(list, |key|) && 0 <= i < |list| && 0 <= j < |list|
  {
    key[list[i]] <= key[list[j]]
  }

  ghost predicate ListOk(list: seq<int>, key: seq<int>) {
    NoDup(list) && InRange(list, |key|) && Sorted(list, key)
  }

  // How many elements at the front of the list have a key of at most d.
  function Reach(list: seq<int>, key: seq<int>, d: int): (n: nat)
    requires InRange(list, |key|)
    ensures n <= |list|
  {
    if list == [] || key[list[0]] > d then 0 else 1 + Reach(list[1..], key, d)
  }

  lemma {:induction false} ReachBefore(list: seq<int>, key: seq<int>, d: int, i: int)
    requires InRange(list, |key|) && 0 <= i < Reach(list, key, d)
    ensures key[list[i]] <= d
  {
    if i > 0 { ReachBefore(list[1..], key, d, i - 1); }
  }

  lemma SortedTail(list: seq<int>, key: seq<int>)
    requires InRange(list, |key|) && Sorted(list, key) && list != []
    ensures Sorted(list[1..], key)
  {
    forall i, j | 0 <= i <= j < |list[1..]| ensures NotAfter(list[1..], key, i, j) {
      assert NotAfter(list, key, i + 1, j + 1);
    }
  }

  lemma {:induction false} ReachBehind(list: seq<int>, key: seq<int>, d: int, i: int)
    requires InRange(list, |key|) && Sorted(list, key) && Reach(list, key, d) <= i < |list|
    ensures key[list[i]] > d
  {
    if key[list[0]] > d {
      assert NotAfter(list, key, 0, i);
    } else {
      SortedTail(list, key);
      ReachBehind(list[1..], key, d, i - 1);
    }
  }

  // The number that separates the two sides is unique.
  lemma {:induction false} ReachUnique(list: seq<int>, key: seq<int>, d: int, n: int)
    requires InRange(list, |key|) && 0 <= n <= |list|
    requires forall i :: 0 <= i < n ==> key[list[i]] <= d
    requires n < |list| ==> key[list[n]] > d
    ensures Reach(list, key, d) == n
  {
    if n > 0 {
      assert key[list[0]] <= d;
      assert forall i :: 0 <= i < n - 1 ==> list[1..][i] == list[i + 1];
      ReachUnique(list[1..], key, d, n - 1);
    }
  }

  lemma {:induction false} ReachIgnores(list: seq<int>, key: seq<int>, d: int, t: int, v: int)
    requires InRange(list, |key|) && 0 <= t < |key| && t !in list
    ensures Reach(list, key[t := v], d) == Reach(list, key, d)
  {
    if list != [] { ReachIgnores(list[1..], key, d, t, v); }
  }

  lemma InsertedMembers(list: seq<int>, i: int, t: int, x: int)
    requires 0 <= i <= |list|
    ensures x in Inserted(list, i, t) <==> x == t || x in list
  {
    var r := Inserted(list, i, t);
    if x in list {
      var j :| 0 <= j < |list| && list[j] == x;
      assert r[if j < i then j else j + 1] == x;
    }
    if x in r {
      var j :| 0 <= j < |r| && r[j] == x;
      assert j == i || list[if j < i then j else j - 1] == x;
    }
    assert r[i] == t;
  }

  lemma InsertedSorted(list: seq<int>, key: seq<int>, t: int)
    requires InRange(list, |key|) && Sorted(list, key) && 1 <= t < |key|
    ensures InRange(Inserted(list, Reach(list, key, key[t]), t), |key|)
    ensures Sorted(Inserted(list, Reach(list, key, key[t]), t), key)
  {
    var n := Reach(list, key, key[t]);
    var r := Inserted(list, n, t);
    forall x | x in r ensures 1 <= x < |key| { InsertedMembers(list, n, t, x); }
    forall i, j | 0 <= i <= j < |r| ensures NotAfter(r, key, i, j) {
      if i < n { ReachBefore(list, key, key[t], i); }
      if j > n { ReachBehind(list, key, key[t], j - 1); }
      if i != n && j != n {
        assert NotAfter(list, key, if i < n then i else i - 1, if j < n then j else j - 1);
      }
    }
  }

  lemma KeyedInsert(list: seq<int>, key: seq<int>, t: int, v: int)
    requires ListOk(list, key) && 1 <= t < |key| && t !in list
    ensures ListOk(list, key[t := v])
    ensures ListOk(Inserted(list, Reach(list, key[t := v], v), t), key[t := v])
  {
    var key' := key[t := v];
    forall i, j | 0 <= i <= j < |list| ensures NotAfter(list, key', i, j) {
      assert NotAfter(list, key, i, j) && list[i] != t && list[j] != t;
    }
    InsertedSorted(list, key', t);
    InsertedNoDup(list, Reach(list, key', v), t);
  }

  function Without(list: seq<int>, t: int): (r: seq<int>)
    ensures forall x :: x in r <==> x in list && x != t
    ensures |r| <= |list|
  {
    if list == [] then [] else (if list[0] == t then [] else [list[0]]) + Without(list[1..], t)
  }

  lemma NoDupTail(list: seq<int>)
    requires NoDup(list) && list != []
    ensures NoDup(list[1..]) && list[0] !in list[1..]
  {
    assert list[1..] == Removed(list, 0);
    RemovedNoDup(list, 0);
  }

  lemma {:induction false} WithoutAt(list: seq<int>, t: int, i: int)
    requires NoDup(list) && 0 <= i < |list| && list[i] == t
    ensures Without(list, t) == Removed(list, i)
  {
    NoDupTail(list);
    if i == 0 {
      WithoutNone(list[1..], t);
    } else {
      WithoutAt(list[1..], t, i - 1);
      assert Removed(list, i) == [list[0]] + Removed(list[1..], i - 1);
    }
  }

  lemma {:induction false} WithoutNone(list: seq<int>, t: int)
    requires t !in list
    ensures Without(list, t) == list
  {
    if list != [] { WithoutNone(list[1..], t); }
  }

  lemma RemovedOk(list: seq<int>, key: seq<int>, i: int)
    requires ListOk(list, key) && 0 <= i < |list|
    ensures ListOk(Removed(list, i), key)
    ensures forall x :: x in Removed(list, i) <==> x in list && x != list[i]
  {
    RemovedNoDup(list, i);
    var r := Removed(list, i);
    forall a, b | 0 <= a <= b < |r| ensures NotAfter(r, key, a, b) {
      assert NotAfter(list, key, if a < i then a else a + 1, if b < i then b else b + 1);
    }
    WithoutAt(list, list[i], i);
  }

  lemma WithoutOk(list: seq<int>, key: seq<int>, t: int)
    requires ListOk(list, key)
    ensures ListOk(Without(list, t), key)
  {
    if t in list {
      var i :| 0 <= i < |list| && list[i] == t;
      WithoutAt(list, t, i);
      RemovedOk(list, key, i);
    } else {
      WithoutNone(list, t);
    }
  }

  lemma ConsOk(x: int, rest: seq<int>, key: seq<int>)
    requires ListOk(rest, key) && 1 <= x < |key|
    requires forall y :: y in rest ==> 1 <= y < |key| && key[x] <= key[y] && y != x
    ensures ListOk([x] + rest, key)
  {
    var r := [x] + rest;
    assert r == Inserted(rest, 0, x);
    InsertedNoDup(rest, 0, x);
    forall i, j | 0 <= i <= j < |r| ensures NotAfter(r, key, i, j) {
      if i > 0 { assert NotAfter(rest, key, i - 1, j - 1); }
      else if j > 0 { assert rest[j - 1] in rest; }
    }
  }

  // --- ties ------------------------------------------------------------------------------------------

  // By key, and by stamp within a key.
  ghost predicate Earlier(list: seq<int>, key: seq<int>, stamp: seq<int>, i: int, j: int)
    requires InRange(list, |key|) && |stamp| == |key| && 0 <= i < |list| && 0 <= j < |list|
  {
    key[list[i]] < key[list[j]] || (key[list[i]] == key[list[j]] && stamp[list[i]] < stamp[list[j]])
  }

  // The list is in the order of key and stamp, and clock, the next stamp, is after all of them.
  ghost predicate Ranked(list: seq<int>, key: seq<int>, stamp: seq<int>, clock: int) {
    && InRange(list, |key|) && |stamp| == |key|
    && (forall i, j :: 0 <= i < j < |list| ==> Earlier(list, key, stamp, i, j))
    && (forall i :: 0 <= i < |list| ==> Dated(list, stamp, clock, i))
  }

  ghost predicate Dated(list: seq<int>, stamp: seq<int>, clock: int, i: int)
    requires InRange(list, |stamp|) && 0 <= i < |list|
  {
    stamp[list[i]] < clock
  }

  lemma RankedInsert(list: seq<int>, key: seq<int>, stamp: seq<int>, clock: int, t: int, v: int)
    requires ListOk(list, key) && Ranked(list, key, stamp, clock) && 1 <= t < |key| && t !in list
    ensures Ranked(Inserted(list, Reach(list, key[t := v], v), t), key[t := v], stamp[t := clock], clock + 1)
  {
    var key', stamp' := key[t := v], stamp[t := clock];
    KeyedInsert(list, key, t, v);
    var n := Reach(list, key', v);
    var r := Inserted(list, n, t);
    forall i, j | 0 <= i < j < |r| ensures Earlier(r, key', stamp', i, j) {
      if i < n { ReachBefore(list, key', v, i); }
      if j > n { ReachBehind(list, key', v, j - 1); }
      if i != n && j != n {
        assert Earlier(list, key, stamp, if i < n then i else i - 1, if j < n then j else j - 1);
      }
      if j == n { assert Dated(list, stamp, clock, i); }
    }
    var clock' := clock + 1;
    forall i | 0 <= i < |r| ensures Dated(r, stamp', clock', i) {
      if i != n { assert Dated(list, stamp, clock, if i < n then i else i - 1); }
    }
  }

  lemma RankedLater(list: seq<int>, key: seq<int>, stamp: seq<int>, clock: int, later: int)
    requires Ranked(list, key, stamp, clock) && clock <= later
    ensures Ranked(list, key, stamp, later)
  {
    forall i | 0 <= i < |list| ensures Dated(list, stamp, later, i) { assert Dated(list, stamp, clock, i); }
  }

  lemma RankedOther(list: seq<int>, key: seq<int>, stamp: seq<int>, clock: int, t: int, v: int)
    requires Ranked(list, key, stamp, clock) && 0 <= t < |key| && t !in list
    ensures Ranked(list, key[t := v], stamp, clock)
  {
    var key' := key[t := v];
    forall i, j | 0 <= i < j < |list| ensures Earlier(list, key', stamp, i, j) {
      assert Earlier(list, key, stamp, i, j) && list[i] != t && list[j] != t;
    }
    forall i | 0 <= i < |list| ensures Dated(list, stamp, clock, i) { assert Dated(list, stamp, clock, i); }
  }

  lemma RankedRemove(list: seq<int>, key: seq<int>, stamp: seq<int>, clock: int, i: int)
    requires Ranked(list, key, stamp, clock) && 0 <= i < |list|
    ensures Ranked(Removed(list, i), key, stamp, clock)
  {
    var r := Removed(list, i);
    forall a, b | 0 <= a < b < |r| ensures Earlier(r, key, stamp, a, b) {
      assert Earlier(list, key, stamp, if a < i then a else a + 1, if b < i then b else b + 1);
    }
    forall a | 0 <= a < |r| ensures Dated(r, stamp, clock, a) {
      assert Dated(list, stamp, clock, if a < i then a else a + 1);
    }
  }

  lemma RankedWithout(list: seq<int>, key: seq<int>, stamp: seq<int>, clock: int, t: int)
    requires NoDup(list) && Ranked(list, key, stamp, clock)
    ensures Ranked(Without(list, t), key, stamp, clock)
  {
    if t in list {
      var i :| 0 <= i < |list| && list[i] == t;
      WithoutAt(list, t, i);
      RankedRemove(list, key, stamp, clock, i);
    } else {
      WithoutNone(list, t);
    }
  }

  // --- parts of a list in its order ------------------------------------------------------------------

  predicate Subsequence(r: seq<int>, p: seq<int>)
    decreases |p|
  {
    r == [] || (p != [] && if r[0] == p[0] then Subsequence(r[1..], p[1..]) else Subsequence(r, p[1..]))
  }

  lemma {:induction false} SubsequenceTail(r: seq<int>, p: seq<int>)
    requires r != [] && Subsequence(r, p)
    ensures Subsequence(r[1..], p)
    decreases |p|
  {
    if r[1..] != [] {
      if r[0] != p[0] {
        SubsequenceTail(r, p[1..]);
        SubsequenceWider(r[1..], p);
      } else {
        SubsequenceWider(r[1..], p);
      }
    }
  }

  // A subsequence of the tail is one of the whole.
  lemma {:induction false} SubsequenceWider(r: seq<int>, p: seq<int>)
    requires p != [] && Subsequence(r, p[1..])
    ensures Subsequence(r, p)
    decreases |p|, 0
  {
    if r != [] && r[0] == p[0] { SubsequenceTail(r, p[1..]); }
  }

  lemma {:induction false} SubsequenceSelf(p: seq<int>)
    ensures Subsequence(p, p)
  {
    if p != [] { SubsequenceSelf(p[1..]); }
  }

  lemma {:induction false} SubsequenceTrans(r: seq<int>, q: seq<int>, p: seq<int>)
    requires Subsequence(r, q) && Subsequence(q, p)
    ensures Subsequence(r, p)
    decreases |p|
  {
    if r != [] {
      if q[0] != p[0] {
        SubsequenceTrans(r, q, p[1..]);
        SubsequenceWider(r, p);
      } else if r[0] == q[0] {
        SubsequenceTrans(r[1..], q[1..], p[1..]);
      } else {
        SubsequenceTrans(r, q[1..], p[1..]);
      }
    }
  }

  lemma {:induction false} WithoutSubsequence(list: seq<int>, t: int)
    ensures Subsequence(Without(list, t), list)
  {
    if list != [] {
      WithoutSubsequence(list[1..], t);
      if list[0] == t {
        assert Without(list, t) == Without(list[1..], t);
        SubsequenceWider(Without(list, t), list);
      }
    }
  }

  lemma {:induction false} SubsequenceMembers(r: seq<int>, p: seq<int>, x: int)
    requires Subsequence(r, p) && x in r
    ensures x in p
    decreases |p|
  {
    if r[0] != p[0] { SubsequenceMembers(r, p[1..], x); }
    else if r[0] != x { SubsequenceMembers(r[1..], p[1..], x); }
  }

  lemma RankedTail(list: seq<int>, key: seq<int>, stamp: seq<int>, clock: int)
    requires Ranked(list, key, stamp, clock) && list != []
    ensures Ranked(list[1..], key, stamp, clock)
  {
    assert list[1..] == Removed(list, 0);
    RankedRemove(list, key, stamp, clock, 0);
  }

  // A part of a ranked list is ranked.
  lemma {:induction false} RankedPart(r: seq<int>, p: seq<int>, key: seq<int>, stamp: seq<int>, clock: int)
    requires Subsequence(r, p) && Ranked(p, key, stamp, clock)
    ensures Ranked(r, key, stamp, clock)
    decreases |p|
  {
    if r != [] {
      RankedTail(p, key, stamp, clock);
      if r[0] != p[0] {
        RankedPart(r, p[1..], key, stamp, clock);
      } else {
        RankedPart(r[1..], p[1..], key, stamp, clock);
        RankedCons(p, r, key, stamp, clock);
      }
    }
  }

  lemma RankedCons(p: seq<int>, r: seq<int>, key: seq<int>, stamp: seq<int>, clock: int)
    requires Ranked(p, key, stamp, clock) && p != [] && r != [] && r[0] == p[0]
    requires Subsequence(r[1..], p[1..]) && Ranked(r[1..], key, stamp, clock)
    ensures Ranked(r, key, stamp, clock)
  {
    forall i | 0 <= i < |r| ensures 1 <= r[i] < |key| {
      if i > 0 { assert r[i] == r[1..][i - 1]; }
    }
    forall i | 0 <= i < |r| ensures Dated(r, stamp, clock, i) {
      if i > 0 { assert Dated(r[1..], stamp, clock, i - 1); } else { assert Dated(p, stamp, clock, 0); }
    }
    forall i, j | 0 <= i < j < |r| ensures Earlier(r, key, stamp, i, j) {
      if i > 0 {
        assert Earlier(r[1..], key, stamp, i - 1, j - 1);
      } else {
        assert r[j] == r[1..][j - 1];
        SubsequenceMembers(r[1..], p[1..], r[j]);
        var k :| 0 <= k < |p[1..]| && p[1..][k] == r[j];
        assert Earlier(p, key, stamp, 0, k + 1);
      }
    }
  }
}
