// Many ring lists over one set of nodes.  The first nodes are the heads of the lists, the others
// are threads; a thread is in at most one list at a time.

module RingTable {
  import opened RingList
  import opened SortedList
  import opened WaitQueue

  const NOWHERE := -1

  // lists[h] is the list of head h, home[x] the head of the list that holds x.
  datatype Table = Table(lists: seq<seq<int>>, home: seq<int>)

  ghost predicate ListAt(k: Links, b: Table, h: int)
    requires 0 <= h < |b.lists|
  {
    && IsRing(k, [h] + b.lists[h])
    && forall x :: x in b.lists[h] <==> |b.lists| <= x < |b.home| && b.home[x] == h
  }

  ghost predicate Rings(k: Links, b: Table) {
    && |k.next| == |k.prev| == |b.home| && 1 <= |b.lists| <= |b.home|
    && (forall h :: 0 <= h < |b.lists| ==> ListAt(k, b, h))
    && (forall x :: |b.lists| <= x < |b.home| ==> b.home[x] == NOWHERE || 0 <= b.home[x] < |b.lists|)
    && (forall x :: |b.lists| <= x < |b.home| && b.home[x] == NOWHERE ==> Alone(k, x))
  }

  predicate IsThread(b: Table, x: int) { |b.lists| <= x < |b.home| }

  ghost function Entered(b: Table, h: int, i: int, t: int): Table
    requires 0 <= h < |b.lists| && 0 <= i <= |b.lists[h]| && 0 <= t < |b.home|
  {
    Table(b.lists[h := Inserted(b.lists[h], i, t)], b.home[t := h])
  }

  ghost function Left(b: Table, t: int): Table
    requires 0 <= t < |b.home| && (b.home[t] == NOWHERE || 0 <= b.home[t] < |b.lists|)
  {
    if b.home[t] == NOWHERE then b
    else Table(b.lists[b.home[t] := Without(b.lists[b.home[t]], t)], b.home[t := NOWHERE])
  }

  // A node of the ring of h is its head or one of its threads.
  lemma RingMember(k: Links, b: Table, h: int, i: int)
    requires Rings(k, b) && 0 <= h < |b.lists| && 0 <= i <= |b.lists[h]|
    ensures var x := ([h] + b.lists[h])[i];
      0 <= x < |b.home| && (x == h || (IsThread(b, x) && b.home[x] == h))
  {
    assert ListAt(k, b, h);
    var s := [h] + b.lists[h];
    if i > 0 { assert s[i] in b.lists[h]; } else { assert Placed(k, s, 0); }
  }

  // The nodes whose links a change at place i of the ring of h touches.
  lemma Touched(k: Links, b: Table, h: int, i: int)
    requires Rings(k, b) && 0 <= h < |b.lists| && 0 <= i <= |b.lists[h]|
    ensures var x := ([h] + b.lists[h])[i];
      && Node(k, x) && Node(k, k.next[x]) && Node(k, k.prev[x])
      && (k.next[x] == h || (IsThread(b, k.next[x]) && b.home[k.next[x]] == h))
      && (k.prev[x] == h || (IsThread(b, k.prev[x]) && b.home[k.prev[x]] == h))
  {
    var s := [h] + b.lists[h];
    assert ListAt(k, b, h);
    assert Placed(k, s, i);
    RingMember(k, b, h, if i + 1 < |s| then i + 1 else 0);
    RingMember(k, b, h, if i > 0 then i - 1 else |s| - 1);
    RingMember(k, b, h, i);
  }

  // A change that leaves the links of the nodes of another ring alone leaves that ring.
  lemma OtherRing(k: Links, b: Table, k': Links, g: int)
    requires Rings(k, b) && 0 <= g < |b.lists| && |k'.next| == |k.next| && |k'.prev| == |k.prev|
    requires forall x :: 0 <= x < |b.home| && (x == g || (IsThread(b, x) && b.home[x] == g)) ==>
      k'.next[x] == k.next[x] && k'.prev[x] == k.prev[x]
    ensures IsRing(k', [g] + b.lists[g])
  {
    var s := [g] + b.lists[g];
    assert ListAt(k, b, g);
    forall i | 0 <= i < |s| && Node(k, s[i]) ensures k'.next[s[i]] == k.next[s[i]] && k'.prev[s[i]] == k.prev[s[i]] {
      RingMember(k, b, g, i);
    }
    RingFrame(k, k', s);
  }

  // rt_list_insert_before in front of the i-th thread of a list, or in front of its head for the end.
  function NodeBefore(b: Table, h: int, i: int): int
    requires 0 <= h < |b.lists| && 0 <= i <= |b.lists[h]|
  {
    if i < |b.lists[h]| then b.lists[h][i] else h
  }

  lemma EnterRing(k: Links, b: Table, h: int, i: int, t: int)
    requires Rings(k, b) && 0 <= h < |b.lists| && 0 <= i <= |b.lists[h]| && IsThread(b, t) && b.home[t] == NOWHERE
    ensures var n := NodeBefore(b, h, i);
      && Node(k, n) && Node(k, t) && Node(k, k.prev[n])
      && IsRing(InsertBefore(k, n, t), [h] + Inserted(b.lists[h], i, t))
      && (forall x :: 0 <= x < |b.home| && x != t && x != h && !(IsThread(b, x) && b.home[x] == h) ==>
            InsertBefore(k, n, t).next[x] == k.next[x] && InsertBefore(k, n, t).prev[x] == k.prev[x])
  {
    assert ListAt(k, b, h);
    var s := [h] + b.lists[h];
    var j := if i < |b.lists[h]| then i + 1 else 0;
    assert t !in s;
    BeforeIsAfter(k, s, j, t);
    assert Pred(s, j) == s[i] && s[j] == NodeBefore(b, h, i);
    InsertAfterRing(k, s, i, t);
    assert Inserted(s, i + 1, t) == [h] + Inserted(b.lists[h], i, t);
    Touched(k, b, h, i);
    RingMember(k, b, h, i);
  }

  lemma EnterRings(k: Links, b: Table, h: int, i: int, t: int)
    requires Rings(k, b) && 0 <= h < |b.lists| && 0 <= i <= |b.lists[h]| && IsThread(b, t) && b.home[t] == NOWHERE
    ensures var n := NodeBefore(b, h, i);
      Node(k, n) && Node(k, t) && Node(k, k.prev[n]) && Rings(InsertBefore(k, n, t), Entered(b, h, i, t))
  {
    EnterRing(k, b, h, i, t);
    var k', b' := InsertBefore(k, NodeBefore(b, h, i), t), Entered(b, h, i, t);
    forall g | 0 <= g < |b.lists| ensures ListAt(k', b', g) {
      assert ListAt(k, b, g);
      if g == h {
        forall x ensures x in b'.lists[h] <==> x == t || x in b.lists[h] { InsertedMembers(b.lists[h], i, t, x); }
      } else {
        OtherRing(k, b, k', g);
      }
    }
    forall x | IsThread(b, x) && b'.home[x] == NOWHERE ensures Alone(k', x) { assert Alone(k, x); }
  }

  lemma LeaveRing(k: Links, b: Table, t: int)
    requires Rings(k, b) && IsThread(b, t) && b.home[t] != NOWHERE
    ensures Node(k, t) && Node(k, k.next[t]) && Node(k, k.prev[t])
    ensures var h := b.home[t];
      && IsRing(Remove(k, t), [h] + Without(b.lists[h], t)) && Alone(Remove(k, t), t)
      && (forall x :: 0 <= x < |b.home| && x != t && x != h && !(IsThread(b, x) && b.home[x] == h) ==>
            Remove(k, t).next[x] == k.next[x] && Remove(k, t).prev[x] == k.prev[x])
  {
    var h := b.home[t];
    assert ListAt(k, b, h);
    assert t in b.lists[h];
    var i :| 0 <= i < |b.lists[h]| && b.lists[h][i] == t;
    var s := [h] + b.lists[h];
    assert s[i + 1] == t;
    RemoveRing(k, s, i + 1);
    RemovedBehindHead(h, b.lists[h], i);
    Touched(k, b, h, i + 1);
  }

  lemma RemovedBehindHead(h: int, list: seq<int>, i: int)
    requires NoDup([h] + list) && 0 <= i < |list|
    ensures Removed([h] + list, i + 1) == [h] + Without(list, list[i])
  {
    assert ([h] + list)[1..] == list;
    NoDupTail([h] + list);
    WithoutAt(list, list[i], i);
    assert Removed([h] + list, i + 1) == [h] + Removed(list, i);
  }

  // rt_list_remove of a thread, whether it is in a list or not.
  lemma LeaveRings(k: Links, b: Table, t: int)
    requires Rings(k, b) && IsThread(b, t)
    ensures Node(k, t) && Node(k, k.next[t]) && Node(k, k.prev[t])
    ensures Rings(Remove(k, t), Left(b, t))
  {
    if b.home[t] == NOWHERE {
      assert Alone(k, t);
      RemoveAlone(k, t);
    } else {
      LeaveRing(k, b, t);
      var k', b', h := Remove(k, t), Left(b, t), b.home[t];
      forall g | 0 <= g < |b.lists| ensures ListAt(k', b', g) {
        assert ListAt(k, b, g);
        if g != h { OtherRing(k, b, k', g); }
      }
      forall x | IsThread(b, x) && b'.home[x] == NOWHERE ensures Alone(k', x) {
        if x != t { assert Alone(k, x); }
      }
    }
  }

  // rt_list_isempty and the first node, read off the links.
  lemma FirstOf(k: Links, b: Table, h: int)
    requires Rings(k, b) && 0 <= h < |b.lists|
    ensures Node(k, h) && (k.next[h] == h <==> b.lists[h] == [])
    ensures b.lists[h] != [] ==> k.next[h] == b.lists[h][0] && IsThread(b, k.next[h]) && b.home[k.next[h]] == h
  {
    assert ListAt(k, b, h);
    var s := [h] + b.lists[h];
    assert Placed(k, s, 0);
    if b.lists[h] != [] {
      RingMember(k, b, h, 1);
      Distinct(s, 0, 1);
    }
  }

  // Walking the list: the node after the i-th.
  lemma NextOf(k: Links, b: Table, h: int, i: int)
    requires Rings(k, b) && 0 <= h < |b.lists| && 0 <= i < |b.lists[h]|
    ensures Node(k, b.lists[h][i]) && k.next[b.lists[h][i]] == NodeBefore(b, h, i + 1)
    ensures NodeBefore(b, h, i) != h && IsThread(b, b.lists[h][i])
  {
    assert ListAt(k, b, h);
    var s := [h] + b.lists[h];
    assert s[i + 1] == b.lists[h][i];
    assert Placed(k, s, i + 1);
    RingMember(k, b, h, i + 1);
    Distinct(s, 0, i + 1);
  }

  lemma ListNoDup(k: Links, b: Table, h: int)
    requires Rings(k, b) && 0 <= h < |b.lists|
    ensures NoDup(b.lists[h]) && InRange(b.lists[h], |b.home|)
  {
    assert ListAt(k, b, h);
    var s := [h] + b.lists[h];
    assert s[1..] == b.lists[h];
    NoDupTail(s);
    forall i | 0 <= i < |b.lists[h]| ensures 1 <= b.lists[h][i] < |b.home| { assert b.lists[h][i] in b.lists[h]; }
  }
}
