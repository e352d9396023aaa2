// The doubly linked ring list of the kernel (rt_list_*).  Nodes are numbered; next and prev
// hold the two pointer fields of every node.

module RingList {

  datatype Links = Links(next: seq<int>, prev: seq<int>)

  predicate Node(k: Links, x: int) { 0 <= x < |k.next| && |k.prev| == |k.next| }

  // rt_list_insert_after
  function InsertAfter(k: Links, l: int, n: int): (r: Links)
    requires Node(k, l) && Node(k, n) && Node(k, k.next[l])
    ensures |r.next| == |k.next| && |r.prev| == |k.prev|
  {
    var x := k.next[l];
    Links(k.next[n := x][l := n], k.prev[x := n][n := l])
  }

  // rt_list_insert_before
  function InsertBefore(k: Links, l: int, n: int): (r: Links)
    requires Node(k, l) && Node(k, n) && Node(k, k.prev[l])
    ensures |r.next| == |k.next| && |r.prev| == |k.prev|
  {
    var y := k.prev[l];
    Links(k.next[y := n][n := l], k.prev[n := y][l := n])
  }

  // rt_list_remove
  function Remove(k: Links, n: int): (r: Links)
    requires Node(k, n) && Node(k, k.next[n]) && Node(k, k.prev[n])
    ensures |r.next| == |k.next| && |r.prev| == |k.prev|
  {
    var x, y := k.next[n], k.prev[n];
    Links(k.next[y := x][n := n], k.prev[x := y][n := n])
  }

  // rt_list_isempty
  predicate IsEmpty(k: Links, l: int)
    requires Node(k, l)
  {
    k.next[l] == l
  }

  // --- rings -----------------------------------------------------------------------------------

  function Succ(s: seq<int>, i: int): int
    requires 0 <= i < |s|
  {
    if i + 1 < |s| then s[i + 1] else s[0]
  }

  function Pred(s: seq<int>, i: int): int
    requires 0 <= i < |s|
  {
    if i > 0 then s[i - 1] else s[|s| - 1]
  }

  ghost predicate Placed(k: Links, s: seq<int>, i: int)
    requires 0 <= i < |s|
  {
    Node(k, s[i]) && k.next[s[i]] == Succ(s, i) && k.prev[s[i]] == Pred(s, i)
  }

  ghost predicate Differ(s: seq<int>, i: int, j: int)
    requires 0 <= i < |s| && 0 <= j < |s|
  {
    s[i] != s[j]
  }

  ghost predicate NoDup(s: seq<int>) { forall i, j :: 0 <= i < j < |s| ==> Differ(s, i, j) }

  // s lists the nodes of one ring, in order.
  ghost predicate IsRing(k: Links, s: seq<int>) {
    && s != [] && NoDup(s)
    && forall i :: 0 <= i < |s| ==> Placed(k, s, i)
  }

  ghost predicate Alone(k: Links, x: int) { Node(k, x) && k.next[x] == x && k.prev[x] == x }

  function Inserted(s: seq<int>, i: int, n: int): (r: seq<int>)
    requires 0 <= i <= |s|
    ensures |r| == |s| + 1 && r[i] == n
    ensures forall j {:trigger r[j]} :: 0 <= j < i ==> r[j] == s[j]
    ensures forall j {:trigger r[j]} :: i < j < |r| ==> r[j] == s[j - 1]
  {
    s[..i] + [n] + s[i..]
  }

  function Removed(s: seq<int>, i: int): (r: seq<int>)
    requires 0 <= i < |s|
    ensures |r| == |s| - 1
    ensures forall j {:trigger r[j]} :: 0 <= j < i ==> r[j] == s[j]
    ensures forall j {:trigger r[j]} :: i <= j < |r| ==> r[j] == s[j + 1]
  {
    s[..i] + s[i + 1..]
  }

  lemma InsertedNoDup(s: seq<int>, i: int, n: int)
    requires NoDup(s) && n !in s && 0 <= i <= |s|
    ensures NoDup(Inserted(s, i, n))
  {
    var r := Inserted(s, i, n);
    forall a, b | 0 <= a < b < |r| ensures Differ(r, a, b) {
      if a != i && b != i { Distinct(s, if a < i then a else a - 1, if b < i then b else b - 1); }
    }
  }

  lemma RemovedNoDup(s: seq<int>, i: int)
    requires NoDup(s) && 0 <= i < |s|
    ensures NoDup(Removed(s, i)) && s[i] !in Removed(s, i)
  {
    var r := Removed(s, i);
    forall j | 0 <= j < |r| ensures r[j] != s[i] { Distinct(s, if j < i then j else j + 1, i); }
    forall a, b | 0 <= a < b < |r| ensures Differ(r, a, b) {
      Distinct(s, if a < i then a else a + 1, if b < i then b else b + 1);
    }
  }

  // Insert n behind the i-th node.
  lemma InsertAfterRing(k: Links, s: seq<int>, i: int, n: int)
    requires IsRing(k, s) && 0 <= i < |s| && Node(k, n) && n !in s
    ensures Node(k, s[i]) && Node(k, k.next[s[i]])
    ensures IsRing(InsertAfter(k, s[i], n), Inserted(s, i + 1, n))
  {
    assert Placed(k, s, i);
    var after := if i + 1 < |s| then i + 1 else 0;
    assert Placed(k, s, after);
    var r, k' := Inserted(s, i + 1, n), InsertAfter(k, s[i], n);
    InsertedNoDup(s, i + 1, n);
    forall j | 0 <= j < |r| ensures Placed(k', r, j) { InsertAfterPlace(k, s, i, n, j); }
  }

  lemma InsertAfterPlace(k: Links, s: seq<int>, i: int, n: int, j: int)
    requires IsRing(k, s) && 0 <= i < |s| && Node(k, n) && n !in s && 0 <= j <= |s|
    requires Node(k, s[i]) && Node(k, k.next[s[i]])
    ensures Placed(InsertAfter(k, s[i], n), Inserted(s, i + 1, n), j)
  {
    var r := Inserted(s, i + 1, n);
    var after := if i + 1 < |s| then i + 1 else 0;
    assert Placed(k, s, i) && Placed(k, s, after);
    if j != i + 1 {
      var o := if j <= i then j else j - 1;
      assert Placed(k, s, o) && r[j] == s[o];
      Distinct(s, o, i);
      Distinct(s, o, after);
    }
  }

  lemma Distinct(s: seq<int>, i: int, j: int)
    requires NoDup(s) && 0 <= i < |s| && 0 <= j < |s|
    ensures s[i] == s[j] <==> i == j
  {
    if i < j { assert Differ(s, i, j); }
    if j < i { assert Differ(s, j, i); }
  }

  // Inserting before a node is inserting after its predecessor.
  lemma BeforeIsAfter(k: Links, s: seq<int>, i: int, n: int)
    requires IsRing(k, s) && 0 <= i < |s| && Node(k, n) && n !in s
    ensures Node(k, s[i]) && Node(k, k.prev[s[i]]) && Node(k, Pred(s, i)) && Node(k, k.next[Pred(s, i)])
    ensures InsertBefore(k, s[i], n) == InsertAfter(k, Pred(s, i), n)
  {
    assert Placed(k, s, i);
    assert Placed(k, s, if i > 0 then i - 1 else |s| - 1);
  }

  // Take the i-th node out of a ring of at least two.
  lemma RemoveRing(k: Links, s: seq<int>, i: int)
    requires IsRing(k, s) && 0 <= i < |s| && |s| > 1
    ensures Node(k, s[i]) && Node(k, k.next[s[i]]) && Node(k, k.prev[s[i]])
    ensures IsRing(Remove(k, s[i]), Removed(s, i)) && Alone(Remove(k, s[i]), s[i])
  {
    assert Placed(k, s, i);
    var after, before := if i + 1 < |s| then i + 1 else 0, if i > 0 then i - 1 else |s| - 1;
    assert Placed(k, s, after) && Placed(k, s, before);
    var r, k' := Removed(s, i), Remove(k, s[i]);
    RemovedNoDup(s, i);
    forall j | 0 <= j < |r| ensures Placed(k', r, j) { RemovePlace(k, s, i, j); }
  }

  lemma RemovePlace(k: Links, s: seq<int>, i: int, j: int)
    requires IsRing(k, s) && 0 <= i < |s| && |s| > 1 && 0 <= j < |s| - 1
    requires Node(k, s[i]) && Node(k, k.next[s[i]]) && Node(k, k.prev[s[i]])
    ensures Placed(Remove(k, s[i]), Removed(s, i), j)
  {
    var r := Removed(s, i);
    var after, before := if i + 1 < |s| then i + 1 else 0, if i > 0 then i - 1 else |s| - 1;
    var o := if j < i then j else j + 1;
    assert Placed(k, s, i) && Placed(k, s, after) && Placed(k, s, before) && Placed(k, s, o);
    assert r[j] == s[o];
    Distinct(s, o, i);
    Distinct(s, o, after);
    Distinct(s, o, before);
  }

  // A node in no list stays as it is.
  lemma RemoveAlone(k: Links, n: int)
    requires Alone(k, n)
    ensures Remove(k, n) == k
  {
  }

  lemma RingFrame(k: Links, k': Links, s: seq<int>)
    requires IsRing(k, s) && |k'.next| == |k.next| && |k'.prev| == |k.prev|
    requires forall i :: 0 <= i < |s| && Node(k, s[i]) ==>
      k'.next[s[i]] == k.next[s[i]] && k'.prev[s[i]] == k.prev[s[i]]
    ensures IsRing(k', s)
  {
    forall i | 0 <= i < |s| ensures Placed(k', s, i) { assert Placed(k, s, i); }
  }
}
