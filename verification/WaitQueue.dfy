// The queue of threads that wait on an IPC object, and what all the IPC objects share.

module WaitQueue {
  import opened RingList
  import opened SortedList

  // rt_ipc_list_suspend: to the end, or in front of the first thread of lower priority.
  function Enqueue(q: seq<int>, prio: seq<int>, t: int, byPrio: bool): (r: seq<int>)
    requires InRange(q, |prio|) && 1 <= t < |prio|
    ensures |r| == |q| + 1
  {
    if byPrio then Inserted(q, Reach(q, prio, prio[t]), t) else q + [t]
  }

  lemma EnqueueMembers(q: seq<int>, prio: seq<int>, t: int, byPrio: bool)
    requires InRange(q, |prio|) && 1 <= t < |prio|
    ensures InRange(Enqueue(q, prio, t, byPrio), |prio|)
    ensures forall x :: x in Enqueue(q, prio, t, byPrio) <==> x == t || x in q
  {
    var r := Enqueue(q, prio, t, byPrio);
    if byPrio {
      forall x ensures x in r <==> x == t || x in q { InsertedMembers(q, Reach(q, prio, prio[t]), t, x); }
    }
    forall i | 0 <= i < |r| ensures 1 <= r[i] < |prio| {
      if r[i] in q { var j :| 0 <= j < |q| && q[j] == r[i]; } else { assert r[i] in r; }
    }
  }

  lemma EnqueueNoDup(q: seq<int>, prio: seq<int>, t: int, byPrio: bool)
    requires InRange(q, |prio|) && 1 <= t < |prio| && NoDup(q) && t !in q
    ensures NoDup(Enqueue(q, prio, t, byPrio))
  {
    if !byPrio { assert q + [t] == Inserted(q, |q|, t); }
    InsertedNoDup(q, if byPrio then Reach(q, prio, prio[t]) else |q|, t);
  }

  lemma EnqueueSorted(q: seq<int>, prio: seq<int>, t: int)
    requires ListOk(q, prio) && 1 <= t < |prio| && t !in q
    ensures ListOk(Enqueue(q, prio, t, true), prio)
  {
    InsertedSorted(q, prio, t);
    EnqueueNoDup(q, prio, t, true);
  }

  // --- the order of a queue ---------------------------------------------------------------------------

  // A queue with the priority of each thread and the number of its last arrival.
  datatype Line = Line(q: seq<int>, prio: seq<int>, arrival: seq<int>, clock: int)

  // What happens to a queue: a thread comes, the first is served, one leaves (it timed out), all leave
  // (a reset), or a thread that is not in the queue gets another priority.
  datatype Move = Arrive(t: int) | First | Depart(t: int) | Dismiss | Rank(t: int, p: int)

  // What a queue sorts by, before the arrivals: the priority, or nothing.
  function Key(prio: seq<int>, byPrio: bool): (r: seq<int>)
    ensures |r| == |prio|
  {
    if byPrio then prio else seq(|prio|, _ => 0)
  }

  ghost predicate LineOk(l: Line, byPrio: bool) {
    ListOk(l.q, Key(l.prio, byPrio)) && Ranked(l.q, Key(l.prio, byPrio), l.arrival, l.clock)
  }

  ghost predicate CanMove(l: Line, m: Move) {
    match m
    case Arrive(t) => 1 <= t < |l.prio| && t !in l.q
    case First => l.q != []
    case Rank(t, _) => 1 <= t < |l.prio| && t !in l.q
    case _ => true
  }

  ghost function Moved(l: Line, byPrio: bool, m: Move): Line
    requires LineOk(l, byPrio) && CanMove(l, m)
  {
    match m
    case Arrive(t) => Line(Enqueue(l.q, l.prio, t, byPrio), l.prio, l.arrival[t := l.clock], l.clock + 1)
    case First => l.(q := l.q[1..])
    case Depart(t) => l.(q := Without(l.q, t))
    case Dismiss => l.(q := [])
    case Rank(t, p) => l.(prio := l.prio[t := p])
  }

  lemma ArriveOk(l: Line, byPrio: bool, t: int)
    requires LineOk(l, byPrio) && CanMove(l, Arrive(t))
    ensures LineOk(Moved(l, byPrio, Arrive(t)), byPrio)
  {
    var key := Key(l.prio, byPrio);
    assert key[t := key[t]] == key;
    KeyedInsert(l.q, key, t, key[t]);
    RankedInsert(l.q, key, l.arrival, l.clock, t, key[t]);
    if !byPrio {
      ReachUnique(l.q, key, 0, |l.q|);
      assert Inserted(l.q, |l.q|, t) == l.q + [t];
    }
  }

  lemma RankOk(l: Line, byPrio: bool, t: int, p: int)
    requires LineOk(l, byPrio) && CanMove(l, Rank(t, p))
    ensures LineOk(Moved(l, byPrio, Rank(t, p)), byPrio)
  {
    if byPrio {
      KeyedInsert(l.q, l.prio, t, p);
      RankedOther(l.q, l.prio, l.arrival, l.clock, t, p);
    } else {
      assert Key(l.prio[t := p], false) == Key(l.prio, false);
    }
  }

  lemma MoveOk(l: Line, byPrio: bool, m: Move)
    requires LineOk(l, byPrio) && CanMove(l, m)
    ensures LineOk(Moved(l, byPrio, m), byPrio)
  {
    var key := Key(l.prio, byPrio);
    match m
    case Arrive(t) => ArriveOk(l, byPrio, t);
    case First =>
      assert l.q[1..] == Removed(l.q, 0);
      RemovedOk(l.q, key, 0);
      RankedRemove(l.q, key, l.arrival, l.clock, 0);
    case Depart(t) =>
      WithoutOk(l.q, key, t);
      RankedWithout(l.q, key, l.arrival, l.clock, t);
    case Dismiss =>
    case Rank(t, p) => RankOk(l, byPrio, t, p);
  }

  ghost predicate CanRun(l: Line, byPrio: bool, run: seq<Move>)
    requires LineOk(l, byPrio)
    decreases |run|
  {
    run == [] || (CanMove(l, run[0]) && (MoveOk(l, byPrio, run[0]); CanRun(Moved(l, byPrio, run[0]), byPrio, run[1..])))
  }

  ghost function AfterMoves(l: Line, byPrio: bool, run: seq<Move>): (r: Line)
    requires LineOk(l, byPrio) && CanRun(l, byPrio, run)
    ensures LineOk(r, byPrio)
    decreases |run|
  {
    if run == [] then l else MoveOk(l, byPrio, run[0]); AfterMoves(Moved(l, byPrio, run[0]), byPrio, run[1..])
  }

  // After any run of moves, of two threads in the queue the one in front is the more urgent, or as urgent
  // and came first; in a queue without priorities, the one in front came first.
  lemma ArrivalOrder(l: Line, byPrio: bool, run: seq<Move>, i: int, j: int)
    requires LineOk(l, byPrio) && CanRun(l, byPrio, run) && 0 <= i < j < |AfterMoves(l, byPrio, run).q|
    ensures var r := AfterMoves(l, byPrio, run); var x, y := r.q[i], r.q[j];
      && 0 <= x < |r.prio| == |r.arrival| && 0 <= y < |r.prio|
      && (byPrio ==> r.prio[x] < r.prio[y] || (r.prio[x] == r.prio[y] && r.arrival[x] < r.arrival[y]))
      && (!byPrio ==> r.arrival[x] < r.arrival[y])
  {
    var r := AfterMoves(l, byPrio, run);
    assert Earlier(r.q, Key(r.prio, byPrio), r.arrival, i, j);
  }

  lemma DequeueMembers(q: seq<int>)
    requires q != [] && NoDup(q)
    ensures NoDup(q[1..]) && forall x :: x in q[1..] <==> x in q && x != q[0]
  {
    NoDupTail(q);
    forall x | x in q && x != q[0] ensures x in q[1..] {
      var i :| 0 <= i < |q| && q[i] == x;
      assert q[1..][i - 1] == x;
    }
  }

  // How long a call may wait: the three cases of the time argument.
  datatype Wait = Not | Ticks(n: int) | Forever

  ghost predicate Lasting(w: Wait) { w.Ticks? ==> w.n > 0 }

  // What is left of the waiting time of a woken call after some ticks.
  function Spend(w: Wait, elapsed: nat): (r: Wait)
    ensures Lasting(r) && (r.Forever? <==> w.Forever?)
  {
    if !w.Ticks? then w else if w.n <= elapsed then Not else Ticks(w.n - elapsed)
  }

  function Sum(spans: seq<nat>): nat { if spans == [] then 0 else spans[0] + Sum(spans[1..]) }

  function SpendEach(w: Wait, spans: seq<nat>): Wait
    decreases |spans|
  {
    if spans == [] then w else SpendEach(Spend(w, spans[0]), spans[1..])
  }

  // A call that is woken and waits again, any number of times, waits its own time in all.
  lemma {:induction false} SpendsInAll(w: Wait, spans: seq<nat>)
    requires Lasting(w)
    ensures SpendEach(w, spans) ==
      if !w.Ticks? then w else if w.n <= Sum(spans) then Not else Ticks(w.n - Sum(spans))
    decreases |spans|
  {
    if spans != [] { SpendsInAll(Spend(w, spans[0]), spans[1..]); }
  }

  // --- counting ------------------------------------------------------------------------------------

  // How many elements of s satisfy p.
  ghost function Count<T(!new)>(s: seq<T>, p: T -> bool): nat {
    if s == [] then 0 else Count(s[..|s| - 1], p) + (if p(s[|s| - 1]) then 1 else 0)
  }

  lemma {:induction false} CountUpdate<T(!new)>(s: seq<T>, p: T -> bool, i: int, v: T)
    requires 0 <= i < |s|
    ensures Count(s[i := v], p) == Count(s, p) - (if p(s[i]) then 1 else 0) + (if p(v) then 1 else 0)
  {
    var last := |s| - 1;
    if i == last {
      assert s[i := v][..last] == s[..last];
    } else {
      CountUpdate(s[..last], p, i, v);
      assert s[i := v][..last] == s[..last][i := v];
    }
  }

  lemma {:induction false} CountSame<T(!new)>(s: seq<T>, s': seq<T>, p: T -> bool)
    requires |s'| == |s| && forall i :: 0 <= i < |s| ==> p(s'[i]) == p(s[i])
    ensures Count(s', p) == Count(s, p)
  {
    if s != [] { CountSame(s[..|s| - 1], s'[..|s| - 1], p); }
  }

  lemma {:induction false} CountNone<T(!new)>(s: seq<T>, p: T -> bool)
    requires forall i :: 0 <= i < |s| ==> !p(s[i])
    ensures Count(s, p) == 0
  {
    if s != [] { CountNone(s[..|s| - 1], p); }
  }

  // --- the queue and the threads -------------------------------------------------------------------

  // Exactly the threads in a waiting phase are queued.
  ghost predicate Queued<P(!new)>(q: seq<int>, phase: seq<P>, waits: P -> bool) {
    && NoDup(q) && InRange(q, |phase|)
    && forall x :: x in q <==> 1 <= x < |phase| && waits(phase[x])
  }

  // If a thread of this side is still queued, then each of the n things it
  // could have is spoken for by a thread that has been woken and will run.
  ghost predicate Served<P(!new)>(q: seq<int>, phase: seq<P>, n: int, waits: P -> bool, will: P -> bool) {
    Queued(q, phase, waits) && (q != [] ==> n <= Count(phase, will))
  }

  lemma QueuedUnder<P(!new)>(q: seq<int>, phase: seq<P>, t: int, h: P, waits: P -> bool)
    requires Queued(q, phase, waits) && 1 <= t < |phase| && !waits(phase[t]) && !waits(h)
    ensures Queued(q, phase[t := h], waits)
    ensures forall i :: 0 <= i < |q| ==> 0 <= q[i] < |phase| && phase[t := h][q[i]] == phase[q[i]] && waits(phase[q[i]])
  {
    forall i | 0 <= i < |q| ensures q[i] != t && waits(phase[q[i]]) { assert q[i] in q; }
  }

  // t is not queued on this side, before or after.
  lemma ServedRun<P(!new)>(q: seq<int>, phase: seq<P>, n: int, n': int, t: int, h: P, waits: P -> bool, will: P -> bool)
    requires Served(q, phase, n, waits, will) && 1 <= t < |phase| && !waits(phase[t]) && !waits(h)
    requires n' <= n + (if will(h) then 1 else 0) - (if will(phase[t]) then 1 else 0)
    ensures Served(q, phase[t := h], n', waits, will)
  {
    QueuedUnder(q, phase, t, h, waits);
    CountUpdate(phase, will, t, h);
  }

  // The first of the queue is woken for one more thing.
  lemma ServedWake<P(!new)>(q: seq<int>, phase: seq<P>, n: int, h: P, waits: P -> bool, will: P -> bool)
    requires Served(q, phase, n, waits, will) && q != []
    requires !waits(h) && will(h) && forall x: P :: waits(x) ==> !will(x)
    ensures 1 <= q[0] < |phase| && Served(q[1..], phase[q[0] := h], n + 1, waits, will)
  {
    DequeueMembers(q);
    assert q[0] in q;
    CountUpdate(phase, will, q[0], h);
  }

  // t queues, there being nothing to have.
  lemma ServedWait<P(!new)>(q: seq<int>, phase: seq<P>, prio: seq<int>, byPrio: bool, t: int, h: P, waits: P -> bool,
                            will: P -> bool)
    requires Queued(q, phase, waits) && |prio| == |phase| && 1 <= t < |phase| && !waits(phase[t]) && waits(h)
    ensures Served(Enqueue(q, prio, t, byPrio), phase[t := h], 0, waits, will)
  {
    assert t !in q;
    EnqueueMembers(q, prio, t, byPrio);
    EnqueueNoDup(q, prio, t, byPrio);
  }

  lemma QueuedLeave<P(!new)>(q: seq<int>, phase: seq<P>, t: int, h: P, waits: P -> bool)
    requires Queued(q, phase, waits) && 1 <= t < |phase| && !waits(h)
    ensures Queued(Without(q, t), phase[t := h], waits)
  {
    if t in q {
      var i :| 0 <= i < |q| && q[i] == t;
      WithoutAt(q, t, i);
      RemovedNoDup(q, i);
    } else {
      WithoutNone(q, t);
    }
  }

  // t leaves the queue without having anything.
  lemma ServedLeave<P(!new)>(q: seq<int>, phase: seq<P>, n: int, t: int, h: P, waits: P -> bool, will: P -> bool)
    requires Served(q, phase, n, waits, will) && 1 <= t < |phase|
    requires !waits(h) && !will(h) && !will(phase[t])
    ensures Served(Without(q, t), phase[t := h], n, waits, will)
  {
    QueuedLeave(q, phase, t, h, waits);
    CountUpdate(phase, will, t, h);
  }

  // t gives up or comes away, there being nothing to have.
  lemma ServedNothing<P(!new)>(q: seq<int>, phase: seq<P>, t: int, h: P, waits: P -> bool, will: P -> bool)
    requires Queued(q, phase, waits) && 1 <= t < |phase| && !waits(phase[t]) && !waits(h)
    ensures Served(q, phase[t := h], 0, waits, will)
  {
    QueuedUnder(q, phase, t, h, waits);
  }

  // rt_ipc_list_resume_all: every waiting thread goes to the given phase.
  function AllTo<P>(phase: seq<P>, waits: P -> bool, h: P): (r: seq<P>)
    ensures |r| == |phase|
    ensures forall i :: 0 <= i < |phase| ==> r[i] == if i >= 1 && waits(phase[i]) then h else phase[i]
  {
    seq(|phase|, i requires 0 <= i < |phase| => if i >= 1 && waits(phase[i]) then h else phase[i])
  }
}
