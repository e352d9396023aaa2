// The scheduler's data: ready rings, one per priority; wait lists; the bitmap; and the threads.

module SchedulerSpec {
  import opened RingList
  import opened SortedList
  import opened WaitQueue
  import opened RingTable
  import opened Bitmap

  datatype Stat = Init | Ready | Suspend

  // Heads 0 to levels-1 are the ready rings, the other heads wait lists.  marked[t] is the priority
  // that the stored masks of t (number, number_mask, high_mask) stand for.
  datatype Sched = Sched(levels: int, table: Table, bits: Map,
                         stat: seq<Stat>, prio: seq<int>, init: seq<int>, marked: seq<int>)

  ghost predicate Sized(s: Sched) {
    && 1 <= s.levels <= |s.table.lists| <= |s.table.home| && s.levels <= Levels(s.bits.wide)
    && |s.stat| == |s.prio| == |s.init| == |s.marked| == |s.table.home|
    && |s.bits.table| == 32
  }

  // A bit is set exactly if the ring of its priority is not empty.
  ghost predicate Agrees(bits: Map, lists: seq<seq<int>>, levels: int) {
    && |bits.table| == 32 && levels <= |lists|
    && forall p: nat :: p < Levels(bits.wide) ==> (Has(bits, p) <==> p < levels && lists[p] != [])
  }

  // A thread is in the ring of its priority exactly when it is ready; otherwise in a wait list or none.
  ghost predicate ThreadOk(s: Sched, t: int)
    requires Sized(s) && 0 <= t < |s.table.home|
  {
    var home := s.table.home[t];
    && 0 <= s.prio[t] < s.levels && 0 <= s.init[t] < s.levels
    && (s.stat[t] != Init ==> s.marked[t] == s.prio[t])
    && (s.stat[t] == Ready <==> home == s.prio[t])
    && (s.stat[t] != Ready ==> home == NOWHERE || s.levels <= home < |s.table.lists|)
    && (s.stat[t] == Init ==> home == NOWHERE)
  }

  ghost predicate Ok(s: Sched) {
    && Sized(s) && MapOk(s.bits) && Agrees(s.bits, s.table.lists, s.levels)
    && forall t :: IsThread(s.table, t) ==> ThreadOk(s, t)
  }

  // --- rt_schedule_insert_thread and rt_schedule_remove_thread ------------------------------------

  ghost function Put(s: Sched, t: int): Sched
    requires Sized(s) && IsThread(s.table, t) && 0 <= s.prio[t] < s.levels && 0 <= s.marked[t] < s.levels
  {
    s.(stat := s.stat[t := Ready],
       table := Entered(s.table, s.prio[t], |s.table.lists[s.prio[t]]|, t),
       bits := Marked(s.bits, s.marked[t]))
  }

  ghost function Take(s: Sched, t: int): Sched
    requires Sized(s) && IsThread(s.table, t) && 0 <= s.prio[t] < s.levels && 0 <= s.marked[t] < s.levels
    requires s.table.home[t] == NOWHERE || 0 <= s.table.home[t] < |s.table.lists|
  {
    var table := Left(s.table, t);
    s.(table := table, bits := if table.lists[s.prio[t]] == [] then Cleared(s.bits, s.marked[t]) else s.bits)
  }

  lemma PutOk(s: Sched, t: int)
    requires Ok(s) && IsThread(s.table, t) && s.stat[t] == Suspend && s.table.home[t] == NOWHERE
    ensures ThreadOk(s, t) && Ok(Put(s, t))
  {
    assert ThreadOk(s, t);
    var s' := Put(s, t);
    MarkedOk(s.bits, s.marked[t]);
    forall p: nat | p < Levels(s.bits.wide) ensures Has(s'.bits, p) <==> p < s.levels && s'.table.lists[p] != [] {
      MarkedHas(s.bits, s.marked[t], p);
    }
    forall u | IsThread(s'.table, u) ensures ThreadOk(s', u) { assert ThreadOk(s, u); }
  }

  // Taking a ready thread out, as a suspension does.
  lemma TakeOk(s: Sched, t: int)
    requires Ok(s) && IsThread(s.table, t) && s.stat[t] == Ready
    ensures ThreadOk(s, t) && Ok(Take(s, t).(stat := s.stat[t := Suspend]))
  {
    assert ThreadOk(s, t);
    var s' := Take(s, t).(stat := s.stat[t := Suspend]);
    MarkedOk(s.bits, s.marked[t]);
    forall p: nat | p < Levels(s.bits.wide) ensures Has(s'.bits, p) <==> p < s.levels && s'.table.lists[p] != [] {
      MarkedHas(s.bits, s.marked[t], p);
    }
    forall u | IsThread(s'.table, u) ensures ThreadOk(s', u) { assert ThreadOk(s, u); }
  }

  // --- the operations on threads --------------------------------------------------------------------

  ghost predicate Known(s: Sched, t: int) { Sized(s) && IsThread(s.table, t) }

  // rt_thread_suspend
  ghost function DoSuspend(s: Sched, t: int): Sched
    requires Ok(s) && Known(s, t)
  {
    if s.stat[t] != Ready then s
    else
      TakeOk(s, t);
      Take(s, t).(stat := s.stat[t := Suspend])
  }

  // The thread is off its wait list, but not ready yet.
  ghost function Off(s: Sched, t: int): Sched
    requires Ok(s) && Known(s, t)
  {
    assert ThreadOk(s, t);
    s.(table := Left(s.table, t))
  }

  lemma OffOk(s: Sched, t: int)
    requires Ok(s) && Known(s, t) && s.stat[t] == Suspend
    ensures Ok(Off(s, t)) && Off(s, t).table.home[t] == NOWHERE
  {
    assert ThreadOk(s, t);
    var s' := Off(s, t);
    forall p: nat | p < Levels(s.bits.wide) ensures Has(s'.bits, p) <==> p < s.levels && s'.table.lists[p] != [] { }
    forall u | IsThread(s'.table, u) ensures ThreadOk(s', u) { assert ThreadOk(s, u); }
  }

  // rt_thread_resume, and what rt_thread_timeout does to the lists
  ghost function DoResume(s: Sched, t: int): Sched
    requires Ok(s) && Known(s, t)
  {
    if s.stat[t] != Suspend then s
    else
      OffOk(s, t);
      PutOk(Off(s, t), t);
      Put(Off(s, t), t)
  }

  lemma ResumeOk(s: Sched, t: int)
    requires Ok(s) && Known(s, t)
    ensures Ok(DoResume(s, t))
  {
    if s.stat[t] == Suspend {
      OffOk(s, t);
      PutOk(Off(s, t), t);
    }
  }

  // rt_thread_startup
  ghost function Started(s: Sched, t: int): Sched
    requires Known(s, t)
  {
    s.(prio := s.prio[t := s.init[t]], marked := s.marked[t := s.init[t]], stat := s.stat[t := Suspend])
  }

  lemma StartedOk(s: Sched, t: int)
    requires Ok(s) && Known(s, t) && s.stat[t] == Init
    ensures Ok(Started(s, t))
  {
    var s' := Started(s, t);
    assert ThreadOk(s, t);
    forall u | IsThread(s'.table, u) ensures ThreadOk(s', u) { assert ThreadOk(s, u); }
  }

  // rt_thread_control with RT_THREAD_CTRL_CHANGE_PRIORITY
  ghost function Changed(s: Sched, t: int, p: int): Sched
    requires Ok(s) && Known(s, t) && 0 <= p < s.levels
  {
    assert ThreadOk(s, t);
    if s.stat[t] == Ready then
      Put(Take(s, t).(prio := s.prio[t := p], marked := s.marked[t := p]), t)
    else s.(prio := s.prio[t := p], marked := s.marked[t := p])
  }

  lemma ChangedOk(s: Sched, t: int, p: int)
    requires Ok(s) && Known(s, t) && 0 <= p < s.levels
    ensures Ok(Changed(s, t, p))
  {
    assert ThreadOk(s, t);
    if s.stat[t] == Ready {
      TakeOk(s, t);
      var s1 := Take(s, t).(stat := s.stat[t := Suspend]);
      RepriorOk(s1, t, p);
      PutOk(s1.(prio := s.prio[t := p], marked := s.marked[t := p]), t);
      assert s.stat[t := Suspend][t := Ready] == s.stat[t := Ready];
    } else {
      RepriorOk(s, t, p);
    }
  }

  lemma RepriorOk(s: Sched, t: int, p: int)
    requires Ok(s) && Known(s, t) && 0 <= p < s.levels && s.stat[t] != Ready
    ensures Ok(s.(prio := s.prio[t := p], marked := s.marked[t := p]))
  {
    var s' := s.(prio := s.prio[t := p], marked := s.marked[t := p]);
    forall u | IsThread(s'.table, u) ensures ThreadOk(s', u) { assert ThreadOk(s, u); }
  }

  // rt_thread_yield: to the end of its ring
  ghost function Yielded(s: Sched, t: int): Sched
    requires Ok(s) && Known(s, t) && s.stat[t] == Ready
  {
    assert ThreadOk(s, t);
    var table := Left(s.table, t);
    s.(table := Entered(table, s.prio[t], |table.lists[s.prio[t]]|, t))
  }

  lemma YieldedOk(s: Sched, t: int)
    requires Ok(s) && Known(s, t) && s.stat[t] == Ready && t in s.table.lists[s.prio[t]]
    ensures Ok(Yielded(s, t))
  {
    assert ThreadOk(s, t);
    var s' := Yielded(s, t);
    forall p: nat | p < Levels(s.bits.wide) ensures Has(s'.bits, p) <==> p < s.levels && s'.table.lists[p] != [] { }
    forall u | IsThread(s'.table, u) ensures ThreadOk(s', u) { assert ThreadOk(s, u); }
  }

  // rt_ipc_list_suspend: off the ready ring and into wait list w
  ghost function Waiting(s: Sched, t: int, w: int, byPrio: bool): Sched
    requires Ok(s) && Known(s, t) && s.stat[t] == Ready && s.levels <= w < |s.table.lists|
    requires InRange(s.table.lists[w], |s.prio|)
  {
    TakeOk(s, t);
    var s1 := Take(s, t).(stat := s.stat[t := Suspend]);
    var i := if byPrio then Reach(s.table.lists[w], s.prio, s.prio[t]) else |s.table.lists[w]|;
    s1.(table := Entered(s1.table, w, i, t))
  }

  lemma WaitingOk(s: Sched, t: int, w: int, byPrio: bool)
    requires Ok(s) && Known(s, t) && s.stat[t] == Ready && s.levels <= w < |s.table.lists|
    requires InRange(s.table.lists[w], |s.prio|) && 1 <= t < |s.prio|
    ensures Ok(Waiting(s, t, w, byPrio))
    ensures Waiting(s, t, w, byPrio).table.lists[w] == Enqueue(s.table.lists[w], s.prio, t, byPrio)
  {
    TakeOk(s, t);
    assert ThreadOk(s, t);
    var s1 := Take(s, t).(stat := s.stat[t := Suspend]);
    var s' := Waiting(s, t, w, byPrio);
    forall p: nat | p < Levels(s.bits.wide) ensures Has(s'.bits, p) <==> p < s.levels && s'.table.lists[p] != [] { }
    forall u | IsThread(s'.table, u) ensures ThreadOk(s', u) { assert ThreadOk(s1, u); }
    var q := s.table.lists[w];
    if !byPrio { assert Inserted(q, |q|, t) == q + [t]; }
  }

  // --- the order within a ring -------------------------------------------------------------------------

  // The threads of ring p, each once, all of them ready.
  ghost predicate RingOk(s: Sched, p: int) {
    && Sized(s) && 0 <= p < s.levels && NoDup(s.table.lists[p])
    && forall t :: t in s.table.lists[p] <==> IsThread(s.table, t) && s.table.home[t] == p
  }

  // A suspended thread is in no list; the others keep their places.
  lemma SuspendsOut(s: Sched, t: int)
    requires Ok(s) && Known(s, t) && s.stat[t] == Ready
    ensures var s' := DoSuspend(s, t);
      && s'.stat == s.stat[t := Suspend] && s'.prio == s.prio && s'.table.home == s.table.home[t := NOWHERE]
      && |s'.table.lists| == |s.table.lists|
      && (forall h :: 0 <= h < |s.table.lists| ==>
            s'.table.lists[h] == if h == s.prio[t] then Without(s.table.lists[h], t) else s.table.lists[h])
  {
    assert ThreadOk(s, t);
  }

  // A thread that becomes ready is the last of its ring, and leaves the list it waited in.
  lemma ResumeLast(s: Sched, t: int)
    requires Ok(s) && Known(s, t) && s.stat[t] == Suspend
    ensures var s' := DoResume(s, t);
      && s'.stat == s.stat[t := Ready] && s'.prio == s.prio && s'.table.home[t] == s.prio[t]
      && |s'.table.lists| == |s.table.lists| && 0 <= s.prio[t] < |s.table.lists|
      && s'.table.lists[s.prio[t]] == s.table.lists[s.prio[t]] + [t]
      && (forall h :: 0 <= h < |s.table.lists| && h != s.prio[t] ==>
            s'.table.lists[h] == if h == s.table.home[t] then Without(s.table.lists[h], t) else s.table.lists[h])
  {
    assert ThreadOk(s, t);
    var q := s.table.lists[s.prio[t]];
    assert Inserted(q, |q|, t) == q + [t];
  }

  // A ready thread that gets another priority is the last of the ring of that priority.
  lemma ChangeLast(s: Sched, t: int, p: int)
    requires Ok(s) && Known(s, t) && 0 <= p < s.levels
    ensures var s' := Changed(s, t, p);
      && s'.prio == s.prio[t := p] && s'.stat == s.stat && |s'.table.lists| == |s.table.lists|
      && 0 <= s.prio[t] < |s.table.lists|
      && (s.stat[t] == Ready && p != s.prio[t] ==>
            && s'.table.lists[p] == s.table.lists[p] + [t]
            && s'.table.lists[s.prio[t]] == Without(s.table.lists[s.prio[t]], t))
      && (s.stat[t] != Ready ==> s'.table == s.table)
  {
    assert ThreadOk(s, t);
    var q := s.table.lists[p];
    assert Inserted(q, |q|, t) == q + [t];
  }

  // The first thread of ring p gives way.
  ghost predicate Turn(s: Sched, p: int, s': Sched) {
    && Ok(s) && RingOk(s, p) && s.table.lists[p] != []
    && Known(s, s.table.lists[p][0]) && s.stat[s.table.lists[p][0]] == Ready
    && s' == Yielded(s, s.table.lists[p][0])
  }

  lemma TurnRotates(s: Sched, p: int, s': Sched)
    requires Turn(s, p, s')
    ensures var q := s.table.lists[p];
      && |s'.table.lists| == |s.table.lists| && s'.table.lists[p] == q[1..] + [q[0]]
      && (forall h :: 0 <= h < |s.table.lists| && h != p ==> s'.table.lists[h] == s.table.lists[h])
  {
    var q := s.table.lists[p];
    var t := q[0];
    assert t in q && ThreadOk(s, t);
    WithoutAt(q, t, 0);
    assert Removed(q, 0) == q[1..];
    assert Inserted(q[1..], |q| - 1, t) == q[1..] + [t];
  }

  // Round robin: while the threads of a ring give way in turn, the k-th to run is the k-th of the ring, and
  // after as many turns as there are threads all have run once and the ring is as it was.
  lemma {:induction false} RoundRobin(states: seq<Sched>, p: int, k: nat)
    requires k < |states| && 0 <= p < |states[0].table.lists| && k <= |states[0].table.lists[p]|
    requires forall i :: 0 <= i < k ==> Turn(states[i], p, states[i + 1])
    ensures p < |states[k].table.lists|
    ensures var q := states[0].table.lists[p];
      && states[k].table.lists[p] == q[k..] + q[..k]
      && (k < |q| ==> states[k].table.lists[p] != [] && states[k].table.lists[p][0] == q[k])
      && (k == |q| ==> states[k].table.lists[p] == q)
  {
    if k > 0 {
      RoundRobin(states, p, k - 1);
      TurnRotates(states[k - 1], p, states[k]);
      Rotate(states[0].table.lists[p], k);
    }
  }

  lemma Rotate(q: seq<int>, k: nat)
    requires 0 < k <= |q|
    ensures var r := q[k - 1..] + q[..k - 1]; r[1..] + [r[0]] == q[k..] + q[..k]
    ensures k == |q| ==> q[k..] + q[..k] == q
  {
  }

  // --- what rt_schedule selects ------------------------------------------------------------------------

  // The look-up gives the most urgent non-empty ring.
  lemma Selects(s: Sched, q: int)
    requires Ok(s) && 0 <= q < s.levels && s.table.lists[q] != []
    ensures var p := Highest(s.bits);
      0 <= p <= q && s.table.lists[p] != [] && forall r :: 0 <= r < p ==> s.table.lists[r] == []
  {
    HighestRight(s.bits, q);
    var p := Highest(s.bits);
    forall r | 0 <= r < p ensures s.table.lists[r] == [] {
      if s.table.lists[r] != [] { HighestRight(s.bits, r); }
    }
  }
}
