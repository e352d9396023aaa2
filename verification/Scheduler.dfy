// The scheduler and the thread operations, updating rings, bitmap and threads in place.

module Scheduler {
  import opened RingList
  import opened SortedList
  import opened WaitQueue
  import opened RingTable
  import opened Bitmap
  import opened SchedulerSpec

  // The rt_list functions on nodes in memory
  class Nodes {
    const next: array<int>
    const prev: array<int>

    ghost predicate Valid()
      reads this
    {
      next != prev && next.Length == prev.Length
    }

    ghost function View(): Links
      reads this, next, prev
    {
      Links(next[..], prev[..])
    }

    // rt_list_init for every node
    constructor (n: nat)
      ensures Valid() && fresh(next) && fresh(prev) && |View().next| == n
      ensures forall x :: 0 <= x < n ==> Alone(View(), x)
    {
      next := new int[n](i => i);
      prev := new int[n](i => i);
    }

    method InsertAfter(l: int, n: int)
      requires Valid() && Node(View(), l) && Node(View(), n) && Node(View(), next[l])
      modifies next, prev
      ensures View() == RingList.InsertAfter(old(View()), l, n)
    {
      prev[next[l]] := n;
      next[n] := next[l];
      next[l] := n;
      prev[n] := l;
    }

    method InsertBefore(l: int, n: int)
      requires Valid() && Node(View(), l) && Node(View(), n) && Node(View(), prev[l])
      modifies next, prev
      ensures View() == RingList.InsertBefore(old(View()), l, n)
    {
      next[prev[l]] := n;
      prev[n] := prev[l];
      prev[l] := n;
      next[n] := l;
    }

    method Remove(n: int)
      requires Valid() && Node(View(), n) && Node(View(), next[n]) && Node(View(), prev[n])
      modifies next, prev
      ensures View() == RingList.Remove(old(View()), n)
    {
      prev[next[n]] := prev[n];
      next[prev[n]] := next[n];
      prev[n] := n;
      next[n] := n;
    }
  }

  class Kernel {
    const levels: int           // RT_THREAD_PRIORITY_MAX
    const nodes: Nodes
    var bits: Map
    var stat: seq<Stat>
    var prio: seq<int>          // current_priority
    const init: seq<int>        // init_priority
    var marked: seq<int>
    var current: int            // rt_current_thread
    var lockNest: int           // rt_scheduler_lock_nest
    ghost var table: Table

    ghost function View(): Sched
      reads this
    {
      Sched(levels, table, bits, stat, prio, init, marked)
    }

    ghost predicate Linked()
      reads this, nodes, nodes.next, nodes.prev
    {
      nodes.Valid() && Rings(nodes.View(), table)
    }

    ghost predicate Valid()
      reads this, nodes, nodes.next, nodes.prev
    {
      Linked() && Ok(View())
    }

    // rt_system_scheduler_init, with waits wait lists and threads that are not yet started
    constructor (wide: bool, levels: int, waits: nat, priorities: seq<int>)
      requires 1 <= levels <= Levels(wide)
      requires forall t :: levels + waits <= t < |priorities| ==> 0 <= priorities[t] < levels
      requires levels + waits <= |priorities|
      ensures Valid() && fresh(nodes) && fresh(nodes.next) && fresh(nodes.prev) && lockNest == 0
      ensures forall t :: IsThread(table, t) ==> stat[t] == Init
    {
      this.levels := levels;
      nodes := new Nodes(|priorities|);
      bits := Map(wide, 0, seq(32, i => 0));
      stat := seq(|priorities|, i => Init);
      prio, init, marked := priorities, priorities, priorities;
      current, lockNest := NOWHERE, 0;
      table := Table(seq(levels + waits, h => []), seq(|priorities|, x => NOWHERE));
      new;
      EmptyRings(nodes.View(), table);
      EmptyMap(bits);
      forall t | IsThread(table, t) ensures ThreadOk(View(), t) { }
    }

    // rt_schedule_insert_thread
    method InsertThread(t: int)
      requires Linked() && Known(View(), t) && table.home[t] == NOWHERE
      requires 0 <= prio[t] < levels && 0 <= marked[t] < levels
      modifies this, nodes.next, nodes.prev
      ensures Linked() && View() == Put(old(View()), t) && current == old(current) && lockNest == old(lockNest)
    {
      ghost var h := prio[t];
      EnterRings(nodes.View(), table, h, |table.lists[h]|, t);
      stat := stat[t := Ready];
      nodes.InsertBefore(prio[t], t);
      bits := Marked(bits, marked[t]);
      table := Entered(table, h, |table.lists[h]|, t);
    }

    // rt_schedule_remove_thread
    method RemoveThread(t: int)
      requires Linked() && Known(View(), t)
      requires 0 <= prio[t] < levels && 0 <= marked[t] < levels
      modifies this, nodes.next, nodes.prev
      ensures Linked() && View() == Take(old(View()), t) && current == old(current) && lockNest == old(lockNest)
    {
      LeaveRings(nodes.View(), table, t);
      nodes.Remove(t);
      table := Left(table, t);
      FirstOf(nodes.View(), table, prio[t]);
      if nodes.next[prio[t]] == prio[t] {
        bits := Cleared(bits, marked[t]);
      }
    }

    // rt_thread_suspend
    method Suspend(t: int) returns (ok: bool)
      requires Valid() && Known(View(), t)
      modifies this, nodes.next, nodes.prev
      ensures Valid() && ok == (old(stat)[t] == Ready) && View() == DoSuspend(old(View()), t)
      ensures current == old(current) && lockNest == old(lockNest)
    {
      if stat[t] != Ready {
        return false;
      }
      TakeOk(View(), t);
      ghost var was := View();
      stat := stat[t := SchedulerSpec.Suspend];
      RemoveThread(t);
      assert View() == DoSuspend(was, t);
      ok := true;
    }

    // rt_thread_resume
    method Resume(t: int) returns (ok: bool)
      requires Valid() && Known(View(), t)
      modifies this, nodes.next, nodes.prev
      ensures Valid() && ok == (old(stat)[t] == SchedulerSpec.Suspend) && View() == DoResume(old(View()), t)
      ensures current == old(current) && lockNest == old(lockNest)
    {
      if stat[t] != SchedulerSpec.Suspend {
        return false;
      }
      ResumeOk(View(), t);
      ghost var was := View();
      OffOk(was, t);
      PutOk(Off(was, t), t);
      LeaveRings(nodes.View(), table, t);
      nodes.Remove(t);
      table := Left(table, t);
      assert View() == Off(was, t);
      InsertThread(t);
      ok := true;
    }

    // rt_thread_timeout of a thread that waits; its error code is not part of this state.
    method Timeout(t: int)
      requires Valid() && Known(View(), t) && stat[t] == SchedulerSpec.Suspend
      modifies this, nodes.next, nodes.prev
      ensures Valid() && View() == DoResume(old(View()), t)
    {
      var _ := Resume(t);
    }

    // rt_thread_startup, before its scheduling
    method Startup(t: int)
      requires Valid() && Known(View(), t) && stat[t] == Init
      modifies this, nodes.next, nodes.prev
      ensures Valid() && stat[t] == Ready && prio[t] == init[t]
      ensures Ok(Started(old(View()), t)) && View() == DoResume(Started(old(View()), t), t)
    {
      StartedOk(View(), t);
      prio := prio[t := init[t]];
      marked := marked[t := prio[t]];
      stat := stat[t := SchedulerSpec.Suspend];
      var _ := Resume(t);
    }

    // rt_thread_control with RT_THREAD_CTRL_CHANGE_PRIORITY
    method ChangePriority(t: int, p: int)
      requires Valid() && Known(View(), t) && 0 <= p < levels
      modifies this, nodes.next, nodes.prev
      ensures Valid() && View() == Changed(old(View()), t, p)
    {
      ChangedOk(View(), t, p);
      assert ThreadOk(View(), t);
      if stat[t] == Ready {
        RemoveThread(t);
        prio := prio[t := p];
        marked := marked[t := p];
        InsertThread(t);
      } else {
        prio := prio[t := p];
        marked := marked[t := p];
      }
    }

    // rt_thread_yield, before its scheduling: nothing to do for a thread alone in its ring
    method Yield()
      requires Valid() && Known(View(), current) && stat[current] == Ready
      modifies this, nodes.next, nodes.prev
      ensures Valid() && current == old(current) && View() == Yielded(old(View()), current)
    {
      var t := current;
      assert ThreadOk(View(), t);
      ghost var h := prio[t];
      assert ListAt(nodes.View(), table, h);
      YieldedOk(View(), t);
      RingNeighbours(nodes.View(), table, t);
      ghost var goal := Yielded(View(), t);
      if nodes.next[t] != nodes.prev[t] {
        LeaveRings(nodes.View(), table, t);
        nodes.Remove(t);
        table := Left(table, t);
        EnterRings(nodes.View(), table, h, |table.lists[h]|, t);
        nodes.InsertBefore(prio[t], t);
        table := Entered(table, h, |table.lists[h]|, t);
      } else {
        OnlyMember(table, t);
      }
      assert View() == goal;
    }

    // The loop of rt_ipc_list_suspend: the first thread of a wait list that is less urgent than t.
    method Place(w: int, t: int) returns (n: int, ghost i: int)
      requires Linked() && Sized(View()) && Known(View(), t) && levels <= w < |table.lists|
      ensures InRange(table.lists[w], |prio|) && i == Reach(table.lists[w], prio, prio[t])
      ensures n == NodeBefore(table, w, i)
    {
      ghost var q := table.lists[w];
      ListNoDup(nodes.View(), table, w);
      FirstOf(nodes.View(), table, w);
      n := nodes.next[w];
      i := 0;
      while n != w
        invariant 0 <= i <= |q| && n == NodeBefore(table, w, i) && (n == w <==> i == |q|)
        invariant forall j :: 0 <= j < i ==> prio[q[j]] <= prio[t]
        decreases |q| - i
      {
        NextOf(nodes.View(), table, w, i);
        if prio[t] < prio[n] {
          break;
        }
        n := nodes.next[n];
        i := i + 1;
        if i < |q| { NextOf(nodes.View(), table, w, i); }
      }
      ReachUnique(q, prio, prio[t], i);
    }

    // rt_ipc_list_suspend
    method SuspendOn(w: int, t: int, byPrio: bool)
      requires Valid() && Known(View(), t) && stat[t] == Ready && levels <= w < |table.lists|
      modifies this, nodes.next, nodes.prev
      ensures Valid() && InRange(old(table).lists[w], |old(prio)|)
      ensures View() == Waiting(old(View()), t, w, byPrio)
      ensures table.lists[w] == Enqueue(old(table).lists[w], old(prio), t, byPrio)
    {
      ListNoDup(nodes.View(), table, w);
      WaitingOk(View(), t, w, byPrio);
      ghost var goal := Waiting(View(), t, w, byPrio);
      assert ThreadOk(View(), t);
      ghost var q := table.lists[w];
      var _ := Suspend(t);
      assert table.lists[w] == q;
      ghost var i := |q|;
      var n := w;
      if byPrio {
        n, i := Place(w, t);
      }
      EnterRings(nodes.View(), table, w, i, t);
      nodes.InsertBefore(n, t);
      table := Entered(table, w, i, t);
      assert View() == goal;
    }

    // rt_ipc_list_resume
    method ResumeFirst(w: int) returns (t: int)
      requires Valid() && levels <= w < |table.lists| && table.lists[w] != []
      modifies this, nodes.next, nodes.prev
      ensures Valid() && t == old(table).lists[w][0] && Known(old(View()), t)
      ensures old(stat)[t] == SchedulerSpec.Suspend && View() == DoResume(old(View()), t)
      ensures |table.lists| == |old(table).lists| && table.lists[w] == old(table).lists[w][1..]
    {
      FirstOf(nodes.View(), table, w);
      ListNoDup(nodes.View(), table, w);
      t := nodes.next[w];
      assert ThreadOk(View(), t);
      WithoutAt(table.lists[w], t, 0);
      assert Removed(table.lists[w], 0) == table.lists[w][1..];
      ghost var was := View();
      var _ := Resume(t);
      assert table.lists[w] == Left(was.table, t).lists[w];
    }

    // rt_schedule: while the scheduler is not locked, the first thread of the most urgent ring runs.
    // There always is one, since the idle thread is always ready.
    method Schedule(ghost ready: int)
      requires Valid() && 0 <= ready < levels && table.lists[ready] != []
      modifies `current
      ensures Valid()
      ensures lockNest != 0 ==> current == old(current)
      ensures lockNest == 0 ==>
        exists p :: 0 <= p < levels && table.lists[p] != [] && current == table.lists[p][0]
                    && forall q :: 0 <= q < p ==> table.lists[q] == []
    {
      if lockNest == 0 {
        Selects(View(), ready);
        var p := Highest(bits);
        FirstOf(nodes.View(), table, p);
        var to := nodes.next[p];
        if to != current {
          current := to;
        }
        assert 0 <= p < levels && current == table.lists[p][0];
      }
    }
  }

  // The two neighbours of a thread in its ring are the same node only if it is there alone.
  lemma RingNeighbours(k: Links, b: Table, t: int)
    requires Rings(k, b) && IsThread(b, t) && b.home[t] != NOWHERE
    ensures 0 <= t < |k.next| && (k.next[t] == k.prev[t] <==> b.lists[b.home[t]] == [t])
  {
    var h := b.home[t];
    assert ListAt(k, b, h);
    assert t in b.lists[h];
    var i :| 0 <= i < |b.lists[h]| && b.lists[h][i] == t;
    var s := [h] + b.lists[h];
    assert s[i + 1] == t;
    assert Placed(k, s, i + 1);
    Distinct(s, i, if i + 2 < |s| then i + 2 else 0);
  }

  lemma OnlyMember(b: Table, t: int)
    requires IsThread(b, t) && 0 <= b.home[t] < |b.lists| && b.lists[b.home[t]] == [t]
    ensures Left(b, t).lists[b.home[t]] == []
    ensures Entered(Left(b, t), b.home[t], 0, t) == b
  {
    assert Without([t], t) == [];
    assert Inserted([], 0, t) == [t];
    assert b.lists[b.home[t] := [t]] == b.lists;
    assert b.home[t := b.home[t]] == b.home;
  }

  lemma EmptyRings(k: Links, b: Table)
    requires |k.next| == |k.prev| == |b.home| && 1 <= |b.lists| <= |b.home|
    requires forall x :: 0 <= x < |b.home| ==> Alone(k, x) && b.home[x] == NOWHERE
    requires forall h :: 0 <= h < |b.lists| ==> b.lists[h] == []
    ensures Rings(k, b)
  {
    forall h | 0 <= h < |b.lists| ensures ListAt(k, b, h) {
      assert Alone(k, h);
      assert [h] + b.lists[h] == [h];
      assert Placed(k, [h], 0);
    }
  }

  lemma EmptyMap(m: Map)
    requires m.group == 0 && m.table == seq(32, i => 0)
    ensures MapOk(m) && forall p: nat :: p < Levels(m.wide) ==> !Has(m, p)
  {
    ZeroFits(8);
    ZeroFits(32);
    forall n: nat | n < 32 ensures ByteOk(m, n) { NoBit(n); }
    forall p: nat | p < Levels(m.wide) ensures !Has(m, p) { NoBit(if m.wide then p % 8 else p); }
  }

  lemma {:induction false} ZeroFits(n: nat)
    ensures Fits(0, n)
  {
    if n > 0 { ZeroFits(n - 1); }
  }
}
