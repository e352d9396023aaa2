// Timers over unbounded time: one list sorted by deadline, ties in start order.  The 32-bit
// comparisons of the kernel are related to it here; the skip list is related to it in TimerList.

module TimerSpec {
  import opened RingList
  import opened SortedList

  const TICKS := 0x1_0000_0000
  const HALF := 0x7FFF_FFFF      // RT_TICK_MAX / 2

  // --- wrap-around ticks -----------------------------------------------------------------------

  function Wrap(x: int): int { x % TICKS }

  // The test that stops the search in rt_timer_start: tick a is after tick b.
  predicate After(a: int, b: int) { Wrap(a - b) != 0 && Wrap(a - b) < HALF }

  // The test of rt_timer_check: at tick now the timer of tick a is due.
  predicate Expired(now: int, a: int) { Wrap(now - a) < HALF }

  // After agrees with the true order exactly on this window.
  lemma AfterExact(x: int, y: int)
    requires -TICKS < x - y < TICKS
    ensures (After(Wrap(x), Wrap(y)) <==> x > y) <==> HALF - TICKS <= x - y < HALF
  {
    assert Wrap(Wrap(x) - Wrap(y)) == Wrap(x - y) by { WrapDifference(x, y); }
  }

  lemma ExpiredExact(x: int, y: int)
    requires -TICKS < x - y < TICKS
    ensures (Expired(Wrap(x), Wrap(y)) <==> y <= x) <==> HALF - TICKS <= x - y < HALF
  {
    WrapDifference(x, y);
  }

  lemma WrapDifference(x: int, y: int)
    ensures Wrap(Wrap(x) - Wrap(y)) == Wrap(x - y)
  {
    var p, q := x / TICKS, y / TICKS;
    assert x - y == Wrap(x) - Wrap(y) + (p - q) * TICKS;
    WrapShift(Wrap(x) - Wrap(y), p - q);
  }

  lemma WrapShift(x: int, k: int)
    ensures Wrap(x + k * TICKS) == Wrap(x)
  {
    assert x + k * TICKS == Wrap(x) + (x / TICKS + k) * TICKS;
  }

  lemma WrapSum(x: int, y: int)
    ensures Wrap(Wrap(x) + y) == Wrap(x + y)
  {
    WrapShift(Wrap(x) + y, x / TICKS);
  }

  // --- the list ----------------------------------------------------------------------------------

  // Entry 0 of every sequence is unused: timers are numbered from 1.  The starts are counted, and stamp
  // is the number of the start that linked a timer.
  datatype Timers = Timers(
    list: seq<int>, deadline: seq<int>, stamp: seq<int>, init: seq<int>, periodic: seq<bool>, active: seq<bool>,
    now: int, starts: int)

  // --- invariant ---------------------------------------------------------------------------------

  // Every active timer is listed, except out, the one whose callback is running (or 0).
  ghost predicate Listed(list: seq<int>, active: seq<bool>, out: int) {
    forall x :: x in list <==> 1 <= x < |active| && active[x] && x != out
  }

  // The deadlines lie in the window in which wrapped ticks compare as true time does.
  ghost predicate InWindow(list: seq<int>, deadline: seq<int>, now: int) {
    forall x :: x in list ==> 0 <= x < |deadline| && now - 1 <= deadline[x] < now + HALF
  }

  ghost predicate Ok(s: Timers, out: int) {
    && |s.deadline| == |s.stamp| == |s.init| == |s.periodic| == |s.active|
    && ListOk(s.list, s.deadline) && Ranked(s.list, s.deadline, s.stamp, s.starts)
    && Listed(s.list, s.active, out) && InWindow(s.list, s.deadline, s.now)
  }

  ghost predicate Startable(s: Timers, t: int) { 1 <= t < |s.init| && 0 <= s.init[t] < HALF }

  // --- the operations -----------------------------------------------------------------------------

  predicate Known(s: Timers, t: int) {
    1 <= t < |s.active| && |s.deadline| == |s.stamp| == |s.init| == |s.periodic| == |s.active|
  }

  ghost function Start(s: Timers, t: int): Timers
    requires Known(s, t) && InRange(s.list, |s.deadline|)
  {
    if s.active[t] then s
    else
      var v := s.now + s.init[t];
      var deadline := s.deadline[t := v];
      s.(deadline := deadline, list := Inserted(s.list, Reach(s.list, deadline, v), t), active := s.active[t := true],
         stamp := s.stamp[t := s.starts], starts := s.starts + 1)
  }

  ghost function Stop(s: Timers, t: int): Timers
    requires Known(s, t)
  {
    if !s.active[t] then s else s.(list := Without(s.list, t), active := s.active[t := false])
  }

  lemma StartMembers(list: seq<int>, i: int, deadline: seq<int>, active: seq<bool>, t: int, v: int, now: int, out: int)
    requires 0 <= i <= |list| && 1 <= t < |active| && |deadline| == |active| && t != out && !active[t]
    requires Listed(list, active, out) && InWindow(list, deadline, now) && now - 1 <= v < now + HALF
    ensures Listed(Inserted(list, i, t), active[t := true], out)
    ensures InWindow(Inserted(list, i, t), deadline[t := v], now)
  {
    var r := Inserted(list, i, t);
    forall x ensures x in r <==> x == t || x in list { InsertedMembers(list, i, t, x); }
  }

  lemma StartOk(s: Timers, t: int, out: int)
    requires Ok(s, out) && Startable(s, t) && t != out
    ensures Ok(Start(s, t), out)
  {
    if !s.active[t] {
      var v := s.now + s.init[t];
      assert t !in s.list;
      KeyedInsert(s.list, s.deadline, t, v);
      var n := Reach(s.list, s.deadline[t := v], v);
      StartMembers(s.list, n, s.deadline, s.active, t, v, s.now, out);
      RankedInsert(s.list, s.deadline, s.stamp, s.starts, t, v);
      var s' := Start(s, t);
      assert s'.list == Inserted(s.list, n, t) && s'.deadline == s.deadline[t := v];
    }
  }

  lemma StopMembers(list: seq<int>, deadline: seq<int>, active: seq<bool>, t: int, now: int, out: int)
    requires Listed(list, active, out) && InWindow(list, deadline, now) && 0 <= t < |active|
    ensures Listed(Without(list, t), active[t := false], out) && InWindow(Without(list, t), deadline, now)
  {
  }

  lemma StopOk(s: Timers, t: int, out: int)
    requires Ok(s, out) && Known(s, t)
    ensures Ok(Stop(s, t), out)
  {
    WithoutOk(s.list, s.deadline, t);
    RankedWithout(s.list, s.deadline, s.stamp, s.starts, t);
    StopMembers(s.list, s.deadline, s.active, t, s.now, out);
  }

  // --- callbacks -----------------------------------------------------------------------------------

  // What a timeout function does to timers.
  datatype Command = DoStart(t: int) | DoStop(t: int)

  // The timers' callbacks: what timer t does when it is the i-th to fire in one check.
  type Callbacks = (int, nat) -> seq<Command>

  ghost function Run(s: Timers, c: Command): Timers
    requires Known(s, c.t) && InRange(s.list, |s.deadline|)
  {
    if c.DoStart? then Start(s, c.t) else Stop(s, c.t)
  }

  // The last command of a script about timer t.
  datatype Last = Nothing | Some(c: Command)

  function LastOwn(script: seq<Command>, t: int): Last {
    if script == [] then Nothing
    else
      var r := LastOwn(script[1..], t);
      if r == Nothing && script[0].t == t then Some(script[0]) else r
  }

  // The script stops t and leaves it started.
  predicate Restarts(script: seq<Command>, t: int) { DoStop(t) in script && LastOwn(script, t) == Some(DoStart(t)) }

  // What the callback of t starts, it starts in the future.  While t is active, a start of t itself is
  // refused and does not matter.
  ghost predicate Permitted(s: Timers, t: int, script: seq<Command>) {
    forall c :: c in script ==>
      Known(s, c.t) && (c.DoStart? ==> 0 < s.init[c.t] < HALF || (c.t == t && DoStop(t) !in script))
  }

  // And it does not restart t.
  ghost predicate Allowed(s: Timers, t: int, script: seq<Command>) { Permitted(s, t, script) && !Restarts(script, t) }

  ghost predicate WellBehaved(s: Timers, cb: Callbacks) {
    && (forall t: int, i: nat {:trigger Allowed(s, t, cb(t, i))} :: Allowed(s, t, cb(t, i)))
    && (forall t :: 1 <= t < |s.init| && t < |s.periodic| && s.periodic[t] ==> 0 < s.init[t] < HALF)
  }

  lemma RunOk(s: Timers, c: Command, out: int)
    requires Ok(s, out) && Known(s, c.t) && (c.DoStart? ==> c.t != out && Startable(s, c.t))
    ensures Ok(Run(s, c), out)
  {
    if c.DoStart? { StartOk(s, c.t, out); } else { StopOk(s, c.t, out); }
  }

  // Only deadline, list, stamps and active change.
  ghost predicate SameSetting(s: Timers, s': Timers) {
    && s'.init == s.init && s'.periodic == s.periodic && s'.now == s.now
    && |s'.active| == |s.active| && |s'.deadline| == |s.deadline| && |s'.stamp| == |s.stamp|
  }

  // --- the callback of t and t itself ----------------------------------------------------------------

  // While its callback runs, t is active but not linked, or stopped, or linked again.
  datatype Own = Waiting | Stopped | Linked

  ghost predicate Amid(s: Timers, t: int, o: Own) {
    Known(s, t) &&
    match o
    case Waiting => Ok(s, t) && s.active[t]
    case Stopped => Ok(s, 0) && !s.active[t]
    case Linked => Ok(s, 0) && s.active[t]
  }

  function Next(o: Own, c: Command, t: int): Own {
    if c.t != t then o else if c.DoStop? then Stopped else if o == Waiting then Waiting else Linked
  }

  // Where a script that finds t in o can be run from.
  ghost predicate Runnable(s: Timers, t: int, o: Own, script: seq<Command>) {
    && Amid(s, t, o)
    && forall c :: c in script ==>
         Known(s, c.t) && (c.DoStart? ==> 0 < s.init[c.t] < HALF || (c.t == t && o != Stopped && DoStop(t) !in script))
  }

  lemma AmidStep(s: Timers, t: int, o: Own, c: Command)
    requires Amid(s, t, o) && Known(s, c.t)
    requires c.DoStart? ==> 0 < s.init[c.t] < HALF || (c.t == t && o != Stopped)
    ensures Amid(Run(s, c), t, Next(o, c, t)) && SameSetting(s, Run(s, c))
  {
    var out := if o == Waiting then t else 0;
    if c == DoStart(t) && o == Waiting { return; }
    if c.DoStop? { StopOk(s, c.t, out); } else if !s.active[c.t] { StartOk(s, c.t, out); }
    if c == DoStop(t) { StoppedAlone(Run(s, c), t, out); }
  }

  // A timer that is not active may count as running its callback or not.
  lemma StoppedAlone(s: Timers, t: int, out: int)
    requires Ok(s, out) && (out == t || out == 0) && Known(s, t) && (out == t || t !in s.list) && !s.active[t]
    ensures Ok(s, 0) && Ok(s, t)
  {
  }

  lemma RunnableStep(s: Timers, t: int, o: Own, script: seq<Command>)
    requires Runnable(s, t, o, script) && script != []
    ensures Runnable(Run(s, script[0]), t, Next(o, script[0], t), script[1..]) && SameSetting(s, Run(s, script[0]))
  {
    assert script[0] in script;
    AmidStep(s, t, o, script[0]);
  }

  function OwnAfter(o: Own, script: seq<Command>, t: int): Own
    decreases |script|
  {
    if script == [] then o else OwnAfter(Next(o, script[0], t), script[1..], t)
  }

  ghost function RunAll(s: Timers, t: int, o: Own, script: seq<Command>): (s': Timers)
    requires Runnable(s, t, o, script)
    ensures Amid(s', t, OwnAfter(o, script, t)) && SameSetting(s, s')
    decreases |script|
  {
    if script == [] then s
    else
      RunnableStep(s, t, o, script);
      RunAll(Run(s, script[0]), t, Next(o, script[0], t), script[1..])
  }

  // t ends up linked exactly if the script restarts it.
  lemma {:induction false} LinkedIff(o: Own, script: seq<Command>, t: int)
    ensures OwnAfter(o, script, t) == Linked <==>
      if LastOwn(script, t) == Nothing then o == Linked
      else LastOwn(script, t) == Some(DoStart(t)) && (o != Waiting || DoStop(t) in script)
    ensures LastOwn(script, t) == Nothing ==> DoStop(t) !in script
    ensures LastOwn(script, t).Some? ==> LastOwn(script, t).c.t == t
    decreases |script|
  {
    if script != [] { LinkedIff(Next(o, script[0], t), script[1..], t); }
  }

  // What follows the callback of t: restart it, or clear its flag.
  ghost function Settle(s: Timers, t: int): (s': Timers)
    requires Known(s, t) && InRange(s.list, |s.deadline|)
  {
    var s2 := s.(active := s.active[t := false]);
    if s.periodic[t] && s.active[t] then Start(s2, t) else s2
  }

  lemma SettleOk(s: Timers, t: int, o: Own)
    requires Amid(s, t, o) && o != Linked && (s.periodic[t] ==> 0 < s.init[t] < HALF)
    ensures Ok(s.(active := s.active[t := false]), 0) && Ok(Settle(s, t), 0) && SameSetting(s, Settle(s, t))
  {
    var s2 := s.(active := s.active[t := false]);
    assert Listed(s2.list, s2.active, 0);
    if s.periodic[t] && s.active[t] { StartOk(s2, t, 0); }
  }

  // If t is linked, it keeps its link without its flag, or is linked twice.
  lemma SettleBreaks(s: Timers, t: int)
    requires Amid(s, t, Linked)
    ensures !Ok(Settle(s, t), 0)
  {
    assert t in s.list;
    var s2 := s.(active := s.active[t := false]);
    if s.periodic[t] {
      var i :| 0 <= i < |s.list| && s.list[i] == t;
      var v := s.now + s.init[t];
      var n := Reach(s.list, s.deadline[t := v], v);
      var r := Inserted(s.list, n, t);
      assert r[n] == t && r[if i < n then i else i + 1] == t;
      if NoDup(r) { Distinct(r, n, if i < n then i else i + 1); }
    }
  }

  // For every script that is permitted otherwise, settling t after its callback leaves the timers in
  // order exactly if the script does not stop t and then leave it started.
  lemma SettlesIff(s: Timers, t: int, script: seq<Command>)
    requires Amid(s, t, Waiting) && Permitted(s, t, script) && (s.periodic[t] ==> 0 < s.init[t] < HALF)
    ensures Runnable(s, t, Waiting, script)
    ensures Ok(Settle(RunAll(s, t, Waiting, script), t), 0) <==> !Restarts(script, t)
  {
    LinkedIff(Waiting, script, t);
    var s1 := RunAll(s, t, Waiting, script);
    if Restarts(script, t) { SettleBreaks(s1, t); } else { SettleOk(s1, t, OwnAfter(Waiting, script, t)); }
  }

  lemma RunOne(s: Timers, t: int, o: Own, c: Command)
    requires Runnable(s, t, o, [c])
    ensures Known(s, c.t) && RunAll(s, t, o, [c]) == Run(s, c)
  {
    RunnableStep(s, t, o, [c]);
    assert [c][0] in [c] && [c][1..] == [];
  }

  lemma RunTwo(s: Timers, t: int, o: Own, c: Command, d: Command)
    requires Runnable(s, t, o, [c, d])
    ensures Known(s, c.t) && InRange(s.list, |s.deadline|)
    ensures Known(Run(s, c), d.t) && InRange(Run(s, c).list, |Run(s, c).deadline|)
    ensures RunAll(s, t, o, [c, d]) == Run(Run(s, c), d)
  {
    RunnableStep(s, t, o, [c, d]);
    assert [c, d][0] in [c, d] && [c, d][1..] == [d];
    RunOne(Run(s, c), t, Next(o, c, t), d);
  }

  // The shortest such script, at a one-shot timer: it leaves the timer linked without its flag, so that
  // the next start will link it twice.
  lemma OwnRestart(s: Timers, t: int)
    requires Amid(s, t, Waiting) && 0 < s.init[t] < HALF && !s.periodic[t]
    ensures Runnable(s, t, Waiting, [DoStop(t), DoStart(t)])
    ensures var s1 := Settle(RunAll(s, t, Waiting, [DoStop(t), DoStart(t)]), t); t in s1.list && !s1.active[t]
  {
    var script := [DoStop(t), DoStart(t)];
    RunTwo(s, t, Waiting, DoStop(t), DoStart(t));
    var s1 := Run(s, DoStop(t));
    var v := s1.now + s1.init[t];
    InsertedMembers(s1.list, Reach(s1.list, s1.deadline[t := v], v), t, t);
  }

  // One turn of the loop of rt_timer_check: the head leaves the list, its callback runs, and a
  // periodic timer that is still active starts again.
  ghost function Fire(s: Timers, script: seq<Command>): (s': Timers)
    requires Ok(s, 0) && s.list != [] && Allowed(s, s.list[0], script)
    requires s.periodic[s.list[0]] ==> 0 < s.init[s.list[0]] < HALF
    ensures Ok(s', 0) && SameSetting(s, s')
  {
    PopAmid(s);
    var s0, t := s.(list := s.list[1..]), s.list[0];
    assert Permitted(s0, t, script);
    SettlesIff(s0, t, script);
    LinkedIff(Waiting, script, t);
    SettleOk(RunAll(s0, t, Waiting, script), t, OwnAfter(Waiting, script, t));
    Settle(RunAll(s0, t, Waiting, script), t)
  }

  lemma PopAmid(s: Timers)
    requires Ok(s, 0) && s.list != []
    ensures Amid(s.(list := s.list[1..]), s.list[0], Waiting)
  {
    PopOk(s);
    assert s.list[0] in s.list;
  }

  lemma PopOk(s: Timers)
    requires Ok(s, 0) && s.list != []
    ensures Ok(s.(list := s.list[1..]), s.list[0])
  {
    assert Removed(s.list, 0) == s.list[1..];
    RemovedOk(s.list, s.deadline, 0);
    RankedRemove(s.list, s.deadline, s.stamp, s.starts, 0);
  }

  // --- the check -------------------------------------------------------------------------------------

  // The timers at the front of the list whose deadline has come.
  ghost function Due(list: seq<int>, deadline: seq<int>, now: int): (p: seq<int>)
    requires InRange(list, |deadline|)
    ensures forall x :: x in p ==> x in list
  {
    if list == [] || deadline[list[0]] > now then []
    else [list[0]] + Due(list[1..], deadline, now)
  }

  lemma {:induction false} DuePrefix(list: seq<int>, deadline: seq<int>, now: int)
    requires InRange(list, |deadline|)
    ensures Due(list, deadline, now) == list[..Reach(list, deadline, now)]
  {
    if list != [] && deadline[list[0]] <= now {
      DuePrefix(list[1..], deadline, now);
    }
  }

  // In a sorted list they are exactly the timers whose deadline has come.
  lemma DueExact(list: seq<int>, deadline: seq<int>, now: int, x: int)
    requires ListOk(list, deadline) && x in list
    ensures 1 <= x < |deadline|
    ensures x in Due(list, deadline, now) <==> deadline[x] <= now
  {
    var i :| 0 <= i < |list| && list[i] == x;
    var n := Reach(list, deadline, now);
    DuePrefix(list, deadline, now);
    if i < n {
      ReachBefore(list, deadline, now, i);
      assert list[..n][i] == x;
    } else {
      ReachBehind(list, deadline, now, i);
      if x in list[..n] {
        var j :| 0 <= j < n && list[j] == x;
        Distinct(list, i, j);
      }
    }
  }

  lemma DueStart(list: seq<int>, deadline: seq<int>, t: int, v: int, now: int)
    requires ListOk(list, deadline) && 1 <= t < |deadline| && t !in list && v > now
    ensures InRange(Inserted(list, Reach(list, deadline[t := v], v), t), |deadline|)
    ensures Due(Inserted(list, Reach(list, deadline[t := v], v), t), deadline[t := v], now) == Due(list, deadline, now)
  {
    var deadline' := deadline[t := v];
    KeyedInsert(list, deadline, t, v);
    ReachIgnores(list, deadline, now, t, v);
    var n, m := Reach(list, deadline', v), Reach(list, deadline', now);
    var r := Inserted(list, n, t);
    assert m <= n by {
      if n < m { ReachBehind(list, deadline', v, n); ReachBefore(list, deadline', now, n); }
    }
    forall i | 0 <= i < m ensures deadline'[r[i]] <= now { ReachBefore(list, deadline', now, i); }
    if m < |list| { ReachBehind(list, deadline', now, m); }
    ReachUnique(r, deadline', now, m);
    DuePrefix(r, deadline', now);
    DuePrefix(list, deadline, now);
    assert r[..m] == list[..m];
  }

  lemma {:induction false} DueStop(list: seq<int>, deadline: seq<int>, t: int, now: int)
    requires ListOk(list, deadline)
    ensures InRange(Without(list, t), |deadline|)
    ensures Due(Without(list, t), deadline, now) == Without(Due(list, deadline, now), t)
  {
    WithoutOk(list, deadline, t);
    if list != [] {
      NoDupTail(list);
      SortedTail(list, deadline);
      if deadline[list[0]] > now {
        NoneDue(Without(list, t), list, deadline, now);
      } else {
        DueStop(list[1..], deadline, t, now);
        DueOfCons(list[0], Without(list[1..], t), deadline, now);
        assert Without(list, t) == if list[0] == t then Without(list[1..], t) else [list[0]] + Without(list[1..], t);
        var rest := Due(list[1..], deadline, now);
        assert ([list[0]] + rest)[1..] == rest;
        assert Without([list[0]] + rest, t) == (if list[0] == t then [] else [list[0]]) + Without(rest, t);
      }
    }
  }

  lemma NoneDue(r: seq<int>, list: seq<int>, deadline: seq<int>, now: int)
    requires InRange(list, |deadline|) && Sorted(list, deadline) && list != [] && deadline[list[0]] > now
    requires InRange(r, |deadline|) && forall x :: x in r ==> x in list
    ensures Due(r, deadline, now) == []
  {
    if r != [] {
      assert r[0] in list;
      var i :| 0 <= i < |list| && list[i] == r[0];
      assert NotAfter(list, deadline, 0, i);
    }
  }

  lemma DueOfCons(x: int, rest: seq<int>, deadline: seq<int>, now: int)
    requires InRange(rest, |deadline|) && 1 <= x < |deadline| && deadline[x] <= now
    ensures InRange([x] + rest, |deadline|)
    ensures Due([x] + rest, deadline, now) == [x] + Due(rest, deadline, now)
  {
    assert ([x] + rest)[1..] == rest;
  }

  ghost function DueNow(s: Timers): seq<int>
    requires InRange(s.list, |s.deadline|)
  {
    Due(s.list, s.deadline, s.now)
  }

  // p without the timers that a script stops.
  ghost function Drop(p: seq<int>, script: seq<Command>): (r: seq<int>)
    ensures |r| <= |p|
    ensures forall x :: x in r ==> x in p
    decreases |script|
  {
    if script == [] then p
    else Drop(if script[0].DoStop? then Without(p, script[0].t) else p, script[1..])
  }

  lemma {:induction false} RunAllDue(s: Timers, t: int, o: Own, script: seq<Command>)
    requires Runnable(s, t, o, script)
    ensures DueNow(RunAll(s, t, o, script)) == Drop(DueNow(s), script)
    decreases |script|
  {
    if script != [] {
      assert script[0] in script;
      RunnableStep(s, t, o, script);
      AmidDue(s, t, o, script[0]);
      RunAllDue(Run(s, script[0]), t, Next(o, script[0], t), script[1..]);
    }
  }

  lemma AmidDue(s: Timers, t: int, o: Own, c: Command)
    requires Amid(s, t, o) && Known(s, c.t)
    requires c.DoStart? ==> 0 < s.init[c.t] < HALF || (c.t == t && o != Stopped)
    ensures InRange(Run(s, c).list, |Run(s, c).deadline|)
    ensures DueNow(Run(s, c)) == if c.DoStop? then Without(DueNow(s), c.t) else DueNow(s)
  {
    AmidStep(s, t, o, c);
    if c.DoStart? && s.active[c.t] { return; }
    RunDue(s, c, if o == Waiting then t else 0);
  }

  lemma RunDue(s: Timers, c: Command, out: int)
    requires Ok(s, out) && Known(s, c.t) && (c.DoStart? ==> c.t != out && 0 < s.init[c.t] < HALF)
    ensures Ok(Run(s, c), out)
    ensures DueNow(Run(s, c)) == if c.DoStop? then Without(DueNow(s), c.t) else DueNow(s)
  {
    RunOk(s, c, out);
    if c.DoStart? {
      if !s.active[c.t] { DueStart(s.list, s.deadline, c.t, s.now + s.init[c.t], s.now); }
    } else if s.active[c.t] {
      DueStop(s.list, s.deadline, c.t, s.now);
    } else {
      assert c.t !in DueNow(s);
      WithoutNone(DueNow(s), c.t);
    }
  }

  lemma SettleDue(s: Timers, t: int, o: Own)
    requires Amid(s, t, o) && o != Linked && (s.periodic[t] ==> 0 < s.init[t] < HALF)
    ensures InRange(Settle(s, t).list, |Settle(s, t).deadline|) && DueNow(Settle(s, t)) == DueNow(s)
  {
    SettleOk(s, t, o);
    if s.periodic[t] && s.active[t] {
      DueStart(s.list, s.deadline, t, s.now + s.init[t], s.now);
    }
  }

  lemma FireDue(s: Timers, script: seq<Command>)
    requires Ok(s, 0) && s.list != [] && Allowed(s, s.list[0], script) && s.deadline[s.list[0]] <= s.now
    requires s.periodic[s.list[0]] ==> 0 < s.init[s.list[0]] < HALF
    ensures DueNow(Fire(s, script)) == Drop(DueNow(s)[1..], script)
  {
    PopAmid(s);
    var s0, t := s.(list := s.list[1..]), s.list[0];
    assert Permitted(s0, t, script);
    SettlesIff(s0, t, script);
    RunAllDue(s0, t, Waiting, script);
    LinkedIff(Waiting, script, t);
    assert DueNow(s)[1..] == DueNow(s0);
    SettleDue(RunAll(s0, t, Waiting, script), t, OwnAfter(Waiting, script, t));
  }

  // rt_timer_check, on the list: the state it leaves and the timers it fires, in order.
  ghost function Check(s: Timers, cb: Callbacks, i: nat): (r: (Timers, seq<int>))
    requires Ok(s, 0) && WellBehaved(s, cb)
    ensures Ok(r.0, 0) && SameSetting(s, r.0)
    decreases |DueNow(s)|
  {
    if s.list == [] || s.deadline[s.list[0]] > s.now then (s, [])
    else
      var t := s.list[0];
      assert Allowed(s, t, cb(t, i));
      FireDue(s, cb(t, i));
      var s' := Fire(s, cb(t, i));
      BehavedKept(s, s', cb);
      var rest := Check(s', cb, i + 1);
      (rest.0, [t] + rest.1)
  }

  lemma BehavedKept(s: Timers, s': Timers, cb: Callbacks)
    requires Ok(s, 0) && Ok(s', 0) && SameSetting(s, s') && WellBehaved(s, cb)
    ensures WellBehaved(s', cb)
  {
    forall t: int, i: nat ensures Allowed(s', t, cb(t, i)) { assert Allowed(s, t, cb(t, i)); }
  }

  // --- what a check fires -------------------------------------------------------------------------------

  // Of the due timers p, those that fire: all but the ones that the callback of an earlier one stops.
  ghost function Survivors(p: seq<int>, cb: Callbacks, i: nat): (r: seq<int>)
    ensures forall x :: x in r ==> x in p
    decreases |p|
  {
    if p == [] then [] else [p[0]] + Survivors(Drop(p[1..], cb(p[0], i)), cb, i + 1)
  }

  lemma CheckStep(s: Timers, cb: Callbacks, i: nat) returns (s': Timers)
    requires Ok(s, 0) && WellBehaved(s, cb) && s.list != [] && s.deadline[s.list[0]] <= s.now
    ensures Allowed(s, s.list[0], cb(s.list[0], i)) && s' == Fire(s, cb(s.list[0], i))
    ensures Ok(s', 0) && WellBehaved(s', cb)
    ensures DueNow(s) != [] && DueNow(s)[0] == s.list[0]
    ensures DueNow(s') == Drop(DueNow(s)[1..], cb(s.list[0], i))
    ensures Check(s, cb, i) == (Check(s', cb, i + 1).0, [s.list[0]] + Check(s', cb, i + 1).1)
  {
    var t := s.list[0];
    assert Allowed(s, t, cb(t, i));
    FireDue(s, cb(t, i));
    s' := Fire(s, cb(t, i));
    BehavedKept(s, s', cb);
  }

  lemma SurvivorsStep(p: seq<int>, q: seq<int>, cb: Callbacks, i: nat)
    requires p != [] && q == Drop(p[1..], cb(p[0], i))
    ensures Survivors(p, cb, i) == [p[0]] + Survivors(q, cb, i + 1)
  {
  }

  lemma {:induction false} CheckFires(s: Timers, cb: Callbacks, i: nat)
    requires Ok(s, 0) && WellBehaved(s, cb)
    ensures Check(s, cb, i).1 == Survivors(DueNow(s), cb, i)
    decreases |DueNow(s)|
  {
    if s.list != [] && s.deadline[s.list[0]] <= s.now {
      var s' := CheckStep(s, cb, i);
      CheckFires(s', cb, i + 1);
      SurvivorsStep(DueNow(s), DueNow(s'), cb, i);
    } else {
      assert Check(s, cb, i).1 == [];
      assert Survivors([], cb, i) == [];
    }
  }

  lemma {:induction false} CheckEnds(s: Timers, cb: Callbacks, i: nat)
    requires Ok(s, 0) && WellBehaved(s, cb)
    ensures DueNow(Check(s, cb, i).0) == []
    decreases |DueNow(s)|
  {
    if s.list != [] && s.deadline[s.list[0]] <= s.now {
      var s' := CheckStep(s, cb, i);
      CheckEnds(s', cb, i + 1);
    }
  }

  ghost predicate NoStops(script: seq<Command>) { forall c :: c in script ==> c.DoStart? }

  // With callbacks that stop nothing, exactly the due timers fire, in list order.
  lemma {:induction false} QuietCallbacks(p: seq<int>, cb: Callbacks, i: nat)
    requires forall t: int, j: nat :: NoStops(cb(t, j))
    ensures Survivors(p, cb, i) == p
    decreases |p|
  {
    if p != [] {
      var t := p[0];
      assert NoStops(cb(t, i));
      DropNothing(p[1..], cb(t, i));
      QuietCallbacks(p[1..], cb, i + 1);
    }
  }

  lemma {:induction false} DropNothing(p: seq<int>, script: seq<Command>)
    requires NoStops(script)
    ensures Drop(p, script) == p
    decreases |script|
  {
    if script != [] {
      assert script[0] in script;
      DropNothing(p, script[1..]);
    }
  }

  // A due timer that no callback stops fires.
  lemma {:induction false} Unstopped(p: seq<int>, cb: Callbacks, i: nat, x: int)
    requires x in p && forall t: int, j: nat :: DoStop(x) !in cb(t, j)
    ensures x in Survivors(p, cb, i)
    decreases |p|
  {
    if p[0] != x {
      assert x in p[1..];
      DropKeeps(p[1..], cb(p[0], i), x);
      Unstopped(Drop(p[1..], cb(p[0], i)), cb, i + 1, x);
    }
  }

  lemma {:induction false} DropKeeps(p: seq<int>, script: seq<Command>, x: int)
    requires x in p && DoStop(x) !in script
    ensures x in Drop(p, script)
    decreases |script|
  {
    if script != [] {
      assert script[0] in script;
      DropKeeps(if script[0].DoStop? then Without(p, script[0].t) else p, script[1..], x);
    }
  }

  lemma {:induction false} DropPart(p: seq<int>, script: seq<Command>)
    ensures Subsequence(Drop(p, script), p)
    decreases |script|
  {
    if script == [] {
      SubsequenceSelf(p);
    } else {
      var q := if script[0].DoStop? then Without(p, script[0].t) else p;
      if script[0].DoStop? { WithoutSubsequence(p, script[0].t); } else { SubsequenceSelf(p); }
      DropPart(q, script[1..]);
      SubsequenceTrans(Drop(q, script[1..]), q, p);
    }
  }

  lemma {:induction false} SurvivorsPart(p: seq<int>, cb: Callbacks, i: nat)
    ensures Subsequence(Survivors(p, cb, i), p)
    decreases |p|
  {
    if p != [] {
      var q := Drop(p[1..], cb(p[0], i));
      var r := Survivors(q, cb, i + 1);
      DropPart(p[1..], cb(p[0], i));
      SurvivorsPart(q, cb, i + 1);
      SubsequenceTrans(r, q, p[1..]);
      assert ([p[0]] + r)[1..] == r;
    }
  }

  lemma {:induction false} DuePart(list: seq<int>, deadline: seq<int>, now: int)
    requires InRange(list, |deadline|)
    ensures Subsequence(Due(list, deadline, now), list)
  {
    if list != [] && deadline[list[0]] <= now {
      DuePart(list[1..], deadline, now);
      assert Due(list, deadline, now)[1..] == Due(list[1..], deadline, now);
    }
  }

  // The timers that a check fires are a part of the list in its order: by deadline, and of equal deadlines
  // the one started first.
  lemma FiringOrder(s: Timers, cb: Callbacks, i: nat)
    requires Ok(s, 0) && WellBehaved(s, cb)
    ensures Subsequence(Check(s, cb, i).1, s.list) && Ranked(Check(s, cb, i).1, s.deadline, s.stamp, s.starts)
  {
    CheckFires(s, cb, i);
    SurvivorsPart(DueNow(s), cb, i);
    DuePart(s.list, s.deadline, s.now);
    SubsequenceTrans(Survivors(DueNow(s), cb, i), DueNow(s), s.list);
    RankedPart(Survivors(DueNow(s), cb, i), s.list, s.deadline, s.stamp, s.starts);
  }
}
