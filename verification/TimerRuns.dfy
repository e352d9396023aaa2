// Whole runs of the timer list: ticks, and starts, stops and new times from threads in between.

module TimerRuns {
  import opened RingList
  import opened SortedList
  import opened TimerSpec

  datatype Event = Tick(cb: Callbacks) | Do(c: Command) | SetTime(t: int, ticks: int)

  // Between two operations: every listed timer is due at the next tick at the earliest.
  ghost predicate Between(s: Timers) {
    Ok(s, 0) && forall x :: x in s.list ==> s.deadline[x] >= s.now
  }

  ghost predicate Legal(s: Timers, e: Event) {
    match e
    case Tick(cb) => WellBehaved(s, cb)
    case Do(c) => Known(s, c.t) && (c.DoStart? ==> Startable(s, c.t))
    case SetTime(t, ticks) => Known(s, t)
  }

  // rt_tick_increase: the tick counts on and the timers are checked.
  ghost function Step(s: Timers, e: Event): (r: (Timers, seq<int>))
    requires Between(s) && Legal(s, e)
    ensures Between(r.0) && r.0.now == if e.Tick? then s.now + 1 else s.now
  {
    match e
    case Tick(cb) => TickBetween(s, cb); Check(s.(now := s.now + 1), cb, 0)
    case Do(c) => DoBetween(s, c); (Run(s, c), [])
    case SetTime(t, ticks) => (s.(init := s.init[t := ticks]), [])
  }

  lemma DoBetween(s: Timers, c: Command)
    requires Between(s) && Legal(s, Do(c))
    ensures Between(Run(s, c))
  {
    RunOk(s, c, 0);
    if c.DoStart? && !s.active[c.t] {
      var v := s.now + s.init[c.t];
      var n := Reach(s.list, s.deadline[c.t := v], v);
      var s' := Run(s, c);
      forall x | x in s'.list ensures s'.deadline[x] >= s'.now { InsertedMembers(s.list, n, c.t, x); }
    }
  }

  lemma Advance(s: Timers)
    requires Between(s)
    ensures Ok(s.(now := s.now + 1), 0)
  {
  }

  // After a tick no listed timer is overdue, so the window is never left.
  lemma TickBetween(s: Timers, cb: Callbacks)
    requires Between(s) && WellBehaved(s, cb)
    ensures Ok(s.(now := s.now + 1), 0) && WellBehaved(s.(now := s.now + 1), cb)
    ensures Between(Check(s.(now := s.now + 1), cb, 0).0)
  {
    Advance(s);
    var s1 := s.(now := s.now + 1);
    forall t: int, i: nat ensures Allowed(s1, t, cb(t, i)) { assert Allowed(s, t, cb(t, i)); }
    CheckEnds(s1, cb, 0);
    var r := Check(s1, cb, 0).0;
    forall x | x in r.list ensures r.deadline[x] > r.now { DueExact(r.list, r.deadline, r.now, x); }
  }

  // --- a timer that nobody stops ----------------------------------------------------------------------

  ghost predicate Keeps(s: Timers, s': Timers, t: int) {
    t in s.list && t in s'.list && 0 <= t < |s.deadline| == |s'.deadline| && s'.deadline[t] == s.deadline[t]
  }

  lemma RunKeeps(s: Timers, c: Command, out: int, t: int)
    requires Ok(s, out) && Known(s, c.t) && (c.DoStart? ==> c.t != out && Startable(s, c.t))
    requires t in s.list && c != DoStop(t)
    ensures Ok(Run(s, c), out) && Keeps(s, Run(s, c), t)
  {
    RunOk(s, c, out);
    if c.DoStart? && !s.active[c.t] {
      var v := s.now + s.init[c.t];
      InsertedMembers(s.list, Reach(s.list, s.deadline[c.t := v], v), c.t, t);
    }
  }

  lemma AmidKeeps(s: Timers, u: int, o: Own, c: Command, t: int)
    requires Amid(s, u, o) && Known(s, c.t) && t in s.list && c != DoStop(t)
    requires c.DoStart? ==> 0 < s.init[c.t] < HALF || (c.t == u && o != Stopped)
    ensures Keeps(s, Run(s, c), t)
  {
    if c.DoStart? && s.active[c.t] { return; }
    RunKeeps(s, c, if o == Waiting then u else 0, t);
  }

  lemma {:induction false} RunAllKeeps(s: Timers, u: int, o: Own, script: seq<Command>, t: int)
    requires Runnable(s, u, o, script) && t in s.list && DoStop(t) !in script
    ensures Keeps(s, RunAll(s, u, o, script), t)
    decreases |script|
  {
    if script != [] {
      var c := script[0];
      assert c in script;
      AmidKeeps(s, u, o, c, t);
      RunnableStep(s, u, o, script);
      RunAllKeeps(Run(s, c), u, Next(o, c, u), script[1..], t);
    }
  }

  lemma SettleKeeps(s: Timers, u: int, o: Own, t: int)
    requires Amid(s, u, o) && o != Linked && (s.periodic[u] ==> 0 < s.init[u] < HALF) && t in s.list
    ensures Keeps(s, Settle(s, u), t)
  {
    var s2 := s.(active := s.active[u := false]);
    SettleOk(s, u, o);
    if s.periodic[u] && s.active[u] { RunKeeps(s2, DoStart(u), 0, t); }
  }

  lemma FireKeeps(s: Timers, script: seq<Command>, t: int)
    requires Ok(s, 0) && s.list != [] && Allowed(s, s.list[0], script)
    requires s.periodic[s.list[0]] ==> 0 < s.init[s.list[0]] < HALF
    requires t in s.list && t != s.list[0] && DoStop(t) !in script
    ensures Keeps(s, Fire(s, script), t)
  {
    PopAmid(s);
    var s0, u := s.(list := s.list[1..]), s.list[0];
    assert t in s0.list;
    assert Permitted(s0, u, script);
    SettlesIff(s0, u, script);
    LinkedIff(Waiting, script, u);
    RunAllKeeps(s0, u, Waiting, script, t);
    SettleKeeps(RunAll(s0, u, Waiting, script), u, OwnAfter(Waiting, script, u), t);
  }

  ghost predicate Spares(cb: Callbacks, t: int) { forall u: int, i: nat :: DoStop(t) !in cb(u, i) }

  lemma CheckKeepsStep(s: Timers, cb: Callbacks, i: nat, t: int) returns (s': Timers)
    requires Ok(s, 0) && WellBehaved(s, cb) && Spares(cb, t)
    requires t in s.list && s.deadline[t] > s.now && s.deadline[s.list[0]] <= s.now
    ensures Ok(s', 0) && WellBehaved(s', cb) && s'.now == s.now && Keeps(s, s', t)
    ensures |DueNow(s')| < |DueNow(s)|
    ensures Check(s, cb, i).0 == Check(s', cb, i + 1).0
  {
    var u := s.list[0];
    assert Allowed(s, u, cb(u, i));
    FireDue(s, cb(u, i));
    FireKeeps(s, cb(u, i), t);
    s' := Fire(s, cb(u, i));
    BehavedKept(s, s', cb);
  }

  lemma {:induction false} CheckKeeps(s: Timers, cb: Callbacks, i: nat, t: int)
    requires Ok(s, 0) && WellBehaved(s, cb) && Spares(cb, t)
    requires t in s.list && s.deadline[t] > s.now
    ensures Keeps(s, Check(s, cb, i).0, t)
    decreases |DueNow(s)|
  {
    if s.deadline[s.list[0]] <= s.now {
      var s' := CheckKeepsStep(s, cb, i, t);
      CheckKeeps(s', cb, i + 1, t);
    }
  }

  ghost predicate Leaves(e: Event, t: int) {
    match e
    case Tick(cb) => Spares(cb, t)
    case Do(c) => c != DoStop(t)
    case SetTime(u, ticks) => true
  }

  // One step fires t exactly when it is a tick that reaches its deadline; otherwise t stays as it is.
  lemma StepFires(s: Timers, e: Event, t: int)
    requires Between(s) && Legal(s, e) && t in s.list && Leaves(e, t)
    ensures t in Step(s, e).1 <==> e.Tick? && s.deadline[t] <= s.now + 1
    ensures t !in Step(s, e).1 ==> Keeps(s, Step(s, e).0, t)
  {
    match e
    case Tick(cb) =>
      TickBetween(s, cb);
      var s1 := s.(now := s.now + 1);
      CheckFires(s1, cb, 0);
      DueExact(s1.list, s1.deadline, s1.now, t);
      if s.deadline[t] <= s.now + 1 { Unstopped(DueNow(s1), cb, 0, t); } else { CheckKeeps(s1, cb, 0, t); }
    case Do(c) => RunKeeps(s, c, 0, t);
    case SetTime(u, ticks) =>
  }

  // --- runs --------------------------------------------------------------------------------------------

  ghost predicate LegalRun(s: Timers, run: seq<Event>)
    requires Between(s)
    decreases |run|
  {
    run == [] || (Legal(s, run[0]) && LegalRun(Step(s, run[0]).0, run[1..]))
  }

  function Ticks(run: seq<Event>): nat {
    if run == [] then 0 else (if run[0].Tick? then 1 else 0) + Ticks(run[1..])
  }

  datatype Moment = Never | At(tick: int)

  // The tick of the run at which t first fires.
  ghost function FirstFire(s: Timers, run: seq<Event>, t: int): Moment
    requires Between(s) && LegalRun(s, run)
    decreases |run|
  {
    if run == [] then Never
    else
      var r := Step(s, run[0]);
      if t in r.1 then At(r.0.now) else FirstFire(r.0, run[1..], t)
  }

  // In every run that does not stop it, a started timer first fires at the very tick of its
  // deadline: not earlier, not later, whatever the other timers and their callbacks do.  A timer
  // of zero ticks fires at the next tick.
  lemma {:induction false} FiresOnTime(s: Timers, run: seq<Event>, t: int)
    requires Between(s) && LegalRun(s, run) && t in s.list
    requires forall i :: 0 <= i < |run| ==> Leaves(run[i], t)
    ensures
      var due := if s.deadline[t] > s.now then s.deadline[t] else s.now + 1;
      FirstFire(s, run, t) == if due <= s.now + Ticks(run) then At(due) else Never
    decreases |run|
  {
    if run != [] {
      assert Leaves(run[0], t);
      StepFires(s, run[0], t);
      var r := Step(s, run[0]);
      if t !in r.1 { FiresOnTime(r.0, run[1..], t); }
    }
  }

  ghost function AfterRun(s: Timers, run: seq<Event>): (r: Timers)
    requires Between(s) && LegalRun(s, run)
    ensures Between(r)
    decreases |run|
  {
    if run == [] then s else AfterRun(Step(s, run[0]).0, run[1..])
  }

  // At every point of every run, the list is in the order of deadlines, and of starts within a deadline;
  // and the next tick fires in that order.
  lemma StartOrder(s: Timers, run: seq<Event>, cb: Callbacks)
    requires Between(s) && LegalRun(s, run) && WellBehaved(AfterRun(s, run), cb)
    ensures var r := AfterRun(s, run);
      && Ranked(r.list, r.deadline, r.stamp, r.starts) && Ranked(Step(r, Tick(cb)).1, r.deadline, r.stamp, r.starts)
      && Subsequence(Step(r, Tick(cb)).1, r.list)
  {
    var r := AfterRun(s, run);
    TickBetween(r, cb);
    FiringOrder(r.(now := r.now + 1), cb, 0);
  }

  // A tick is a check at the next tick.
  lemma TickIsCheck(s: Timers, cb: Callbacks) returns (s1: Timers, r: (Timers, seq<int>))
    requires Between(s) && WellBehaved(s, cb)
    ensures s1 == s.(now := s.now + 1) && Ok(s1, 0) && WellBehaved(s1, cb)
    ensures r == Check(s1, cb, 0) == Step(s, Tick(cb))
  {
    TickBetween(s, cb);
    s1 := s.(now := s.now + 1);
    r := Check(s1, cb, 0);
  }

  // --- what becomes of a timer that fired ------------------------------------------------------------------

  lemma {:induction false} OwnWaits(o: Own, script: seq<Command>, t: int)
    requires DoStop(t) !in script && o == Waiting
    ensures OwnAfter(o, script, t) == Waiting
    decreases |script|
  {
    if script != [] {
      assert script[0] in script;
      OwnWaits(o, script[1..], t);
    }
  }

  // The firing of t itself, by callbacks that do not stop it: a periodic timer is listed again, one
  // period from now; any other is off.
  lemma FireSettles(s: Timers, script: seq<Command>, t: int)
    requires Ok(s, 0) && s.list != [] && t == s.list[0] && Allowed(s, t, script) && DoStop(t) !in script
    requires s.periodic[t] ==> 0 < s.init[t] < HALF
    ensures var s' := Fire(s, script);
      && |s'.deadline| == |s'.active| == |s.active| && 1 <= t < |s.active|
      && if s.periodic[t] then t in s'.list && s'.deadline[t] == s.now + s.init[t] else t !in s'.list && !s'.active[t]
  {
    PopAmid(s);
    var s0 := s.(list := s.list[1..]);
    assert Permitted(s0, t, script);
    SettlesIff(s0, t, script);
    OwnWaits(Waiting, script, t);
    var s1 := RunAll(s0, t, Waiting, script);
    assert Amid(s1, t, Waiting);
    if s.periodic[t] {
      var v := s1.now + s1.init[t];
      InsertedMembers(s1.list, Reach(s1.list, s1.deadline[t := v], v), t, t);
    }
  }

  ghost predicate Spared(s: Timers, cb: Callbacks, t: int) { Ok(s, 0) && WellBehaved(s, cb) && Spares(cb, t) }

  // One turn of a check in which t is not the one that fires.
  lemma OtherTurn(s: Timers, cb: Callbacks, i: nat, t: int) returns (s': Timers)
    requires Spared(s, cb, t) && t in s.list && s.list[0] != t && s.deadline[s.list[0]] <= s.now
    ensures Spared(s', cb, t) && SameSetting(s, s') && Keeps(s, s', t) && |DueNow(s')| < |DueNow(s)|
    ensures Check(s, cb, i).0 == Check(s', cb, i + 1).0
  {
    s' := CheckStep(s, cb, i);
    FireKeeps(s, cb(s.list[0], i), t);
  }

  lemma {:induction false} CheckRestarts(s: Timers, cb: Callbacks, i: nat, t: int)
    requires Spared(s, cb, t) && t in s.list && s.deadline[t] <= s.now && s.periodic[t]
    ensures var s' := Check(s, cb, i).0;
      t in s'.list && 0 <= t < |s'.deadline| && s'.deadline[t] == s.now + s.init[t]
    decreases |DueNow(s)|
  {
    FirstDue(s, t);
    if s.list[0] == t {
      var s' := CheckStep(s, cb, i);
      FireSettles(s, cb(t, i), t);
      CheckKeeps(s', cb, i + 1, t);
    } else {
      var s' := OtherTurn(s, cb, i, t);
      CheckRestarts(s', cb, i + 1, t);
    }
  }

  // If any timer is due, the first is.
  lemma FirstDue(s: Timers, t: int)
    requires Ok(s, 0) && t in s.list && s.deadline[t] <= s.now
    ensures s.list != [] && s.deadline[s.list[0]] <= s.now
  {
    var i :| 0 <= i < |s.list| && s.list[i] == t;
    assert NotAfter(s.list, s.deadline, 0, i);
  }

  // --- a timer that is off ---------------------------------------------------------------------------------

  ghost predicate Off(s: Timers, t: int) { Known(s, t) && t !in s.list && !s.active[t] }

  // No callback but its own starts t; its own finds it active and is refused.
  ghost predicate Rests(cb: Callbacks, t: int) { forall u: int, i: nat :: u != t ==> Lets(cb(u, i), t) }

  predicate Lets(script: seq<Command>, t: int) { DoStart(t) !in script }

  lemma RunOff(s: Timers, c: Command, t: int)
    requires Off(s, t) && Known(s, c.t) && InRange(s.list, |s.deadline|) && c != DoStart(t)
    ensures Off(Run(s, c), t)
  {
    if c.DoStart? && !s.active[c.t] {
      var v := s.now + s.init[c.t];
      InsertedMembers(s.list, Reach(s.list, s.deadline[c.t := v], v), c.t, t);
    }
  }

  lemma {:induction false} RunAllOff(s: Timers, u: int, o: Own, script: seq<Command>, t: int)
    requires Runnable(s, u, o, script) && Off(s, t) && DoStart(t) !in script
    ensures Off(RunAll(s, u, o, script), t)
    decreases |script|
  {
    if script != [] {
      assert script[0] in script;
      RunOff(s, script[0], t);
      RunnableStep(s, u, o, script);
      RunAllOff(Run(s, script[0]), u, Next(o, script[0], u), script[1..], t);
    }
  }

  lemma FireOff(s: Timers, script: seq<Command>, t: int)
    requires Ok(s, 0) && s.list != [] && Allowed(s, s.list[0], script) && Off(s, t) && DoStart(t) !in script
    requires s.periodic[s.list[0]] ==> 0 < s.init[s.list[0]] < HALF
    ensures Off(Fire(s, script), t)
  {
    PopAmid(s);
    var s0, u := s.(list := s.list[1..]), s.list[0];
    assert u in s.list;
    assert Permitted(s0, u, script);
    SettlesIff(s0, u, script);
    RunAllOff(s0, u, Waiting, script, t);
    var s1 := RunAll(s0, u, Waiting, script);
    if s1.periodic[u] && s1.active[u] { RunOff(s1.(active := s1.active[u := false]), DoStart(u), t); }
  }

  lemma {:induction false} CheckOff(s: Timers, cb: Callbacks, i: nat, t: int)
    requires Ok(s, 0) && WellBehaved(s, cb) && Rests(cb, t) && Off(s, t)
    ensures Off(Check(s, cb, i).0, t) && t !in Check(s, cb, i).1
    decreases |DueNow(s)|
  {
    if s.list != [] && s.deadline[s.list[0]] <= s.now {
      var u := s.list[0];
      assert u in s.list;
      var s' := CheckStep(s, cb, i);
      assert Lets(cb(u, i), t);
      FireOff(s, cb(u, i), t);
      CheckOff(s', cb, i + 1, t);
    }
  }

  lemma {:induction false} CheckRetires(s: Timers, cb: Callbacks, i: nat, t: int)
    requires Spared(s, cb, t) && Rests(cb, t) && t in s.list && s.deadline[t] <= s.now && !s.periodic[t]
    ensures Off(Check(s, cb, i).0, t)
    decreases |DueNow(s)|
  {
    FirstDue(s, t);
    if s.list[0] == t {
      var s' := CheckStep(s, cb, i);
      FireSettles(s, cb(t, i), t);
      CheckOff(s', cb, i + 1, t);
    } else {
      var s' := OtherTurn(s, cb, i, t);
      CheckRetires(s', cb, i + 1, t);
    }
  }

  // --- all firings of a timer in a run ------------------------------------------------------------------------

  // The run fires t at tick d.
  ghost predicate FiredAt(s: Timers, run: seq<Event>, t: int, d: int)
    requires Between(s) && LegalRun(s, run)
    decreases |run|
  {
    run != [] &&
    var r := Step(s, run[0]);
    (t in r.1 && r.0.now == d) || FiredAt(r.0, run[1..], t, d)
  }

  // d is due, or some periods later.
  predicate Beat(due: int, period: int, d: int)
    requires period > 0
    decreases d - due
  {
    d == due || (d > due && Beat(due + period, period, d))
  }

  // Beat says what it should: d is n periods after due, for some n.
  lemma {:induction false} BeatNth(due: int, period: int, n: nat)
    requires period > 0
    ensures Beat(due, period, due + n * period)
    decreases n
  {
    if n > 0 {
      BeatNth(due + period, period, n - 1);
      assert due + n * period == due + period + (n - 1) * period;
      assert n * period >= period;
    }
  }

  lemma {:induction false} NthBeat(due: int, period: int, d: int) returns (n: nat)
    requires period > 0 && Beat(due, period, d)
    ensures d == due + n * period
    decreases d - due
  {
    n := 0;
    if d != due {
      var k := NthBeat(due + period, period, d);
      n := k + 1;
      assert due + period + k * period == due + n * period;
    }
  }

  // Nothing but its own start changes how t runs.
  ghost predicate Undisturbed(e: Event, t: int) { Leaves(e, t) && (e.SetTime? ==> e.t != t) }

  ghost function DueTick(s: Timers, t: int): int
    requires 0 <= t < |s.deadline|
  {
    if s.deadline[t] > s.now then s.deadline[t] else s.now + 1
  }

  // The periodic timer t is listed; it fires next at tick due, if nothing disturbs it.
  ghost predicate Beats(s: Timers, t: int, due: int, period: int) {
    && Between(s) && t in s.list && 0 <= t < |s.periodic| && s.periodic[t] && 0 < s.init[t] == period
    && due == DueTick(s, t)
  }

  lemma BeatsFires(s: Timers, cb: Callbacks, t: int, period: int)
    requires Beats(s, t, s.now + 1, period) && WellBehaved(s, cb) && Spares(cb, t)
    ensures var r := Step(s, Tick(cb)); t in r.1 && Beats(r.0, t, s.now + 1 + period, period)
  {
    StepFires(s, Tick(cb), t);
    var s1, r := TickIsCheck(s, cb);
    CheckRestarts(s1, cb, 0, t);
    assert SameSetting(s1, r.0);
  }

  lemma BeatsWaits(s: Timers, cb: Callbacks, t: int, due: int, period: int)
    requires Beats(s, t, due, period) && WellBehaved(s, cb) && Spares(cb, t) && due != s.now + 1
    ensures var r := Step(s, Tick(cb)); t !in r.1 && Beats(r.0, t, due, period)
  {
    StepFires(s, Tick(cb), t);
    var s1, r := TickIsCheck(s, cb);
    assert SameSetting(s1, r.0);
  }

  lemma BeatsStep(s: Timers, e: Event, t: int, due: int, period: int)
    requires Beats(s, t, due, period) && Legal(s, e) && Undisturbed(e, t)
    ensures var r := Step(s, e);
      && (t in r.1 <==> e.Tick? && due == s.now + 1)
      && Beats(r.0, t, if t in r.1 then due + period else due, period)
  {
    if !e.Tick? {
      StepFires(s, e, t);
    } else if due == s.now + 1 {
      BeatsFires(s, e.cb, t, period);
    } else {
      BeatsWaits(s, e.cb, t, due, period);
    }
  }

  // In every run that does not stop it or change its time, a periodic timer fires at its deadline and then
  // every period, at exactly these ticks, whatever the other timers and their callbacks do.
  lemma {:induction false} FiresPeriodically(s: Timers, run: seq<Event>, t: int, due: int, period: int, d: int)
    requires Beats(s, t, due, period) && LegalRun(s, run)
    requires forall i :: 0 <= i < |run| ==> Undisturbed(run[i], t)
    ensures FiredAt(s, run, t, d) <==> Beat(due, period, d) && d <= s.now + Ticks(run)
    decreases |run|
  {
    assert due > s.now;
    if run != [] {
      var e := run[0];
      assert Undisturbed(e, t);
      BeatsStep(s, e, t, due, period);
      var r := Step(s, e);
      var next, last := if t in r.1 then due + period else due, s.now + Ticks(run);
      FiresPeriodically(r.0, run[1..], t, next, period, d);
      assert FiredAt(s, run, t, d) <==> (t in r.1 && r.0.now == d) || (Beat(next, period, d) && d <= last);
      BeatSplit(due, period, d);
    } else if d <= s.now {
      NoBeatBefore(due, period, d);
    }
  }

  lemma BeatSplit(due: int, period: int, d: int)
    requires period > 0
    ensures Beat(due, period, d) <==> d == due || Beat(due + period, period, d)
  {
    if d < due { NoBeatBefore(due + period, period, d); }
  }

  lemma NoBeatBefore(due: int, period: int, d: int)
    requires period > 0 && d < due
    ensures !Beat(due, period, d)
  {
  }

  ghost predicate NotStarted(e: Event, t: int) {
    match e
    case Tick(cb) => Rests(cb, t)
    case Do(c) => c != DoStart(t)
    case SetTime(_, _) => true
  }

  lemma OffStep(s: Timers, e: Event, t: int)
    requires Between(s) && Legal(s, e) && Off(s, t) && NotStarted(e, t)
    ensures var r := Step(s, e); t !in r.1 && Off(r.0, t)
  {
    if e.Tick? { OffTick(s, e.cb, t); } else if e.Do? { RunOff(s, e.c, t); }
  }

  lemma OffTick(s: Timers, cb: Callbacks, t: int)
    requires Between(s) && WellBehaved(s, cb) && Off(s, t) && Rests(cb, t)
    ensures var r := Step(s, Tick(cb)); t !in r.1 && Off(r.0, t)
  {
    var s1, r := TickIsCheck(s, cb);
    CheckOff(s1, cb, 0, t);
  }

  // A timer that is off stays off and does not fire until it is started.
  lemma {:induction false} OffIsSilent(s: Timers, run: seq<Event>, t: int, d: int)
    requires Between(s) && LegalRun(s, run) && Off(s, t) && forall i :: 0 <= i < |run| ==> NotStarted(run[i], t)
    ensures !FiredAt(s, run, t, d) && Off(AfterRun(s, run), t)
    decreases |run|
  {
    if run != [] {
      assert NotStarted(run[0], t);
      OffStep(s, run[0], t);
      var r := Step(s, run[0]);
      OffIsSilent(r.0, run[1..], t, d);
    }
  }

  // The one-shot timer t is listed; it fires at tick due, if nothing disturbs it.
  ghost predicate Armed(s: Timers, t: int, due: int) {
    Between(s) && t in s.list && 0 <= t < |s.periodic| && !s.periodic[t] && due == DueTick(s, t)
  }

  lemma ArmedTick(s: Timers, cb: Callbacks, t: int, due: int)
    requires Armed(s, t, due) && WellBehaved(s, cb) && Spares(cb, t) && Rests(cb, t)
    ensures var r := Step(s, Tick(cb));
      if due == s.now + 1 then t in r.1 && Off(r.0, t) else t !in r.1 && Armed(r.0, t, due)
  {
    StepFires(s, Tick(cb), t);
    if due == s.now + 1 {
      var s1, r := TickIsCheck(s, cb);
      CheckRetires(s1, cb, 0, t);
    }
  }

  lemma ArmedStep(s: Timers, e: Event, t: int, due: int)
    requires Armed(s, t, due) && Legal(s, e) && Leaves(e, t) && NotStarted(e, t)
    ensures var r := Step(s, e);
      if e.Tick? && due == s.now + 1 then t in r.1 && Off(r.0, t) else t !in r.1 && Armed(r.0, t, due)
  {
    if e.Tick? { ArmedTick(s, e.cb, t, due); } else { StepFires(s, e, t); }
  }

  // In every run that does not stop it or start it again, a one-shot timer fires once, at its deadline, and
  // is then neither listed nor active.
  lemma {:induction false} FiresOnce(s: Timers, run: seq<Event>, t: int, due: int, d: int)
    requires Armed(s, t, due) && LegalRun(s, run)
    requires forall i :: 0 <= i < |run| ==> Leaves(run[i], t) && NotStarted(run[i], t)
    ensures FiredAt(s, run, t, d) <==> d == due <= s.now + Ticks(run)
    ensures if due <= s.now + Ticks(run) then Off(AfterRun(s, run), t) else Armed(AfterRun(s, run), t, due)
    decreases |run|
  {
    assert due > s.now;
    if run != [] {
      var e := run[0];
      assert Leaves(e, t) && NotStarted(e, t);
      ArmedStep(s, e, t, due);
      var r := Step(s, e);
      if t in r.1 { OffIsSilent(r.0, run[1..], t, d); } else { FiresOnce(r.0, run[1..], t, due, d); }
    }
  }

  // A start lists a timer for its time from now; a stop takes it off.
  lemma StartsAndStops(s: Timers, t: int)
    requires Between(s) && Known(s, t)
    ensures Startable(s, t) && !s.active[t] ==>
      var s' := Step(s, Do(DoStart(t))).0; t in s'.list && s'.deadline[t] == s.now + s.init[t]
    ensures Off(Step(s, Do(DoStop(t))).0, t)
  {
    if Startable(s, t) && !s.active[t] {
      var v := s.now + s.init[t];
      DoBetween(s, DoStart(t));
      InsertedMembers(s.list, Reach(s.list, s.deadline[t := v], v), t, t);
    }
    DoBetween(s, DoStop(t));
  }

  lemma RankedNoDup(list: seq<int>, key: seq<int>, stamp: seq<int>, clock: int)
    requires Ranked(list, key, stamp, clock)
    ensures NoDup(list)
  {
    forall i, j | 0 <= i < j < |list| ensures list[i] != list[j] { assert Earlier(list, key, stamp, i, j); }
  }

  // No timer fires twice in one tick.
  lemma OncePerTick(s: Timers, cb: Callbacks)
    requires Between(s) && WellBehaved(s, cb)
    ensures NoDup(Step(s, Tick(cb)).1)
  {
    TickBetween(s, cb);
    var s1 := s.(now := s.now + 1);
    FiringOrder(s1, cb, 0);
    RankedNoDup(Check(s1, cb, 0).1, s1.deadline, s1.stamp, s1.starts);
  }
}
