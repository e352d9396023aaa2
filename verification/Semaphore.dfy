// The counting semaphore: a release hands its unit straight to the first waiter, if there is one.

module Semaphore {
  import opened RingList
  import opened SortedList
  import opened WaitQueue

  datatype Outcome = None | Taken | TimedOut | Aborted

  // Granted: given a unit by a release while waiting, and not yet run on.
  datatype Phase = Idle(last: Outcome) | Waiting(w: Wait) | Granted

  // initial, released and granted count since the last reset.
  datatype State = State(value: int, queue: seq<int>, phase: seq<Phase>, prio: seq<int>, byPrio: bool,
                         initial: int, released: int, granted: int)

  const LIMIT := 0x1_0000    // value is a 16-bit counter

  predicate Waits(h: Phase) { h.Waiting? }

  datatype Event = Take(t: int, w: Wait) | Resume(t: int) | Release | Timeout(t: int) | Reset(v: int)

  ghost predicate Enabled(s: State, e: Event) {
    match e
    case Take(t, w) => 1 <= t < |s.phase| && s.phase[t].Idle? && Lasting(w)
    case Resume(t) => 1 <= t < |s.phase| && s.phase[t].Granted?
    case Release => s.value < LIMIT - 1
    case Timeout(t) => 1 <= t < |s.phase| && s.phase[t].Waiting? && s.phase[t].w.Ticks?
    case Reset(v) => 0 <= v
  }

  // Units are conserved, and a unit is never left lying while a thread waits for one.
  ghost predicate Ok(s: State) {
    && 0 <= s.value < LIMIT && |s.prio| == |s.phase|
    && Queued(s.queue, s.phase, Waits)
    && (s.queue != [] ==> s.value == 0)
    && s.initial + s.released == s.value + s.granted
  }

  function SetPhase(s: State, t: int, h: Phase): State
    requires 0 <= t < |s.phase|
  {
    s.(phase := s.phase[t := h])
  }

  // rt_sem_take, up to the wait
  ghost function DoTake(s: State, t: int, w: Wait): State
    requires Ok(s) && 1 <= t < |s.phase|
  {
    if s.value > 0 then SetPhase(s, t, Idle(Taken)).(value := s.value - 1, granted := s.granted + 1)
    else if w.Not? then SetPhase(s, t, Idle(TimedOut))
    else SetPhase(s, t, Waiting(w)).(queue := Enqueue(s.queue, s.prio, t, s.byPrio))
  }

  // rt_sem_release
  ghost function DoRelease(s: State): State
    requires Ok(s)
  {
    if s.queue != [] then
      assert s.queue[0] in s.queue;
      SetPhase(s, s.queue[0], Granted).(queue := s.queue[1..], released := s.released + 1, granted := s.granted + 1)
    else s.(value := s.value + 1, released := s.released + 1)
  }

  function Abort(phase: seq<Phase>): seq<Phase> { AllTo(phase, Waits, Idle(Aborted)) }

  ghost function Step(s: State, e: Event): State
    requires Ok(s) && Enabled(s, e)
  {
    match e
    case Take(t, w) => DoTake(s, t, w)
    case Resume(t) => SetPhase(s, t, Idle(Taken))
    case Release => DoRelease(s)
    case Timeout(t) => SetPhase(s, t, Idle(TimedOut)).(queue := Without(s.queue, t))
    case Reset(v) =>
      s.(phase := Abort(s.phase), queue := [], value := v % LIMIT, initial := v % LIMIT, released := 0, granted := 0)
  }

  lemma TakeOk(s: State, t: int, w: Wait)
    requires Ok(s) && 1 <= t < |s.phase| && s.phase[t].Idle?
    ensures Ok(DoTake(s, t, w))
  {
    var h := DoTake(s, t, w).phase[t];
    if h.Idle? { QueuedUnder(s.queue, s.phase, t, h, Waits); }
    else { ServedWait(s.queue, s.phase, s.prio, s.byPrio, t, h, Waits, Waits); }
  }

  lemma ReleaseOk(s: State)
    requires Ok(s) && Enabled(s, Release)
    ensures Ok(DoRelease(s))
  {
    if s.queue != [] {
      assert s.queue[0] in s.queue;
      DequeueMembers(s.queue);
    }
  }

  lemma TimeoutOk(s: State, t: int)
    requires Ok(s) && Enabled(s, Timeout(t))
    ensures Ok(Step(s, Timeout(t)))
  {
    QueuedLeave(s.queue, s.phase, t, Idle(TimedOut), Waits);
  }

  lemma StepOk(s: State, e: Event)
    requires Ok(s) && Enabled(s, e)
    ensures Ok(Step(s, e))
  {
    match e
    case Take(t, w) => TakeOk(s, t, w);
    case Resume(t) => QueuedUnder(s.queue, s.phase, t, Idle(Taken), Waits);
    case Release => ReleaseOk(s);
    case Timeout(t) => TimeoutOk(s, t);
    case Reset(v) =>
  }

  // A waiting take leaves the queue in exactly one of three ways, and only the grant costs a unit.
  lemma WaitEnds(s: State, e: Event, t: int)
    requires Ok(s) && Enabled(s, e) && 1 <= t < |s.phase| && s.phase[t].Waiting?
    ensures var s' := Step(s, e);
      && |s'.phase| == |s.phase|
      && (|| s'.phase[t] == s.phase[t]
          || (s'.phase[t] == Granted && e == Release && s.queue[0] == t
              && s'.value == s.value && s'.granted == s.granted + 1)
          || (s'.phase[t] == Idle(TimedOut) && e == Timeout(t) && s'.value == s.value && s'.granted == s.granted)
          || (s'.phase[t] == Idle(Aborted) && e.Reset?))
  {
    assert t in s.queue;
  }

  // Once granted, only its own return is left for the thread.
  lemma GrantStands(s: State, e: Event, t: int)
    requires Ok(s) && Enabled(s, e) && 1 <= t < |s.phase| && s.phase[t].Granted? && e != Resume(t)
    ensures |Step(s, e).phase| == |s.phase| && Step(s, e).phase[t] == Granted
  {
    if s.queue != [] { assert s.queue[0] in s.queue; }
  }

  ghost predicate Initial(s: State) {
    && 0 <= s.value == s.initial < LIMIT && s.queue == [] && s.released == s.granted == 0
    && |s.prio| == |s.phase| && forall i :: 0 <= i < |s.phase| ==> s.phase[i].Idle?
  }

  ghost predicate Follows(s: State, e: Event, s': State) { Enabled(s, e) && (Ok(s) ==> s' == Step(s, e)) }

  ghost predicate Run(states: seq<State>, events: seq<Event>) {
    && |states| == |events| + 1 && Initial(states[0])
    && forall i :: 0 <= i < |events| ==> Follows(states[i], events[i], states[i + 1])
  }

  // In every reachable state, with threads and interrupts stepping in any order.
  lemma {:induction false} UnitsConserved(states: seq<State>, events: seq<Event>, i: nat)
    requires Run(states, events) && i < |states|
    ensures Ok(states[i])
    ensures states[i].initial + states[i].released == states[i].value + states[i].granted
    ensures states[i].value > 0 ==> states[i].queue == []
  {
    if i > 0 {
      UnitsConserved(states, events, i - 1);
      assert Follows(states[i - 1], events[i - 1], states[i]);
      StepOk(states[i - 1], events[i - 1]);
    }
  }

  // The units that a step gives out, read off the threads: to a take that ends at once, and to every
  // waiting thread that is granted one.
  ghost function Granting(s: State, s': State): set<int> {
    set t | 0 <= t < |s.phase| && t < |s'.phase| && s.phase[t].Waiting? && s'.phase[t].Granted?
  }

  ghost function Given(s: State, e: Event, s': State): int {
    |Granting(s, s')| + if e.Take? && 0 <= e.t < |s'.phase| && s'.phase[e.t] == Idle(Taken) then 1 else 0
  }

  lemma StepGives(s: State, e: Event)
    requires Ok(s) && Enabled(s, e) && !e.Reset?
    ensures Step(s, e).value + Given(s, e, Step(s, e)) == s.value + if e.Release? then 1 else 0
  {
    var s' := Step(s, e);
    if e.Release? && s.queue != [] {
      assert s.queue[0] in s.queue;
      assert Granting(s, s') == {s.queue[0]};
    } else {
      assert Granting(s, s') == {};
    }
  }

  // The value at the last reset or at the start, and the releases and the units given out since.
  function Start(states: seq<State>, events: seq<Event>, i: nat): int
    requires i <= |events| < |states|
  {
    if i == 0 then states[0].value
    else if events[i - 1].Reset? then events[i - 1].v % LIMIT
    else Start(states, events, i - 1)
  }

  function Releases(events: seq<Event>, i: nat): nat
    requires i <= |events|
  {
    if i == 0 || events[i - 1].Reset? then 0
    else Releases(events, i - 1) + if events[i - 1].Release? then 1 else 0
  }

  ghost function Units(states: seq<State>, events: seq<Event>, i: nat): int
    requires i <= |events| < |states|
  {
    if i == 0 || events[i - 1].Reset? then 0
    else Units(states, events, i - 1) + Given(states[i - 1], events[i - 1], states[i])
  }

  // At every point of every run the value and the units that threads were given make up the units that
  // the semaphore started with and those released: no unit is given twice and none is lost.
  lemma {:induction false} UnitsExact(states: seq<State>, events: seq<Event>, i: nat)
    requires Run(states, events) && i < |states|
    ensures states[i].value + Units(states, events, i) == Start(states, events, i) + Releases(events, i)
    ensures states[i].value >= 0
  {
    UnitsConserved(states, events, i);
    if i > 0 {
      UnitsExact(states, events, i - 1);
      UnitsConserved(states, events, i - 1);
      assert Follows(states[i - 1], events[i - 1], states[i]);
      if !events[i - 1].Reset? { StepGives(states[i - 1], events[i - 1]); }
    }
  }

  // A take gets a unit at once exactly if there is one, and waits exactly if there is none and it may.
  lemma TakeOutcome(s: State, t: int, w: Wait)
    requires Ok(s) && Enabled(s, Take(t, w))
    ensures var h := Step(s, Take(t, w)).phase[t];
      && (h == Idle(Taken) <==> s.value > 0)
      && (h == Idle(TimedOut) <==> s.value == 0 && w == Not)
      && (h == Waiting(w) <==> s.value == 0 && w != Not)
  {
  }

  // Over every run: a thread that waits at one point and no longer at a later one was granted a unit by a
  // release while it was first in the queue, or timed out, or was dismissed by a reset; and until then it
  // went on waiting.
  lemma {:induction false} WaitOutcome(states: seq<State>, events: seq<Event>, i: nat, j: nat, t: int) returns (k: nat)
    requires Run(states, events) && i < j < |states|
    requires 1 <= t < |states[i].phase| && states[i].phase[t].Waiting?
    ensures |states[j].phase| == |states[i].phase|
    ensures states[j].phase[t] != states[i].phase[t] ==>
      && i <= k < j && |states[k].phase| == |states[k + 1].phase| == |states[i].phase|
      && states[k].phase[t] == states[i].phase[t]
      && (|| (states[k + 1].phase[t] == Granted && events[k] == Release
              && states[k].queue != [] && states[k].queue[0] == t)
          || (states[k + 1].phase[t] == Idle(TimedOut) && events[k] == Timeout(t))
          || (states[k + 1].phase[t] == Idle(Aborted) && events[k].Reset?))
    decreases j - i
  {
    UnitsConserved(states, events, i);
    assert Follows(states[i], events[i], states[i + 1]);
    WaitEnds(states[i], events[i], t);
    k := i;
    if states[i + 1].phase[t] == states[i].phase[t] {
      if i + 1 < j { k := WaitOutcome(states, events, i + 1, j, t); }
    } else {
      SameThreads(states, events, i + 1, j);
      assert t in states[i].queue;
    }
  }

  lemma {:induction false} SameThreads(states: seq<State>, events: seq<Event>, i: nat, j: nat)
    requires Run(states, events) && i <= j < |states|
    ensures |states[j].phase| == |states[i].phase|
    decreases j - i
  {
    if i < j {
      UnitsConserved(states, events, i);
      assert Follows(states[i], events[i], states[i + 1]);
      SameThreads(states, events, i + 1, j);
    }
  }

  // Over every run a grant stands until the thread itself runs on.
  lemma {:induction false} GrantKept(states: seq<State>, events: seq<Event>, i: nat, j: nat, t: int)
    requires Run(states, events) && i <= j < |states|
    requires 1 <= t < |states[i].phase| && states[i].phase[t].Granted?
    requires forall k :: i <= k < j ==> events[k] != Resume(t)
    ensures |states[j].phase| == |states[i].phase| && states[j].phase[t] == Granted
    decreases j - i
  {
    if i < j {
      UnitsConserved(states, events, i);
      assert Follows(states[i], events[i], states[i + 1]);
      GrantStands(states[i], events[i], t);
      GrantKept(states, events, i + 1, j, t);
    }
  }

  // --- the order of service ------------------------------------------------------------------------------

  // The queue after a step is the queue before it after at most one move.
  lemma QueueMoves(s: State, e: Event, arrival: seq<int>, clock: int) returns (arrival': seq<int>)
    requires Ok(s) && Enabled(s, e) && LineOk(Line(s.queue, s.prio, arrival, clock), s.byPrio)
    ensures var s' := Step(s, e); LineOk(Line(s'.queue, s'.prio, arrival', clock + 1), s'.byPrio)
    ensures |arrival'| == |arrival| == |s.prio|
    ensures forall x :: x in Step(s, e).queue && 0 <= x < |arrival| ==>
      arrival'[x] == if x in s.queue then arrival[x] else clock
  {
    var l := Line(s.queue, s.prio, arrival, clock);
    var s' := Step(s, e);
    arrival' := arrival;
    if e.Take? && s.value == 0 && !e.w.Not? {
      MoveOk(l, s.byPrio, Arrive(e.t));
      EnqueueMembers(s.queue, s.prio, e.t, s.byPrio);
      arrival' := arrival[e.t := clock];
    } else {
      if e.Release? && s.queue != [] { MoveOk(l, s.byPrio, First); }
      else if e.Timeout? { MoveOk(l, s.byPrio, Depart(e.t)); }
      RankedLater(s'.queue, Key(s.prio, s.byPrio), arrival, clock, clock + 1);
    }
  }

  // Thread x has been waiting since event a, when it asked for a unit.
  ghost predicate WaitsSince(states: seq<State>, events: seq<Event>, x: int, a: int, i: int)
    requires |states| == |events| + 1
  {
    && 0 <= a < i < |states| && events[a].Take? && events[a].t == x
    && forall k :: a < k <= i ==> x in states[k].queue
  }

  lemma {:induction false} Arrivals(states: seq<State>, events: seq<Event>, i: nat) returns (arrival: seq<int>)
    requires Run(states, events) && i < |states|
    ensures Ok(states[i]) && LineOk(Line(states[i].queue, states[i].prio, arrival, i), states[i].byPrio)
    ensures |arrival| == |states[i].prio|
    ensures forall x :: x in states[i].queue && 0 <= x < |arrival| ==> WaitsSince(states, events, x, arrival[x], i)
  {
    UnitsConserved(states, events, i);
    if i == 0 {
      arrival := seq(|states[0].prio|, _ => 0);
    } else {
      var before := Arrivals(states, events, i - 1);
      var s, e := states[i - 1], events[i - 1];
      assert Follows(s, e, states[i]);
      arrival := QueueMoves(s, e, before, i - 1);
      forall x | x in states[i].queue && 0 <= x < |arrival| ensures WaitsSince(states, events, x, arrival[x], i) {
        if x in s.queue { assert WaitsSince(states, events, x, before[x], i - 1); } else { Newcomer(s, e, x); }
      }
    }
  }

  lemma Newcomer(s: State, e: Event, x: int)
    requires Ok(s) && Enabled(s, e) && x !in s.queue && x in Step(s, e).queue
    ensures e.Take? && e.t == x
  {
    if e.Take? { EnqueueMembers(s.queue, s.prio, e.t, s.byPrio); }
    if e.Release? && s.queue != [] { DequeueMembers(s.queue); }
  }

  // At every point of every run, of two threads in the queue, whose first gets the next unit, the one in
  // front is the more urgent, or as urgent and has waited longer; without priorities, it has waited longer.
  lemma ServiceOrder(states: seq<State>, events: seq<Event>, i: nat, p: nat, q: nat) returns (a: int, b: int)
    requires Run(states, events) && i < |states| && p < q < |states[i].queue|
    ensures var s := states[i]; var x, y := s.queue[p], s.queue[q];
      && WaitsSince(states, events, x, a, i) && WaitsSince(states, events, y, b, i)
      && 0 <= x < |s.prio| && 0 <= y < |s.prio|
      && if s.byPrio then s.prio[x] < s.prio[y] || (s.prio[x] == s.prio[y] && a < b) else a < b
  {
    var arrival := Arrivals(states, events, i);
    var s := states[i];
    var x, y := s.queue[p], s.queue[q];
    assert x in s.queue && y in s.queue;
    assert Earlier(s.queue, Key(s.prio, s.byPrio), arrival, p, q);
    a, b := arrival[x], arrival[y];
  }

  class SemaphoreObject {
    var value: int
    var waiters: seq<int>
    var phase: seq<Phase>    // of every thread
    const prio: seq<int>
    const byPrio: bool
    ghost var initial: int
    ghost var released: int
    ghost var granted: int

    ghost function View(): State
      reads this
    {
      State(value, waiters, phase, prio, byPrio, initial, released, granted)
    }

    ghost predicate Valid()
      reads this
    {
      Ok(View())
    }

    // rt_sem_init
    constructor (v: int, prio: seq<int>, byPrio: bool)
      requires 0 <= v < LIMIT
      ensures Valid() && Initial(View()) && value == v
    {
      value, waiters, phase := v, [], seq(|prio|, i => Idle(None));
      this.prio, this.byPrio := prio, byPrio;
      initial, released, granted := v, 0, 0;
    }

    // rt_sem_take and, with no waiting time, rt_sem_trytake
    method Take(t: int, w: Wait)
      requires Valid() && Enabled(View(), Event.Take(t, w))
      modifies this
      ensures Valid() && View() == Step(old(View()), Event.Take(t, w))
    {
      TakeOk(View(), t, w);
      if value > 0 {
        value := value - 1;
        granted := granted + 1;
        phase := phase[t := Idle(Taken)];
      } else if w.Not? {
        phase := phase[t := Idle(TimedOut)];
      } else {
        waiters := Enqueue(waiters, prio, t, byPrio);
        phase := phase[t := Waiting(w)];
      }
    }

    // rt_sem_release
    method Release()
      requires Valid() && Enabled(View(), Event.Release)
      modifies this
      ensures Valid() && View() == Step(old(View()), Event.Release)
    {
      ReleaseOk(View());
      released := released + 1;
      if waiters != [] {
        var t := waiters[0];
        assert t in waiters;
        waiters := waiters[1..];
        phase := phase[t := Granted];
        granted := granted + 1;
      } else {
        value := value + 1;
      }
    }

    method Timeout(t: int)
      requires Valid() && Enabled(View(), Event.Timeout(t))
      modifies this
      ensures Valid() && View() == Step(old(View()), Event.Timeout(t))
    {
      TimeoutOk(View(), t);
      phase := phase[t := Idle(TimedOut)];
      waiters := Without(waiters, t);
    }

    // rt_ipc_list_resume_all, as a reset uses it
    method ResumeAll()
      requires Queued(waiters, phase, Waits)
      modifies `phase, `waiters
      ensures phase == Abort(old(phase)) && waiters == []
    {
      ghost var was, q0 := phase, waiters;
      ghost var done := [];
      while waiters != []
        invariant q0 == done + waiters && |phase| == |was|
        invariant forall x :: 0 <= x < |was| ==> phase[x] == if x in done then Idle(Aborted) else was[x]
        decreases |waiters|
      {
        var t := waiters[0];
        assert q0[|done|] == t;
        done := done + [t];
        phase := phase[t := Idle(Aborted)];
        waiters := waiters[1..];
      }
      assert done == q0;
      assert phase == Abort(was);
    }

    // rt_sem_control with RT_IPC_CMD_RESET
    method Reset(v: int)
      requires Valid() && 0 <= v
      modifies this
      ensures Valid() && View() == Step(old(View()), Event.Reset(v))
    {
      StepOk(View(), Event.Reset(v));
      ResumeAll();
      value := v % LIMIT;
      initial, released, granted := value, 0, 0;
    }
  }
}
