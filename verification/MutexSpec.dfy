// The mutex with priority inheritance as a transition system.  A smaller number is a more urgent
// priority.  Each thread uses at most this one mutex.

module MutexSpec {
  import opened RingList
  import opened SortedList
  import opened WaitQueue

  datatype Outcome = None | Taken | Released | NotOwner | TimedOut

  // Granted: made the owner by a release while waiting, and not yet run on.
  datatype Phase = Idle(last: Outcome) | Waiting(w: Wait) | Granted

  const NOBODY := 0
  const NO_PRIORITY := 0xFF

  // base is the priority a thread has by itself, cur the one it runs at.
  datatype Mutex = Mutex(value: int, owner: int, original: int, hold: int, queue: seq<int>,
                         phase: seq<Phase>, base: seq<int>, cur: seq<int>, byPrio: bool)

  predicate Waits(h: Phase) { h.Waiting? }

  // --- invariant -----------------------------------------------------------------------------------

  // Free, or held once or more by its owner.
  ghost predicate Counts(m: Mutex) {
    && (m.value == 0 || m.value == 1) && 0 <= m.hold <= 255
    && (m.value == 1 <==> m.owner == NOBODY) && (m.hold == 0 <==> m.owner == NOBODY)
    && (m.owner == NOBODY ==> m.queue == [] && m.original == NO_PRIORITY)
  }

  ghost predicate Owned(m: Mutex) {
    && |m.base| == |m.cur| == |m.phase|
    && (m.owner != NOBODY ==> 1 <= m.owner < |m.cur| && !Waits(m.phase[m.owner]))
  }

  // Only the owner may run above its own priority, and the mutex remembers what to go back to.
  ghost predicate Based(m: Mutex) {
    && |m.base| == |m.cur|
    && (forall x :: 1 <= x < |m.cur| && x != m.owner ==> m.cur[x] == m.base[x])
    && (1 <= m.owner < |m.cur| ==> m.original == m.base[m.owner] && m.cur[m.owner] <= m.base[m.owner])
  }

  // The owner runs at least as urgently as anyone who waits for it.
  ghost predicate Urgent(m: Mutex) {
    m.owner != NOBODY ==>
      forall x :: x in m.queue ==> 0 <= x < |m.cur| && 0 <= m.owner < |m.cur| && m.cur[m.owner] <= m.cur[x]
  }

  ghost predicate Hands(m: Mutex) {
    forall x :: 1 <= x < |m.phase| && m.phase[x].Granted? ==> m.owner == x && m.hold == 1
  }

  ghost predicate Ok(m: Mutex) {
    Counts(m) && Owned(m) && Hands(m) && Queued(m.queue, m.phase, Waits)
  }

  // The queue of a mutex that queues by priority.
  ghost predicate InOrder(m: Mutex) { m.byPrio ==> ListOk(m.queue, m.cur) }

  // --- steps -----------------------------------------------------------------------------------------

  datatype Event =
    | Take(t: int, w: Wait) | Resume(t: int) | Release(t: int) | Timeout(t: int)
    | SetPriority(t: int, p: int)

  ghost predicate Enabled(m: Mutex, e: Event) {
    1 <= e.t < |m.phase| &&
    match e
    case Take(t, w) => m.phase[t].Idle? && Lasting(w) && (m.owner == t ==> m.hold < 255)
    case Resume(t) => m.phase[t].Granted?
    case Release(t) => m.phase[t].Idle?
    case Timeout(t) => m.phase[t].Waiting? && m.phase[t].w.Ticks?
    case SetPriority(t, p) => true
  }

  function SetPhase(m: Mutex, t: int, h: Phase): Mutex
    requires 0 <= t < |m.phase|
  {
    m.(phase := m.phase[t := h])
  }

  // rt_mutex_take up to the wait
  ghost function DoTake(m: Mutex, t: int, w: Wait): Mutex
    requires Ok(m) && 1 <= t < |m.phase|
  {
    if m.owner == t then SetPhase(m, t, Idle(Taken)).(hold := m.hold + 1)
    else if m.value > 0 then
      SetPhase(m, t, Idle(Taken)).(value := m.value - 1, owner := t, original := m.cur[t], hold := m.hold + 1)
    else if w.Not? then SetPhase(m, t, Idle(TimedOut))
    else
      var cur := if m.cur[t] < m.cur[m.owner] then m.cur[m.owner := m.cur[t]] else m.cur;
      SetPhase(m, t, Waiting(w)).(cur := cur, queue := Enqueue(m.queue, cur, t, m.byPrio))
  }

  // rt_mutex_release
  ghost function DoRelease(m: Mutex, t: int): Mutex
    requires Ok(m) && 1 <= t < |m.phase|
  {
    if m.owner != t then SetPhase(m, t, Idle(NotOwner))
    else if m.hold > 1 then SetPhase(m, t, Idle(Released)).(hold := m.hold - 1)
    else HandOver(SetPhase(m, t, Idle(Released)).(cur := m.cur[t := m.original], hold := 0))
  }

  // The owner has let go: the first waiter becomes the owner, or nobody.
  function HandOver(m: Mutex): Mutex
    requires forall i :: 0 <= i < |m.queue| ==> 0 <= m.queue[i] < |m.phase| && m.queue[i] < |m.cur|
  {
    if m.queue == [] then m.(value := m.value + 1, owner := NOBODY, original := NO_PRIORITY)
    else
      var n := m.queue[0];
      m.(owner := n, original := m.cur[n], hold := m.hold + 1,
         queue := m.queue[1..], phase := m.phase[n := Granted])
  }

  ghost function Step(m: Mutex, e: Event): Mutex
    requires Ok(m) && Enabled(m, e)
  {
    match e
    case Take(t, w) => DoTake(m, t, w)
    case Resume(t) => SetPhase(m, t, Idle(Taken))
    case Release(t) => DoRelease(m, t)
    case Timeout(t) => SetPhase(m, t, Idle(TimedOut)).(queue := Without(m.queue, t))
    case SetPriority(t, p) => m.(base := m.base[t := p], cur := m.cur[t := p])
  }

  // --- every step keeps the invariant ----------------------------------------------------------------

  // A step that changes only the phase of a thread that is not queued, and perhaps the count.
  lemma PlainOk(m: Mutex, t: int, h: Phase, hold: int)
    requires Ok(m) && 1 <= t < |m.phase| && !Waits(m.phase[t]) && h.Idle?
    requires hold == m.hold || (m.owner == t && 1 <= hold <= 255)
    ensures Ok(SetPhase(m, t, h).(hold := hold))
  {
    QueuedUnder(m.queue, m.phase, t, h, Waits);
  }

  lemma FirstTakeOk(m: Mutex, t: int)
    requires Ok(m) && 1 <= t < |m.phase| && m.phase[t].Idle? && m.owner == NOBODY
    ensures Ok(SetPhase(m, t, Idle(Taken)).(value := m.value - 1, owner := t, original := m.cur[t], hold := m.hold + 1))
  {
    QueuedUnder(m.queue, m.phase, t, Idle(Taken), Waits);
  }

  ghost function Inherit(cur: seq<int>, owner: int, t: int): (r: seq<int>)
    requires 0 <= owner < |cur| && 0 <= t < |cur|
    ensures |r| == |cur| && r[owner] <= cur[t] && r[owner] <= cur[owner]
    ensures forall x :: 0 <= x < |cur| && x != owner ==> r[x] == cur[x]
  {
    if cur[t] < cur[owner] then cur[owner := cur[t]] else cur
  }

  lemma WaitOk(m: Mutex, t: int, w: Wait)
    requires Ok(m) && 1 <= t < |m.phase| && m.phase[t].Idle? && m.owner != NOBODY && m.owner != t
    ensures var cur := Inherit(m.cur, m.owner, t);
      Ok(SetPhase(m, t, Waiting(w)).(cur := cur, queue := Enqueue(m.queue, cur, t, m.byPrio)))
  {
    var cur := Inherit(m.cur, m.owner, t);
    assert t !in m.queue && m.owner !in m.queue;
    EnqueueMembers(m.queue, cur, t, m.byPrio);
    EnqueueNoDup(m.queue, cur, t, m.byPrio);
  }

  lemma TakeOk(m: Mutex, t: int, w: Wait)
    requires Ok(m) && Enabled(m, Take(t, w))
    ensures Ok(DoTake(m, t, w))
  {
    if m.owner == t {
      PlainOk(m, t, Idle(Taken), m.hold + 1);
    } else if m.value > 0 {
      FirstTakeOk(m, t);
    } else if w.Not? {
      PlainOk(m, t, Idle(TimedOut), m.hold);
    } else {
      WaitOk(m, t, w);
    }
  }

  // The state between letting go and handing over.
  ghost predicate LetGo(m: Mutex) {
    && m.value == 0 && m.hold == 0 && |m.base| == |m.cur| == |m.phase| && Queued(m.queue, m.phase, Waits)
    && (forall x :: 1 <= x < |m.phase| ==> !m.phase[x].Granted?)
  }

  lemma LetGoFrom(m: Mutex, t: int)
    requires Ok(m) && 1 <= t < |m.phase| && m.owner == t && m.phase[t].Idle?
    ensures LetGo(SetPhase(m, t, Idle(Released)).(cur := m.cur[t := m.original], hold := 0))
  {
    assert t !in m.queue;
    QueuedUnder(m.queue, m.phase, t, Idle(Released), Waits);
  }

  lemma HandOverOk(m: Mutex)
    requires LetGo(m)
    ensures forall i :: 0 <= i < |m.queue| ==> 0 <= m.queue[i] < |m.phase| && m.queue[i] < |m.cur|
    ensures Ok(HandOver(m))
  {
    if m.queue != [] {
      var n := m.queue[0];
      assert n in m.queue;
      DequeueMembers(m.queue);
    }
  }

  lemma ReleaseOk(m: Mutex, t: int)
    requires Ok(m) && Enabled(m, Release(t))
    ensures Ok(DoRelease(m, t))
  {
    if m.owner != t {
      PlainOk(m, t, Idle(NotOwner), m.hold);
    } else if m.hold > 1 {
      PlainOk(m, t, Idle(Released), m.hold - 1);
    } else {
      LetGoFrom(m, t);
      HandOverOk(SetPhase(m, t, Idle(Released)).(cur := m.cur[t := m.original], hold := 0));
    }
  }

  lemma TimeoutOk(m: Mutex, t: int)
    requires Ok(m) && Enabled(m, Timeout(t))
    ensures Ok(Step(m, Timeout(t)))
  {
    QueuedLeave(m.queue, m.phase, t, Idle(TimedOut), Waits);
  }

  lemma StepOk(m: Mutex, e: Event)
    requires Ok(m) && Enabled(m, e)
    ensures Ok(Step(m, e))
  {
    match e
    case Take(t, w) => TakeOk(m, t, w);
    case Resume(t) => PlainOk(m, t, Idle(Taken), m.hold);
    case Release(t) => ReleaseOk(m, t);
    case Timeout(t) => TimeoutOk(m, t);
    case SetPriority(t, p) =>
  }

  // --- the owner and those who wait for it ------------------------------------------------------------

  // A thread more urgent than the owner would wait for it.
  ghost predicate Outranked(m: Mutex, owner: int, q: seq<int>)
    requires 0 <= owner < |m.cur|
  {
    exists x :: x in q && 0 <= x < |m.cur| && m.cur[x] < m.cur[owner]
  }

  // A change of priority puts the owner below one who waits for it, or one who waits above the owner.
  ghost predicate Disturbs(m: Mutex, t: int, p: int)
    requires Ok(m)
  {
    || (t == m.owner && exists x :: x in m.queue && 0 <= x < |m.cur| && m.cur[x] < p)
    || (t in m.queue && m.owner != NOBODY && p < m.cur[m.owner])
  }

  // The last release, while one of those who stay is more urgent than the first, who becomes the owner.
  ghost predicate Inverts(m: Mutex, e: Event)
    requires Ok(m)
  {
    && e.Release? && e.t == m.owner && m.hold == 1 && m.queue != [] && 0 <= m.queue[0] < |m.cur|
    && Outranked(m, m.queue[0], m.queue[1..])
  }

  lemma WaitUrgent(m: Mutex, t: int, w: Wait)
    requires Ok(m) && Urgent(m) && 1 <= t < |m.phase| && m.phase[t].Idle? && m.owner != NOBODY && m.owner != t
    ensures var cur := Inherit(m.cur, m.owner, t);
      Urgent(SetPhase(m, t, Waiting(w)).(cur := cur, queue := Enqueue(m.queue, cur, t, m.byPrio)))
  {
    assert m.owner !in m.queue;
    EnqueueMembers(m.queue, Inherit(m.cur, m.owner, t), t, m.byPrio);
  }

  lemma ReleaseUrgent(m: Mutex, t: int)
    requires Ok(m) && Urgent(m) && Enabled(m, Release(t))
    ensures Urgent(DoRelease(m, t)) <==> !Inverts(m, Release(t))
  {
    if m.owner == t && m.hold == 1 && m.queue != [] {
      assert t !in m.queue && m.queue[0] in m.queue;
      DequeueMembers(m.queue);
      var m' := DoRelease(m, t);
      assert forall x :: x in m.queue ==> m'.cur[x] == m.cur[x];
    }
  }

  // From a state in which the owner is at least as urgent as all who wait, with any queue, a step leaves
  // it so exactly if it is none of these: a change of priority that disturbs the order of owner and
  // waiters, or a last release whose first waiter is less urgent than one who stays.
  lemma UrgentIff(m: Mutex, e: Event)
    requires Ok(m) && Enabled(m, e) && Urgent(m)
    ensures Urgent(Step(m, e)) <==> !Inverts(m, e) && !(e.SetPriority? && Disturbs(m, e.t, e.p))
  {
    match e
    case Take(t, w) => if m.owner != NOBODY && m.owner != t { WaitUrgent(m, t, w); }
    case Release(t) => ReleaseUrgent(m, t);
    case Resume(t) =>
    case Timeout(t) =>
    case SetPriority(t, p) => assert m.owner !in m.queue;
  }

  // A list sorted by priority stays so when a thread outside it changes priority.
  lemma RekeyOther(q: seq<int>, key: seq<int>, t: int, v: int)
    requires ListOk(q, key) && 0 <= t < |key| && t !in q
    ensures ListOk(q, key[t := v])
  {
    var key' := key[t := v];
    forall i, j | 0 <= i <= j < |q| ensures NotAfter(q, key', i, j) {
      assert NotAfter(q, key, i, j) && q[i] in q && q[j] in q;
    }
  }

  // p fits where t is queued.
  ghost predicate InLine(q: seq<int>, cur: seq<int>, t: int, p: int) {
    forall i, j :: 0 <= i < |q| && 0 <= j < |q| && q[i] == t && i != j && 0 <= q[j] < |cur| ==>
      if j < i then cur[q[j]] <= p else p <= cur[q[j]]
  }

  lemma RekeyIff(q: seq<int>, key: seq<int>, t: int, p: int)
    requires ListOk(q, key) && 0 <= t < |key|
    ensures ListOk(q, key[t := p]) <==> InLine(q, key, t, p)
  {
    var key' := key[t := p];
    if ListOk(q, key') {
      forall i, j | 0 <= i < |q| && 0 <= j < |q| && q[i] == t && i != j
        ensures if j < i then key[q[j]] <= p else p <= key[q[j]]
      {
        Distinct(q, i, j);
        if j < i { assert NotAfter(q, key', j, i); } else { assert NotAfter(q, key', i, j); }
      }
    }
    if InLine(q, key, t, p) {
      forall i, j | 0 <= i <= j < |q| ensures NotAfter(q, key', i, j) {
        assert NotAfter(q, key, i, j);
        if i != j { Distinct(q, i, j); }
      }
    }
  }

  // The queue stays in the order of priorities exactly if no thread in it gets one that does not fit its
  // place: the code does not sort again.
  lemma InOrderIff(m: Mutex, e: Event)
    requires Ok(m) && Enabled(m, e) && m.byPrio && InOrder(m)
    ensures InOrder(Step(m, e)) <==> !(e.SetPriority? && !InLine(m.queue, m.cur, e.t, e.p))
  {
    match e
    case Take(t, w) => if m.owner != NOBODY && m.owner != t && !w.Not? { WaitInOrder(m, t, w); }
    case Release(t) => ReleaseInOrder(m, t);
    case Resume(t) =>
    case Timeout(t) => WithoutOk(m.queue, m.cur, t);
    case SetPriority(t, p) => RekeyIff(m.queue, m.cur, t, p);
  }

  lemma WaitInOrder(m: Mutex, t: int, w: Wait)
    requires Ok(m) && m.byPrio && InOrder(m)
    requires 1 <= t < |m.phase| && m.phase[t].Idle? && m.owner != NOBODY && m.owner != t && !w.Not?
    ensures InOrder(DoTake(m, t, w))
  {
    var cur := Inherit(m.cur, m.owner, t);
    assert t !in m.queue && m.owner !in m.queue;
    RekeyOther(m.queue, m.cur, m.owner, cur[m.owner]);
    assert m.cur[m.owner := cur[m.owner]] == cur;
    EnqueueSorted(m.queue, cur, t);
  }

  lemma ReleaseInOrder(m: Mutex, t: int)
    requires Ok(m) && Enabled(m, Release(t)) && m.byPrio && InOrder(m)
    ensures InOrder(DoRelease(m, t)) && !Inverts(m, Release(t))
  {
    if m.owner == t && m.hold == 1 {
      assert t !in m.queue;
      RekeyOther(m.queue, m.cur, t, m.original);
      if m.queue != [] {
        RemovedOk(m.queue, m.cur[t := m.original], 0);
        assert Removed(m.queue, 0) == m.queue[1..];
        forall x | x in m.queue[1..] && 0 <= x < |m.cur| ensures m.cur[m.queue[0]] <= m.cur[x] {
          var i :| 0 <= i < |m.queue| && m.queue[i] == x;
          assert NotAfter(m.queue, m.cur, 0, i);
        }
      }
    }
  }

  // --- the priority a thread goes back to --------------------------------------------------------------

  // A step keeps every thread but the owner at its own priority, and the owner able to go back to it,
  // exactly if it does not give the owner a priority other than the one it had when it took the mutex.
  lemma BasedIff(m: Mutex, e: Event)
    requires Ok(m) && Enabled(m, e) && Based(m)
    ensures Based(Step(m, e)) <==> !(e.SetPriority? && e.t == m.owner && e.p != m.original)
  {
    if e.Release? && e.t == m.owner && m.hold == 1 && m.queue != [] { assert m.queue[0] in m.queue; }
    if e.SetPriority? { assert Step(m, e).base[e.t] == e.p; }
  }

  // What the owner goes back to at its last release is the priority from when it took the mutex, so it
  // ends at its own priority exactly if that is still the same.
  lemma GoesBack(m: Mutex, t: int)
    requires Ok(m) && Enabled(m, Release(t)) && m.owner == t && m.hold == 1
    ensures Step(m, Release(t)).cur[t] == m.original
    ensures Step(m, Release(t)).cur[t] == Step(m, Release(t)).base[t] <==> m.original == m.base[t]
  {
    if m.queue != [] { assert m.queue[0] in m.queue && t !in m.queue; }
  }

  // Until then nothing but a change of its priority moves either of the two.
  lemma OriginalStays(m: Mutex, e: Event)
    requires Ok(m) && Enabled(m, e) && m.owner != NOBODY && !(e == Release(m.owner) && m.hold == 1)
    ensures var m' := Step(m, e);
      && m'.owner == m.owner && m'.original == m.original && |m'.base| == |m.base|
      && m'.base[m.owner] == if e.SetPriority? && e.t == m.owner then e.p else m.base[m.owner]
  {
  }

  // --- runs ----------------------------------------------------------------------------------------------

  ghost predicate Initial(m: Mutex) {
    && m.value == 1 && m.owner == NOBODY && m.original == NO_PRIORITY && m.hold == 0 && m.queue == []
    && |m.base| == |m.cur| == |m.phase| && m.cur == m.base
    && forall x :: 0 <= x < |m.phase| ==> m.phase[x].Idle?
  }

  ghost predicate Follows(m: Mutex, e: Event, m': Mutex) { Enabled(m, e) && (Ok(m) ==> m' == Step(m, e)) }

  ghost predicate Run(states: seq<Mutex>, events: seq<Event>) {
    && |states| == |events| + 1 && Initial(states[0])
    && forall i :: 0 <= i < |events| ==> Follows(states[i], events[i], states[i + 1])
  }

  lemma {:induction false} RunOk(states: seq<Mutex>, events: seq<Event>, i: nat)
    requires Run(states, events) && i < |states|
    ensures Ok(states[i]) && states[i].byPrio == states[0].byPrio
  {
    if i > 0 {
      RunOk(states, events, i - 1);
      assert Follows(states[i - 1], events[i - 1], states[i]);
      StepOk(states[i - 1], events[i - 1]);
    }
  }

  // A change of priority that keeps owner, waiters and their order as they should be.
  ghost predicate Harmless(m: Mutex, e: Event) {
    e.SetPriority? && Ok(m) ==> !Disturbs(m, e.t, e.p) && InLine(m.queue, m.cur, e.t, e.p)
  }

  // In every run of a mutex that queues by priority whose changes of priority are harmless, in every
  // state, the owner is at least as urgent as every waiter.
  lemma {:induction false} Inheritance(states: seq<Mutex>, events: seq<Event>, i: nat)
    requires Run(states, events) && i < |states| && states[0].byPrio
    requires forall j :: 0 <= j < i ==> Harmless(states[j], events[j])
    ensures var m := states[i];
      && Ok(m) && InOrder(m)
      && (forall x :: x in m.queue ==> 1 <= m.owner < |m.cur| && 1 <= x < |m.cur| && m.cur[m.owner] <= m.cur[x])
  {
    RunOk(states, events, i);
    if i > 0 {
      Inheritance(states, events, i - 1);
      RunOk(states, events, i - 1);
      var m, e := states[i - 1], events[i - 1];
      assert Follows(m, e, states[i]);
      assert Harmless(m, e);
      InOrderIff(m, e);
      if e.Release? { ReleaseInOrder(m, e.t); }
      UrgentIff(m, e);
      assert Urgent(states[i]);
    }
    var m := states[i];
    forall x | x in m.queue ensures 1 <= m.owner < |m.cur| && 1 <= x < |m.cur| { }
  }

  // In every run in which no owner gets a priority other than the one it took the mutex with, every
  // thread that does not own the mutex runs at its own priority.
  lemma {:induction false} Restored(states: seq<Mutex>, events: seq<Event>, i: nat)
    requires Run(states, events) && i < |states|
    requires forall j :: 0 <= j < i ==>
      !(events[j].SetPriority? && events[j].t == states[j].owner && events[j].p != states[j].original)
    ensures Based(states[i])
  {
    if i > 0 {
      Restored(states, events, i - 1);
      RunOk(states, events, i - 1);
      assert Follows(states[i - 1], events[i - 1], states[i]);
      BasedIff(states[i - 1], events[i - 1]);
    }
  }

  // --- holds, read off the threads ------------------------------------------------------------------------

  // What a step adds to the holds of a thread: one for a take of it that ends at once and for a grant to
  // it, less one for a release of it that is accepted.
  function Change(m: Mutex, e: Event, m': Mutex, t: int): int {
    if !(0 <= t < |m.phase| && t < |m'.phase|) then 0
    else if e.Take? && e.t == t && m'.phase[t] == Idle(Taken) then 1
    else if m.phase[t].Waiting? && m'.phase[t].Granted? then 1
    else if e.Release? && e.t == t && m'.phase[t] == Idle(Released) then -1
    else 0
  }

  function Held(states: seq<Mutex>, events: seq<Event>, i: nat, t: int): int
    requires i <= |events| < |states|
  {
    if i == 0 then 0 else Held(states, events, i - 1, t) + Change(states[i - 1], events[i - 1], states[i], t)
  }

  function Holds(m: Mutex, t: int): int { if m.owner == t then m.hold else 0 }

  lemma StepHolds(m: Mutex, e: Event, t: int)
    requires Ok(m) && Enabled(m, e) && 1 <= t < |m.phase|
    ensures |Step(m, e).phase| == |m.phase|
    ensures Holds(Step(m, e), t) == Holds(m, t) + Change(m, e, Step(m, e), t)
  {
    if e.Release? && e.t == m.owner && m.hold == 1 && m.queue != [] {
      assert m.queue[0] in m.queue && m.owner !in m.queue;
    }
  }

  // Over every run the mutex counts as holds of its owner the takes and grants that thread had, less its
  // releases; of every other thread they cancel out.
  lemma {:induction false} HoldsCounted(states: seq<Mutex>, events: seq<Event>, i: nat, t: int)
    requires Run(states, events) && i < |states| && 1 <= t < |states[0].phase|
    ensures |states[i].phase| == |states[0].phase|
    ensures Held(states, events, i, t) == if states[i].owner == t then states[i].hold else 0
    ensures Held(states, events, i, t) >= 0
  {
    RunOk(states, events, i);
    if i > 0 {
      RunOk(states, events, i - 1);
      HoldsCounted(states, events, i - 1, t);
      assert Follows(states[i - 1], events[i - 1], states[i]);
      StepHolds(states[i - 1], events[i - 1], t);
    }
  }

  // At no point of any run do two threads have holds.
  lemma Exclusion(states: seq<Mutex>, events: seq<Event>, i: nat, t: int, u: int)
    requires Run(states, events) && i < |states| && 1 <= t < |states[0].phase| && 1 <= u < |states[0].phase| && t != u
    ensures Held(states, events, i, t) == 0 || Held(states, events, i, u) == 0
  {
    HoldsCounted(states, events, i, t);
    HoldsCounted(states, events, i, u);
  }

  ghost predicate OthersFree(states: seq<Mutex>, events: seq<Event>, i: nat, t: int)
    requires i <= |events| < |states|
  {
    forall u :: 1 <= u < |states[0].phase| && u != t ==> Held(states, events, i, u) == 0
  }

  // In every run a take ends at once exactly if no other thread has a hold.
  lemma TakenIff(states: seq<Mutex>, events: seq<Event>, i: nat)
    requires Run(states, events) && i < |events| && events[i].Take?
    ensures 1 <= events[i].t < |states[i + 1].phase|
    ensures var h, w := states[i + 1].phase[events[i].t], events[i].w;
      && (h == Idle(Taken) <==> OthersFree(states, events, i, events[i].t))
      && (h != Idle(Taken) ==> h == if w == Not then Idle(TimedOut) else Waiting(w))
  {
    RunOk(states, events, i);
    assert Follows(states[i], events[i], states[i + 1]);
    var m, t := states[i], events[i].t;
    forall u | 1 <= u < |states[0].phase| ensures Held(states, events, i, u) == Holds(m, u) {
      HoldsCounted(states, events, i, u);
    }
    HoldsLength(states, events, i);
    if m.owner != NOBODY && m.owner != t { assert Held(states, events, i, m.owner) > 0; }
  }

  lemma {:induction false} HoldsLength(states: seq<Mutex>, events: seq<Event>, i: nat)
    requires Run(states, events) && i < |states|
    ensures |states[i].phase| == |states[0].phase|
  {
    if i > 0 {
      HoldsLength(states, events, i - 1);
      RunOk(states, events, i - 1);
      var m, e := states[i - 1], events[i - 1];
      assert Follows(m, e, states[i]);
      StepHolds(m, e, e.t);
    }
  }

  // In every run a release is accepted exactly if its caller has a hold, and the last hold goes to the
  // thread that has been first in the queue.
  lemma ReleasedIff(states: seq<Mutex>, events: seq<Event>, i: nat)
    requires Run(states, events) && i < |events| && events[i].Release?
    ensures var t, m, m' := events[i].t, states[i], states[i + 1];
      && 1 <= t < |states[0].phase| && t < |m'.phase|
      && (m'.phase[t] == Idle(Released) <==> Held(states, events, i, t) > 0)
      && (m'.phase[t] != Idle(Released) ==> m'.phase[t] == Idle(NotOwner) && m'.owner == m.owner)
      && (Held(states, events, i, t) == 1 ==> m'.owner == if m.queue == [] then NOBODY else m.queue[0])
  {
    RunOk(states, events, i);
    assert Follows(states[i], events[i], states[i + 1]);
    HoldsLength(states, events, i);
    var m, t := states[i], events[i].t;
    HoldsCounted(states, events, i, t);
    if m.queue != [] { assert m.queue[0] in m.queue; }
  }

  // A waiting take ends in one of two ways: granted by the release of the last hold, then owning the
  // mutex once; or timed out, then owning nothing.
  lemma WaitEnds(m: Mutex, e: Event, t: int)
    requires Ok(m) && Enabled(m, e) && 1 <= t < |m.phase| && m.phase[t].Waiting?
    ensures var m' := Step(m, e);
      && |m'.phase| == |m.phase|
      && (|| m'.phase[t] == m.phase[t]
          || (m'.phase[t] == Granted && m'.owner == t && m'.hold == 1 && m.queue[0] == t
              && e == Release(m.owner) && m.hold == 1)
          || (m'.phase[t] == Idle(TimedOut) && e == Timeout(t) && m'.owner != t))
  {
    assert t in m.queue && m.owner != t;
  }

  // One more step at the end of a run.
  lemma Extend(states: seq<Mutex>, events: seq<Event>, e: Event) returns (states': seq<Mutex>, events': seq<Event>)
    requires Run(states, events) && Ok(states[|events|]) && Enabled(states[|events|], e)
    ensures Run(states', events') && events' == events + [e] && states'[0] == states[0]
    ensures states'[|events'|] == Step(states[|events|], e) && Ok(states'[|events'|])
  {
    var m := states[|events|];
    StepOk(m, e);
    states', events' := states + [Step(m, e)], events + [e];
    forall i | 0 <= i < |events'| ensures Follows(states'[i], events'[i], states'[i + 1]) {
      if i < |events| { assert Follows(states[i], events[i], states[i + 1]); }
    }
    assert states'[0] == states[0];
  }

  const START := [0, 9, 1, 5]

  lemma TakenByThree() returns (states: seq<Mutex>, events: seq<Event>)
    ensures Run(states, events) && !states[0].byPrio && events == [Take(3, Forever)] && Ok(states[|events|])
    ensures states[|events|] ==
      Mutex(0, 3, 5, 1, [], [Idle(None), Idle(None), Idle(None), Idle(Taken)], START, START, false)
  {
    var idle := Idle(None);
    var m := Mutex(1, NOBODY, NO_PRIORITY, 0, [], [idle, idle, idle, idle], START, START, false);
    assert Ok(m);
    states, events := Extend([m], [], Take(3, Forever));
  }

  lemma TwoBehind() returns (states: seq<Mutex>, events: seq<Event>)
    ensures Run(states, events) && !states[0].byPrio && Ok(states[|events|])
    ensures events == [Take(3, Forever), Take(1, Forever), Take(2, Forever)]
    ensures states[|events|] ==
      Mutex(0, 3, 5, 1, [1, 2], [Idle(None), Waiting(Forever), Waiting(Forever), Idle(Taken)],
            START, [0, 9, 1, 1], false)
  {
    states, events := TakenByThree();
    states, events := Extend(states, events, Take(1, Forever));
    states, events := Extend(states, events, Take(2, Forever));
    assert states[|events|].cur == [0, 9, 1, 1];
  }

  // In a queue by arrival inheritance is lost in a run without any change of priority: an urgent thread
  // waits behind a less urgent one, to which the mutex is handed over.
  lemma FifoInversion() returns (states: seq<Mutex>, events: seq<Event>)
    ensures Run(states, events) && !states[0].byPrio && !Urgent(states[|events|])
    ensures events == [Take(3, Forever), Take(1, Forever), Take(2, Forever), Release(3)]
  {
    states, events := TwoBehind();
    states, events := Extend(states, events, Release(3));
    var m := states[|events|];
    assert m.owner == 1 && m.queue == [2] && 2 in m.queue && m.cur == START;
  }
}
