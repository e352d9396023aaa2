// The event object: a set of 32 flags, and threads that wait for all or for any of some flags.

module Event {
  import opened RingList
  import opened SortedList
  import opened WaitQueue

  // A word of flags, as the set of the positions of its 1 bits: | is union, & intersection, & ~ difference.
  type Bits = set<int>

  datatype Outcome = None | Got(bits: Bits) | Refused | TimedOut | Aborted

  // all: RT_EVENT_FLAG_AND, otherwise RT_EVENT_FLAG_OR; clear: RT_EVENT_FLAG_CLEAR
  datatype Phase = Idle(last: Outcome) | Waiting(bits: Bits, all: bool, clear: bool, w: Wait) | Woken(bits: Bits)

  datatype State = State(flags: Bits, queue: seq<int>, phase: seq<Phase>, prio: seq<int>, byPrio: bool)

  predicate Waits(h: Phase) { h.Waiting? }

  predicate Satisfied(flags: Bits, bits: Bits, all: bool) {
    if all then flags * bits == bits else flags * bits != {}
  }

  // What a receive that is satisfied reports, and the flags it leaves (rt_event_recv).
  function Report(flags: Bits, bits: Bits): Bits { flags * bits }

  function Left(flags: Bits, bits: Bits, clear: bool): Bits { if clear then flags - bits else flags }

  // --- flags --------------------------------------------------------------------------------------

  // Fewer flags satisfy no more.
  lemma FewerSatisfies(a: Bits, b: Bits, bits: Bits, all: bool)
    requires a <= b && Satisfied(a, bits, all)
    ensures Satisfied(b, bits, all)
  {
    if all {
      assert b * bits == bits by { assert forall x :: x in bits ==> x in a * bits; }
    } else {
      assert a * bits <= b * bits;
    }
  }

  // The send narrows the flags of an OR waiter to those that are set, reports these and clears
  // these: the same report and the same remaining flags as a receive by that waiter.
  lemma SendAsRecv(flags: Bits, bits: Bits, all: bool, clear: bool)
    requires Satisfied(flags, bits, all)
    ensures var narrowed := if all then bits else bits * flags;
      narrowed == Report(flags, bits) && Left(flags, narrowed, clear) == Left(flags, bits, clear)
  {
    assert bits * flags == flags * bits;
    assert flags - (bits * flags) == flags - bits;
  }

  // --- the send, on the list -----------------------------------------------------------------------

  datatype Scanned = Scanned(flags: Bits, queue: seq<int>, phase: seq<Phase>)

  ghost predicate AllWait(q: seq<int>, phase: seq<Phase>) {
    NoDup(q) && forall i :: 0 <= i < |q| ==> 0 <= q[i] < |phase| && phase[q[i]].Waiting?
  }

  // A non-blocking receive by every waiter of q in turn.
  ghost function RecvEach(flags: Bits, q: seq<int>, phase: seq<Phase>): (r: Scanned)
    requires AllWait(q, phase)
    ensures |r.phase| == |phase|
    decreases |q|
  {
    if q == [] then Scanned(flags, [], phase)
    else
      var h := phase[q[0]];
      TailWaits(q, phase, Woken(Report(flags, h.bits)));
      if Satisfied(flags, h.bits, h.all) then
        RecvEach(Left(flags, h.bits, h.clear), q[1..], phase[q[0] := Woken(Report(flags, h.bits))])
      else
        var r := RecvEach(flags, q[1..], phase);
        r.(queue := [q[0]] + r.queue)
  }

  lemma TailWaits(q: seq<int>, phase: seq<Phase>, h: Phase)
    requires AllWait(q, phase) && q != []
    ensures AllWait(q[1..], phase[q[0] := h]) && AllWait(q[1..], phase)
  {
    NoDupTail(q);
    forall i | 0 <= i < |q| - 1 ensures q[1..][i] != q[0] { assert q[1..][i] in q[1..]; }
  }

  // --- invariant ----------------------------------------------------------------------------------

  ghost predicate Unsatisfied(flags: Bits, q: seq<int>, phase: seq<Phase>) {
    forall x :: x in q ==> 0 <= x < |phase| && phase[x].Waiting? && !Satisfied(flags, phase[x].bits, phase[x].all)
  }

  ghost predicate Ok(s: State) {
    |s.prio| == |s.phase| && Queued(s.queue, s.phase, Waits) && Unsatisfied(s.flags, s.queue, s.phase)
  }

  lemma {:induction false} RecvEachFewer(flags: Bits, q: seq<int>, phase: seq<Phase>)
    requires AllWait(q, phase)
    ensures RecvEach(flags, q, phase).flags <= flags
    decreases |q|
  {
    if q != [] {
      var h := phase[q[0]];
      TailWaits(q, phase, Woken(Report(flags, h.bits)));
      if Satisfied(flags, h.bits, h.all) {
        var flags1, phase1 := Left(flags, h.bits, h.clear), phase[q[0] := Woken(Report(flags, h.bits))];
        RecvEachFewer(flags1, q[1..], phase1);
      } else {
        RecvEachFewer(flags, q[1..], phase);
      }
    }
  }

  // The waiters that stay keep their order and phase, the others are woken.
  ghost predicate Sifted(q: seq<int>, phase: seq<Phase>, q': seq<int>, phase': seq<Phase>) {
    && |phase'| == |phase| && NoDup(q') && (forall x :: x in q' ==> x in q)
    && (forall x :: 0 <= x < |phase| ==>
          if x in q && x !in q' then phase'[x].Woken? else phase'[x] == phase[x])
  }

  lemma {:induction false} RecvEachSifts(flags: Bits, q: seq<int>, phase: seq<Phase>)
    requires AllWait(q, phase)
    ensures Sifted(q, phase, RecvEach(flags, q, phase).queue, RecvEach(flags, q, phase).phase)
    decreases |q|
  {
    if q != [] {
      var h, woken := phase[q[0]], Woken(Report(flags, phase[q[0]].bits));
      TailWaits(q, phase, woken);
      if Satisfied(flags, h.bits, h.all) {
        var flags1 := Left(flags, h.bits, h.clear);
        RecvEachSifts(flags1, q[1..], phase[q[0] := woken]);
        var r := RecvEach(flags1, q[1..], phase[q[0] := woken]);
        SiftWoken(q, phase, woken, r.queue, r.phase);
      } else {
        RecvEachSifts(flags, q[1..], phase);
        var r := RecvEach(flags, q[1..], phase);
        SiftStays(q, phase, r.queue, r.phase);
      }
    }
  }

  lemma SiftWoken(q: seq<int>, phase: seq<Phase>, woken: Phase, q': seq<int>, phase': seq<Phase>)
    requires AllWait(q, phase) && q != [] && woken.Woken? && Sifted(q[1..], phase[q[0] := woken], q', phase')
    ensures Sifted(q, phase, q', phase')
  {
    DequeueMembers(q);
  }

  lemma SiftStays(q: seq<int>, phase: seq<Phase>, q': seq<int>, phase': seq<Phase>)
    requires AllWait(q, phase) && q != [] && Sifted(q[1..], phase, q', phase')
    ensures Sifted(q, phase, [q[0]] + q', phase')
  {
    DequeueMembers(q);
    assert [q[0]] + q' == Inserted(q', 0, q[0]);
    InsertedNoDup(q', 0, q[0]);
  }

  // No waiter that stays is satisfied by what is left, also not one that was passed before later
  // waiters cleared flags.
  lemma {:induction false} RecvEachUnsatisfied(flags: Bits, q: seq<int>, phase: seq<Phase>)
    requires AllWait(q, phase)
    ensures var r := RecvEach(flags, q, phase); Unsatisfied(r.flags, r.queue, r.phase)
    decreases |q|
  {
    if q != [] {
      var h, woken := phase[q[0]], Woken(Report(flags, phase[q[0]].bits));
      TailWaits(q, phase, woken);
      if Satisfied(flags, h.bits, h.all) {
        RecvEachUnsatisfied(Left(flags, h.bits, h.clear), q[1..], phase[q[0] := woken]);
      } else {
        RecvEachUnsatisfied(flags, q[1..], phase);
        RecvEachFewer(flags, q[1..], phase);
        RecvEachSifts(flags, q[1..], phase);
        var r := RecvEach(flags, q[1..], phase);
        NoDupTail(q);
        assert r.phase[q[0]] == h;
        if Satisfied(r.flags, h.bits, h.all) { FewerSatisfies(r.flags, flags, h.bits, h.all); }
      }
    }
  }

  // --- steps ----------------------------------------------------------------------------------------

  datatype Event =
    | Send(bits: Bits) | Recv(t: int, bits: Bits, all: bool, clear: bool, w: Wait)
    | Resume(t: int) | Timeout(t: int) | Reset

  ghost predicate Enabled(s: State, e: Event) {
    match e
    case Send(_) => true
    case Recv(t, _, _, _, w) => 1 <= t < |s.phase| && s.phase[t].Idle? && Lasting(w)
    case Resume(t) => 1 <= t < |s.phase| && s.phase[t].Woken?
    case Timeout(t) => 1 <= t < |s.phase| && s.phase[t].Waiting? && s.phase[t].w.Ticks?
    case Reset => true
  }

  function SetPhase(s: State, t: int, h: Phase): State
    requires 0 <= t < |s.phase|
  {
    s.(phase := s.phase[t := h])
  }

  // Or the flags in, then let every waiter try a non-blocking receive, in the order of the queue.
  ghost function DoSend(s: State, bits: Bits): State
    requires Ok(s)
  {
    if bits == {} then s
    else
      QueuedWait(s);
      var r := RecvEach(s.flags + bits, s.queue, s.phase);
      s.(flags := r.flags, queue := r.queue, phase := r.phase)
  }

  lemma QueuedWait(s: State)
    requires Ok(s)
    ensures AllWait(s.queue, s.phase)
  {
    forall i | 0 <= i < |s.queue| ensures 0 <= s.queue[i] < |s.phase| && s.phase[s.queue[i]].Waiting? {
      assert s.queue[i] in s.queue;
    }
  }

  ghost function DoRecv(s: State, t: int, bits: Bits, all: bool, clear: bool, w: Wait): State
    requires Ok(s) && 1 <= t < |s.phase|
  {
    if bits == {} then SetPhase(s, t, Idle(Refused))
    else if Satisfied(s.flags, bits, all) then
      SetPhase(s, t, Idle(Got(Report(s.flags, bits)))).(flags := Left(s.flags, bits, clear))
    else if w.Not? then SetPhase(s, t, Idle(TimedOut))
    else SetPhase(s, t, Waiting(bits, all, clear, w)).(queue := Enqueue(s.queue, s.prio, t, s.byPrio))
  }

  function Abort(phase: seq<Phase>): seq<Phase> { AllTo(phase, Waits, Idle(Aborted)) }

  ghost function Step(s: State, e: Event): State
    requires Ok(s) && Enabled(s, e)
  {
    match e
    case Send(bits) => DoSend(s, bits)
    case Recv(t, bits, all, clear, w) => DoRecv(s, t, bits, all, clear, w)
    case Resume(t) => SetPhase(s, t, Idle(Got(s.phase[t].bits)))
    case Timeout(t) => SetPhase(s, t, Idle(TimedOut)).(queue := Without(s.queue, t))
    case Reset => s.(phase := Abort(s.phase), queue := [], flags := {})
  }

  lemma SendOk(s: State, bits: Bits)
    requires Ok(s)
    ensures Ok(DoSend(s, bits))
  {
    if bits != {} {
      QueuedWait(s);
      RecvEachSifts(s.flags + bits, s.queue, s.phase);
      RecvEachUnsatisfied(s.flags + bits, s.queue, s.phase);
      var r := RecvEach(s.flags + bits, s.queue, s.phase);
      SiftedQueued(s.queue, s.phase, r.queue, r.phase);
    }
  }

  lemma SiftedQueued(q: seq<int>, phase: seq<Phase>, q': seq<int>, phase': seq<Phase>)
    requires Queued(q, phase, Waits) && Sifted(q, phase, q', phase')
    ensures Queued(q', phase', Waits)
  {
    forall i | 0 <= i < |q'| ensures 1 <= q'[i] < |phase| { assert q'[i] in q'; }
  }

  // t is not queued, and the flags may shrink.
  lemma RunOk(s: State, t: int, h: Phase, flags: Bits)
    requires Ok(s) && 1 <= t < |s.phase| && !Waits(s.phase[t]) && !Waits(h) && flags <= s.flags
    ensures Ok(SetPhase(s, t, h).(flags := flags))
  {
    QueuedUnder(s.queue, s.phase, t, h, Waits);
    forall x | x in s.queue ensures !Satisfied(flags, s.phase[x].bits, s.phase[x].all) {
      if Satisfied(flags, s.phase[x].bits, s.phase[x].all) {
        FewerSatisfies(flags, s.flags, s.phase[x].bits, s.phase[x].all);
      }
    }
  }

  lemma WaitOk(s: State, t: int, h: Phase)
    requires Ok(s) && 1 <= t < |s.phase| && !Waits(s.phase[t])
    requires h.Waiting? && !Satisfied(s.flags, h.bits, h.all)
    ensures Ok(SetPhase(s, t, h).(queue := Enqueue(s.queue, s.prio, t, s.byPrio)))
  {
    assert t !in s.queue;
    EnqueueMembers(s.queue, s.prio, t, s.byPrio);
    EnqueueNoDup(s.queue, s.prio, t, s.byPrio);
  }

  lemma RecvOk(s: State, t: int, bits: Bits, all: bool, clear: bool, w: Wait)
    requires Ok(s) && 1 <= t < |s.phase| && s.phase[t].Idle?
    ensures Ok(DoRecv(s, t, bits, all, clear, w))
  {
    if bits == {} {
      RunOk(s, t, Idle(Refused), s.flags);
    } else if Satisfied(s.flags, bits, all) {
      RunOk(s, t, Idle(Got(Report(s.flags, bits))), Left(s.flags, bits, clear));
    } else if w.Not? {
      RunOk(s, t, Idle(TimedOut), s.flags);
    } else {
      WaitOk(s, t, Waiting(bits, all, clear, w));
    }
  }

  lemma StepOk(s: State, e: Event)
    requires Ok(s) && Enabled(s, e)
    ensures Ok(Step(s, e))
  {
    match e
    case Send(bits) => SendOk(s, bits);
    case Recv(t, bits, all, clear, w) => RecvOk(s, t, bits, all, clear, w);
    case Resume(t) => RunOk(s, t, Idle(Got(s.phase[t].bits)), s.flags);
    case Timeout(t) => TimeoutOk(s, t);
    case Reset =>
  }

  lemma TimeoutOk(s: State, t: int)
    requires Ok(s) && Enabled(s, Timeout(t))
    ensures Ok(Step(s, Timeout(t)))
  {
    QueuedLeave(s.queue, s.phase, t, Idle(TimedOut), Waits);
  }

  // --- runs -------------------------------------------------------------------------------------------

  ghost predicate Initial(s: State) {
    s.flags == {} && s.queue == [] && |s.prio| == |s.phase| && forall i :: 0 <= i < |s.phase| ==> s.phase[i].Idle?
  }

  ghost predicate Follows(s: State, e: Event, s': State) { Enabled(s, e) && (Ok(s) ==> s' == Step(s, e)) }

  ghost predicate Run(states: seq<State>, events: seq<Event>) {
    && |states| == |events| + 1 && Initial(states[0])
    && forall i :: 0 <= i < |events| ==> Follows(states[i], events[i], states[i + 1])
  }

  // In no reachable state does a thread wait for flags that are there.
  lemma {:induction false} NobodyWaitsInVain(states: seq<State>, events: seq<Event>, i: nat)
    requires Run(states, events) && i < |states|
    ensures Ok(states[i])
    ensures forall x :: 1 <= x < |states[i].phase| && states[i].phase[x].Waiting? ==>
      !Satisfied(states[i].flags, states[i].phase[x].bits, states[i].phase[x].all)
  {
    if i > 0 {
      NobodyWaitsInVain(states, events, i - 1);
      assert Follows(states[i - 1], events[i - 1], states[i]);
      StepOk(states[i - 1], events[i - 1]);
    }
  }

  // --- which flags are set, bit by bit ----------------------------------------------------------------------

  // A waiter of q among the first k, for flag x among others and with the option to clear, was woken.
  ghost predicate TakenBefore(q: seq<int>, phase: seq<Phase>, phase': seq<Phase>, k: nat, x: int) {
    exists j :: 0 <= j < k && j < |q| && Takes(q[j], phase, phase', x)
  }

  ghost predicate Takes(t: int, phase: seq<Phase>, phase': seq<Phase>, x: int) {
    && 0 <= t < |phase| && t < |phase'|
    && phase[t].Waiting? && phase[t].clear && x in phase[t].bits && phase'[t].Woken?
  }

  // The flags that the k-th waiter of q finds: those that no waiter before it took.
  ghost function Unclaimed(flags: Bits, q: seq<int>, phase: seq<Phase>, phase': seq<Phase>, k: nat): Bits {
    set x | x in flags && !TakenBefore(q, phase, phase', k, x)
  }

  ghost predicate Meets(flags: Bits, bits: Bits, all: bool) {
    if all then forall x :: x in bits ==> x in flags else exists x :: x in bits && x in flags
  }

  lemma AllMet(flags: Bits, bits: Bits)
    ensures Satisfied(flags, bits, true) <==> Meets(flags, bits, true)
  {
    if Satisfied(flags, bits, true) {
      forall x | x in bits ensures x in flags { assert x in flags * bits; }
    }
    if forall x :: x in bits ==> x in flags { assert flags * bits == bits; }
  }

  lemma OneMet(flags: Bits, bits: Bits)
    ensures Satisfied(flags, bits, false) <==> Meets(flags, bits, false)
  {
    if x :| x in bits && x in flags {
      assert x in flags * bits;
    } else {
      forall x ensures x !in flags * bits { }
      assert flags * bits == {};
    }
  }

  lemma SatisfiedMeets(flags: Bits, bits: Bits, all: bool)
    ensures Satisfied(flags, bits, all) <==> Meets(flags, bits, all)
  {
    AllMet(flags, bits);
    OneMet(flags, bits);
  }

  // The k-th waiter of q is woken exactly if it meets the flags it finds, and it gets those.
  ghost predicate ServedAt(flags: Bits, q: seq<int>, phase: seq<Phase>, phase': seq<Phase>, k: nat)
    requires k < |q| && 0 <= q[k] < |phase| == |phase'| && phase[q[k]].Waiting?
  {
    var h, found := phase[q[k]], Unclaimed(flags, q, phase, phase', k);
    phase'[q[k]] == if Meets(found, h.bits, h.all) then Woken(found * h.bits) else h
  }

  // TakenBefore for a list and for its tail
  lemma TakenTail(q: seq<int>, phase: seq<Phase>, phase1: seq<Phase>, phase': seq<Phase>, k: nat, x: int)
    requires AllWait(q, phase) && q != [] && |phase| == |phase1| == |phase'| && k < |q|
    requires forall t :: 0 <= t < |phase| && t != q[0] ==> phase1[t] == phase[t]
    ensures TakenBefore(q, phase, phase', k + 1, x)
      <==> Takes(q[0], phase, phase', x) || TakenBefore(q[1..], phase1, phase', k, x)
  {
    var tail := q[1..];
    forall j | 0 <= j < k ensures Takes(q[j + 1], phase, phase', x) <==> Takes(tail[j], phase1, phase', x) {
      Distinct(q, 0, j + 1);
      assert tail[j] == q[j + 1];
    }
    if TakenBefore(q, phase, phase', k + 1, x) && !Takes(q[0], phase, phase', x) {
      var j :| 0 <= j < k + 1 && j < |q| && Takes(q[j], phase, phase', x);
      assert Takes(tail[j - 1], phase1, phase', x);
    }
    if TakenBefore(tail, phase1, phase', k, x) {
      var j :| 0 <= j < k && j < |tail| && Takes(tail[j], phase1, phase', x);
      assert Takes(q[j + 1], phase, phase', x);
    }
  }

  lemma UnclaimedTail(flags: Bits, flags1: Bits, q: seq<int>, phase: seq<Phase>, phase1: seq<Phase>,
                      phase': seq<Phase>, k: nat)
    requires AllWait(q, phase) && q != [] && |phase| == |phase1| == |phase'| && k < |q|
    requires forall t :: 0 <= t < |phase| && t != q[0] ==> phase1[t] == phase[t]
    requires forall x :: x in flags1 <==> x in flags && !Takes(q[0], phase, phase', x)
    ensures Unclaimed(flags, q, phase, phase', k + 1) == Unclaimed(flags1, q[1..], phase1, phase', k)
  {
    forall x ensures x in Unclaimed(flags, q, phase, phase', k + 1)
      <==> x in Unclaimed(flags1, q[1..], phase1, phase', k)
    {
      TakenTail(q, phase, phase1, phase', k, x);
    }
  }

  // What a scan does to the first waiter and leaves for the others.
  lemma ScanFirst(flags: Bits, q: seq<int>, phase: seq<Phase>) returns (flags1: Bits, phase1: seq<Phase>)
    requires AllWait(q, phase) && q != []
    ensures AllWait(q[1..], phase1) && |phase1| == |phase|
    ensures var r, r1 := RecvEach(flags, q, phase), RecvEach(flags1, q[1..], phase1);
      && r.flags == r1.flags && r.phase == r1.phase && r.phase[q[0]] == phase1[q[0]]
      && r.queue == (if phase1[q[0]].Waiting? then [q[0]] + r1.queue else r1.queue)
      && (forall x :: x in flags1 <==> x in flags && !Takes(q[0], phase, r.phase, x))
    ensures var h := phase[q[0]];
      phase1[q[0]] == if Meets(flags, h.bits, h.all) then Woken(flags * h.bits) else h
    ensures forall t :: 0 <= t < |phase| && t != q[0] ==> phase1[t] == phase[t]
  {
    var h := phase[q[0]];
    TailWaits(q, phase, Woken(Report(flags, h.bits)));
    SatisfiedMeets(flags, h.bits, h.all);
    if Satisfied(flags, h.bits, h.all) {
      flags1, phase1 := Left(flags, h.bits, h.clear), phase[q[0] := Woken(Report(flags, h.bits))];
    } else {
      flags1, phase1 := flags, phase;
    }
    RecvEachSifts(flags1, q[1..], phase1);
    NoDupTail(q);
  }

  lemma {:induction false} ScanServes(flags: Bits, q: seq<int>, phase: seq<Phase>, k: nat)
    requires AllWait(q, phase) && k < |q|
    ensures ServedAt(flags, q, phase, RecvEach(flags, q, phase).phase, k)
    decreases |q|
  {
    var r := RecvEach(flags, q, phase);
    var flags1, phase1 := ScanFirst(flags, q, phase);
    if k == 0 {
      assert Unclaimed(flags, q, phase, r.phase, 0) == flags;
    } else {
      ScanServes(flags1, q[1..], phase1, k - 1);
      UnclaimedTail(flags, flags1, q, phase, phase1, r.phase, k - 1);
      Distinct(q, 0, k);
      assert q[1..][k - 1] == q[k];
    }
  }

  lemma {:induction false} ScanLeaves(flags: Bits, q: seq<int>, phase: seq<Phase>)
    requires AllWait(q, phase)
    ensures RecvEach(flags, q, phase).flags == Unclaimed(flags, q, phase, RecvEach(flags, q, phase).phase, |q|)
    decreases |q|
  {
    var r := RecvEach(flags, q, phase);
    if q == [] {
      assert Unclaimed(flags, q, phase, r.phase, 0) == flags;
    } else {
      var flags1, phase1 := ScanFirst(flags, q, phase);
      ScanLeaves(flags1, q[1..], phase1);
      UnclaimedTail(flags, flags1, q, phase, phase1, r.phase, |q| - 1);
    }
  }

  // The threads of q that wait, in the order of q.
  function Still(q: seq<int>, phase: seq<Phase>): seq<int> {
    if q == [] then []
    else if 0 <= q[0] < |phase| && phase[q[0]].Waiting? then [q[0]] + Still(q[1..], phase)
    else Still(q[1..], phase)
  }

  lemma {:induction false} ScanKeeps(flags: Bits, q: seq<int>, phase: seq<Phase>)
    requires AllWait(q, phase)
    ensures RecvEach(flags, q, phase).queue == Still(q, RecvEach(flags, q, phase).phase)
    decreases |q|
  {
    if q != [] {
      var flags1, phase1 := ScanFirst(flags, q, phase);
      ScanKeeps(flags1, q[1..], phase1);
    }
  }

  // A send, with the flags it adds: of the waiters in the order of the queue, each is woken exactly if the
  // flags it waits for are set and not yet taken by one before it, and it gets these.  The others stay in
  // the queue, in their order.
  lemma SendWakes(s: State, bits: Bits, k: nat)
    requires Ok(s) && bits != {} && k < |s.queue|
    ensures 1 <= s.queue[k] < |s.phase| == |Step(s, Send(bits)).phase| && s.phase[s.queue[k]].Waiting?
    ensures ServedAt(s.flags + bits, s.queue, s.phase, Step(s, Send(bits)).phase, k)
    ensures Step(s, Send(bits)).queue == Still(s.queue, Step(s, Send(bits)).phase)
  {
    QueuedWait(s);
    ScanKeeps(s.flags + bits, s.queue, s.phase);
    assert s.queue[k] in s.queue;
    ScanServes(s.flags + bits, s.queue, s.phase, k);
  }

  // What a receive comes to, from the flags and those it asks for.
  lemma RecvOutcome(s: State, t: int, bits: Bits, all: bool, clear: bool, w: Wait)
    requires Ok(s) && Enabled(s, Recv(t, bits, all, clear, w))
    ensures Step(s, Recv(t, bits, all, clear, w)).phase[t] ==
      if bits == {} then Idle(Refused)
      else if Meets(s.flags, bits, all) then Idle(Got(s.flags * bits))
      else if w == Not then Idle(TimedOut) else Waiting(bits, all, clear, w)
  {
    SatisfiedMeets(s.flags, bits, all);
  }

  // An event clears flag x: a reset; a receive that got its flags, with the option to clear and x among
  // them; or a send that wakes such a receive.
  ghost predicate Clears(s: State, e: Event, s': State, x: int) {
    || e.Reset?
    || (e.Recv? && e.clear && x in e.bits && 0 <= e.t < |s'.phase| && s'.phase[e.t].Idle? && s'.phase[e.t].last.Got?)
    || (e.Send? && exists t :: Takes(t, s.phase, s'.phase, x))
  }

  predicate Sets(e: Event, x: int) { e.Send? && x in e.bits }

  lemma StepFlags(s: State, e: Event, x: int)
    requires Ok(s) && Enabled(s, e)
    ensures x in Step(s, e).flags <==> (x in s.flags || Sets(e, x)) && !Clears(s, e, Step(s, e), x)
  {
    if e.Send? { SendFlags(s, e.bits, x); }
  }

  lemma SendFlags(s: State, bits: Bits, x: int)
    requires Ok(s)
    ensures var s' := Step(s, Send(bits));
      x in s'.flags <==> (x in s.flags || x in bits) && !exists t :: Takes(t, s.phase, s'.phase, x)
  {
    var s' := Step(s, Send(bits));
    QueuedWait(s);
    if bits != {} {
      ScanLeaves(s.flags + bits, s.queue, s.phase);
      RecvEachSifts(s.flags + bits, s.queue, s.phase);
      forall t | Takes(t, s.phase, s'.phase, x) ensures TakenBefore(s.queue, s.phase, s'.phase, |s.queue|, x) {
        assert t in s.queue;
        var j :| 0 <= j < |s.queue| && s.queue[j] == t;
        assert Takes(s.queue[j], s.phase, s'.phase, x);
      }
    }
  }

  // Flag x was set by the send at j, and nothing from there on to i cleared it.
  ghost predicate SetSince(states: seq<State>, events: seq<Event>, j: int, i: int, x: int)
    requires |states| == |events| + 1
  {
    && 0 <= j < i < |states| && Sets(events[j], x)
    && forall k :: j <= k < i ==> !Clears(states[k], events[k], states[k + 1], x)
  }

  // At every point of every run a flag is set exactly if some send set it and nothing cleared it since,
  // the waiters woken by that send included.
  lemma {:induction false} FlagHistory(states: seq<State>, events: seq<Event>, i: nat, x: int)
    requires Run(states, events) && i < |states|
    ensures x in states[i].flags <==> exists j :: SetSince(states, events, j, i, x)
  {
    if i > 0 {
      FlagHistory(states, events, i - 1, x);
      NobodyWaitsInVain(states, events, i - 1);
      var s, e := states[i - 1], events[i - 1];
      assert Follows(s, e, states[i]);
      StepFlags(s, e, x);
      if x in states[i].flags {
        if Sets(e, x) {
          assert SetSince(states, events, i - 1, i, x);
        } else {
          var j :| SetSince(states, events, j, i - 1, x);
          assert SetSince(states, events, j, i, x);
        }
      }
      if j :| SetSince(states, events, j, i, x) {
        if j < i - 1 { assert SetSince(states, events, j, i - 1, x); }
        assert !Clears(s, e, states[i], x);
      }
    }
  }

  // --- the object ----------------------------------------------------------------------------------------

  class EventObject {
    var flags: Bits
    var waiters: seq<int>
    var phase: seq<Phase>    // of every thread
    const prio: seq<int>
    const byPrio: bool

    ghost function View(): State
      reads this
    {
      State(flags, waiters, phase, prio, byPrio)
    }

    ghost predicate Valid()
      reads this
    {
      Ok(View())
    }

    // rt_event_init
    constructor (prio: seq<int>, byPrio: bool)
      ensures Valid() && Initial(View())
    {
      flags, waiters, phase := {}, [], seq(|prio|, i => Idle(None));
      this.prio, this.byPrio := prio, byPrio;
    }

    // rt_event_send
    method Send(bits: Bits) returns (ok: bool)
      requires Valid()
      modifies this
      ensures Valid() && ok == (bits != {}) && View() == Step(old(View()), Event.Send(bits))
    {
      SendOk(View(), bits);
      QueuedWait(View());
      if bits == {} {
        return false;
      }
      flags := flags + bits;
      ghost var goal := RecvEach(flags, waiters, phase);
      var i := 0;
      assert [] + goal.queue == goal.queue;
      while i < |waiters|
        invariant 0 <= i <= |waiters| && AllWait(waiters[i..], phase)
        invariant goal == Behind(waiters[..i], RecvEach(flags, waiters[i..], phase))
        decreases |waiters| - i
      {
        i := Pass(i);
      }
      assert waiters[..i] == waiters && waiters[..i] + [] == waiters;
      ok := true;
    }

    // The loop body: the i-th waiter is woken and leaves the list, or is passed.
    method Pass(i: int) returns (i': int)
      requires 0 <= i < |waiters| && AllWait(waiters[i..], phase)
      modifies `flags, `waiters, `phase
      ensures 0 <= i' <= |waiters| && |waiters| - i' < old(|waiters|) - i
      ensures AllWait(waiters[i'..], phase)
      ensures Behind(waiters[..i'], RecvEach(flags, waiters[i'..], phase)) ==
              old(Behind(waiters[..i], RecvEach(flags, waiters[i..], phase)))
    {
      var t := waiters[i];
      ghost var q := waiters[i..];
      var h := phase[t];
      assert q[0] == t && q[1..] == waiters[i + 1..];
      if Satisfied(flags, h.bits, h.all) {
        SendAsRecv(flags, h.bits, h.all, h.clear);
        var narrowed := if h.all then h.bits else h.bits * flags;
        TailWaits(q, phase, Woken(narrowed));
        flags := Left(flags, narrowed, h.clear);
        phase := phase[t := Woken(narrowed)];
        waiters := waiters[..i] + waiters[i + 1..];
        assert waiters[i..] == q[1..] && waiters[..i] == old(waiters)[..i];
        i' := i;
      } else {
        TailWaits(q, phase, h);
        BehindMore(waiters[..i], t, RecvEach(flags, q[1..], phase));
        assert waiters[..i + 1] == waiters[..i] + [t];
        i' := i + 1;
      }
    }

    // rt_event_recv, up to the wait
    method Recv(t: int, bits: Bits, all: bool, clear: bool, w: Wait)
      requires Valid() && Enabled(View(), Event.Recv(t, bits, all, clear, w))
      modifies this
      ensures Valid() && View() == Step(old(View()), Event.Recv(t, bits, all, clear, w))
    {
      RecvOk(View(), t, bits, all, clear, w);
      if bits == {} {
        phase := phase[t := Idle(Refused)];
      } else if (all && flags * bits == bits) || (!all && flags * bits != {}) {
        phase := phase[t := Idle(Got(flags * bits))];
        if clear { flags := flags - bits; }
      } else if w.Not? {
        phase := phase[t := Idle(TimedOut)];
      } else {
        phase := phase[t := Waiting(bits, all, clear, w)];
        waiters := Enqueue(waiters, prio, t, byPrio);
      }
    }

    method Timeout(t: int)
      requires Valid() && Enabled(View(), Event.Timeout(t))
      modifies this
      ensures Valid() && View() == Step(old(View()), Event.Timeout(t))
    {
      TimeoutOk(View(), t);
      phase := phase[t := Idle(TimedOut)];
      waiters := Without(waiters, t);
    }
  }

  // The result of a scan, behind waiters that were passed.
  ghost function Behind(q: seq<int>, r: Scanned): Scanned { r.(queue := q + r.queue) }

  lemma BehindMore(q: seq<int>, x: int, r: Scanned)
    ensures Behind(q, r.(queue := [x] + r.queue)) == Behind(q + [x], r)
  {
    assert q + ([x] + r.queue) == q + [x] + r.queue;
  }
}
