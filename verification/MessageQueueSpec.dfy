// The message queue as a transition system.  A send takes a node off the free list in one step,
// fills it while it belongs to no list, and links it in another; a receive is split the same way.

module MessageQueueSpec {
  import opened RingList
  import opened SortedList
  import opened WaitQueue

  type Bytes = seq<int>

  datatype Outcome = None | Sent | Got(bytes: Bytes) | TooLong | Full | TimedOut | Aborted

  datatype Phase =
    | Idle(last: Outcome)
    | Filling(node: int, bytes: Bytes, urgent: bool)   // holds a node to be linked
    | WaitRecv(size: nat, w: Wait) | WokenRecv(size: nat, w: Wait)
    | Draining(node: int, size: nat, slot: Bytes)      // holds a node that has been unlinked

  // Which list a node is in, or the thread that holds it.
  datatype Place = InQueue | InFree | With(t: int)

  // deque is the queue as its users see it: one whole slot per message, next to be delivered first.
  datatype Mq = Mq(msgSize: nat, queue: seq<int>, free: seq<int>, slots: seq<Bytes>, where: seq<Place>,
                   recvq: seq<int>, phase: seq<Phase>, prio: seq<int>, byPrio: bool, deque: seq<Bytes>)

  predicate WaitsRecv(h: Phase) { h.WaitRecv? }
  predicate WillRecv(h: Phase) { h.WokenRecv? }
  predicate Holds(h: Phase) { h.Filling? || h.Draining? }

  // A slot after a message was copied into its first bytes.
  function Filled(slot: Bytes, bytes: Bytes): Bytes
    requires |bytes| <= |slot|
  {
    bytes + slot[|bytes|..]
  }

  function Least(a: nat, b: nat): nat { if a < b then a else b }

  // --- invariant -----------------------------------------------------------------------------------

  // The list holds exactly the nodes of one place.
  ghost predicate Lists(list: seq<int>, where: seq<Place>, p: Place) {
    NoDup(list) && forall n :: n in list <==> 0 <= n < |where| && where[n] == p
  }

  ghost predicate Held(where: seq<Place>, phase: seq<Phase>) {
    && (forall t :: 1 <= t < |phase| && Holds(phase[t]) ==>
          0 <= phase[t].node < |where| && where[phase[t].node] == With(t))
    && (forall n :: 0 <= n < |where| && where[n].With? ==>
          1 <= where[n].t < |phase| && Holds(phase[where[n].t]) && phase[where[n].t].node == n)
  }

  // Queue, free list and the nodes in transit: every node is in exactly one of them.
  ghost predicate Parted(m: Mq) {
    Lists(m.queue, m.where, InQueue) && Lists(m.free, m.where, InFree) && Held(m.where, m.phase)
  }

  ghost predicate Stored(queue: seq<int>, slots: seq<Bytes>, deque: seq<Bytes>) {
    |deque| == |queue| && forall i :: 0 <= i < |queue| ==> 0 <= queue[i] < |slots| && deque[i] == slots[queue[i]]
  }

  ghost predicate Fits(h: Phase, slots: seq<Bytes>, msgSize: nat) {
    && (h.Filling? ==> |h.bytes| <= msgSize)
    && (h.Draining? ==> 0 <= h.node < |slots| && slots[h.node] == h.slot)
  }

  ghost predicate Contents(m: Mq) {
    && Stored(m.queue, m.slots, m.deque)
    && (forall n :: 0 <= n < |m.slots| ==> |m.slots[n]| == m.msgSize)
    && (forall t :: 1 <= t < |m.phase| ==> Fits(m.phase[t], m.slots, m.msgSize))
  }

  ghost predicate Ok(m: Mq) {
    && |m.prio| == |m.phase| && |m.slots| == |m.where|
    && Parted(m) && Contents(m)
    && Served(m.recvq, m.phase, |m.queue|, WaitsRecv, WillRecv)
  }

  // --- steps -----------------------------------------------------------------------------------------

  function SetPhase(m: Mq, t: int, h: Phase): Mq
    requires 0 <= t < |m.phase|
  {
    m.(phase := m.phase[t := h])
  }

  // rt_mq_send and rt_mq_urgent, first region
  ghost function Grab(m: Mq, t: int, bytes: Bytes, urgent: bool): Mq
    requires Ok(m) && 1 <= t < |m.phase|
  {
    if |bytes| > m.msgSize then SetPhase(m, t, Idle(TooLong))
    else if m.free == [] then SetPhase(m, t, Idle(Full))
    else
      var n := m.free[0];
      assert n in m.free;
      SetPhase(m, t, Filling(n, bytes, urgent)).(free := m.free[1..], where := m.where[n := With(t)])
  }

  // Copying the message, and the second region
  ghost function Link(m: Mq, t: int): Mq
    requires Ok(m) && 1 <= t < |m.phase| && m.phase[t].Filling?
  {
    var n, urgent := m.phase[t].node, m.phase[t].urgent;
    var slot := Filled(m.slots[n], m.phase[t].bytes);
    var m1 := SetPhase(m, t, Idle(Sent)).(
      slots := m.slots[n := slot], where := m.where[n := InQueue],
      queue := if urgent then [n] + m.queue else m.queue + [n],
      deque := if urgent then [slot] + m.deque else m.deque + [slot]);
    QueuedUnder(m.recvq, m.phase, t, Idle(Sent), WaitsRecv);
    Wake(m1)
  }

  function Wake(m: Mq): Mq
    requires forall i :: 0 <= i < |m.recvq| ==> 0 <= m.recvq[i] < |m.phase| && m.phase[m.recvq[i]].WaitRecv?
  {
    if m.recvq == [] then m
    else
      var t := m.recvq[0];
      m.(recvq := m.recvq[1..], phase := m.phase[t := WokenRecv(m.phase[t].size, m.phase[t].w)])
  }

  // rt_mq_recv: the loop head and the unlinking
  ghost function TryRecv(m: Mq, t: int, size: nat, w: Wait): Mq
    requires Ok(m) && MayRecv(m, t)
  {
    if m.queue != [] then
      var n := m.queue[0];
      assert n in m.queue;
      SetPhase(m, t, Draining(n, size, m.deque[0])).(
        queue := m.queue[1..], deque := m.deque[1..], where := m.where[n := With(t)])
    else if w.Not? then SetPhase(m, t, Idle(TimedOut))
    else SetPhase(m, t, WaitRecv(size, w)).(recvq := Enqueue(m.recvq, m.prio, t, m.byPrio))
  }

  ghost predicate MayRecv(m: Mq, t: int) { 1 <= t < |m.phase| && (m.phase[t].Idle? || m.phase[t].WokenRecv?) }

  // Copying the message out, and the last region
  ghost function Release(m: Mq, t: int): Mq
    requires Ok(m) && 1 <= t < |m.phase| && m.phase[t].Draining?
  {
    var n := m.phase[t].node;
    var bytes := m.slots[n][..Least(m.phase[t].size, m.msgSize)];
    SetPhase(m, t, Idle(Got(bytes))).(free := [n] + m.free, where := m.where[n := InFree])
  }

  // rt_mq_control with RT_IPC_CMD_RESET: the queued nodes go to the free list one by one.
  function PushAll(queue: seq<int>, free: seq<int>): seq<int>
    decreases |queue|
  {
    if queue == [] then free else PushAll(queue[1..], [queue[0]] + free)
  }

  function Cleared(where: seq<Place>): (r: seq<Place>)
    ensures |r| == |where|
    ensures forall n :: 0 <= n < |where| ==> r[n] == if where[n] == InQueue then InFree else where[n]
  {
    seq(|where|, n requires 0 <= n < |where| => if where[n] == InQueue then InFree else where[n])
  }

  function Abort(phase: seq<Phase>): seq<Phase> { AllTo(phase, WaitsRecv, Idle(Aborted)) }

  datatype Event =
    | Send(t: int, bytes: Bytes) | Urgent(t: int, bytes: Bytes) | LinkIn(t: int)
    | Recv(t: int, size: nat, w: Wait) | RecvAgain(t: int, elapsed: nat) | GiveBack(t: int)
    | Timeout(t: int) | Reset

  ghost predicate Enabled(m: Mq, e: Event) {
    (e.Reset? || 1 <= e.t < |m.phase|) &&
    match e
    case Send(t, _) => m.phase[t].Idle?
    case Urgent(t, _) => m.phase[t].Idle?
    case LinkIn(t) => m.phase[t].Filling?
    case Recv(t, _, w) => m.phase[t].Idle? && Lasting(w)
    case RecvAgain(t, _) => m.phase[t].WokenRecv?
    case GiveBack(t) => m.phase[t].Draining?
    case Timeout(t) => m.phase[t].WaitRecv? && m.phase[t].w.Ticks?
    case Reset => true
  }

  ghost function Step(m: Mq, e: Event): Mq
    requires Ok(m) && Enabled(m, e)
  {
    match e
    case Send(t, bytes) => Grab(m, t, bytes, false)
    case Urgent(t, bytes) => Grab(m, t, bytes, true)
    case LinkIn(t) => Link(m, t)
    case Recv(t, size, w) => TryRecv(m, t, size, w)
    case RecvAgain(t, elapsed) => TryRecv(m, t, m.phase[t].size, Spend(m.phase[t].w, elapsed))
    case GiveBack(t) => Release(m, t)
    case Timeout(t) => SetPhase(m, t, Idle(TimedOut)).(recvq := Without(m.recvq, t))
    case Reset =>
      m.(phase := Abort(m.phase), recvq := [], queue := [], deque := [],
         free := PushAll(m.queue, m.free), where := Cleared(m.where))
  }

  // --- every step keeps the invariant ------------------------------------------------------------------

  lemma ListsPop(list: seq<int>, where: seq<Place>, p: Place, q: Place)
    requires Lists(list, where, p) && list != [] && p != q
    ensures 0 <= list[0] < |where| && Lists(list[1..], where[list[0] := q], p)
  {
    assert list[0] in list;
    DequeueMembers(list);
  }

  lemma ListsPush(list: seq<int>, where: seq<Place>, p: Place, n: int, front: bool)
    requires Lists(list, where, p) && 0 <= n < |where| && where[n] != p
    ensures Lists(if front then [n] + list else list + [n], where[n := p], p)
  {
    var i := if front then 0 else |list|;
    assert (if front then [n] + list else list + [n]) == Inserted(list, i, n);
    InsertedNoDup(list, i, n);
  }

  lemma ListsOther(list: seq<int>, where: seq<Place>, p: Place, n: int, q: Place)
    requires Lists(list, where, p) && 0 <= n < |where| && where[n] != p && q != p
    ensures Lists(list, where[n := q], p)
  {
  }

  // A node changes hands: t lets go of what it held, if anything, and then holds what h says.
  lemma HeldTake(where: seq<Place>, phase: seq<Phase>, t: int, h: Phase)
    requires Held(where, phase) && 1 <= t < |phase| && !Holds(phase[t]) && Holds(h)
    requires 0 <= h.node < |where| && !where[h.node].With?
    ensures Held(where[h.node := With(t)], phase[t := h])
  {
  }

  lemma HeldDrop(where: seq<Place>, phase: seq<Phase>, t: int, h: Phase, p: Place)
    requires Held(where, phase) && 1 <= t < |phase| && Holds(phase[t]) && !Holds(h) && !p.With?
    ensures 0 <= phase[t].node < |where| && Held(where[phase[t].node := p], phase[t := h])
  {
  }

  lemma HeldSame(where: seq<Place>, phase: seq<Phase>, t: int, h: Phase)
    requires Held(where, phase) && 1 <= t < |phase| && !Holds(phase[t]) && !Holds(h)
    ensures Held(where, phase[t := h])
  {
  }

  // A step that only changes the phase of a thread that holds no node.
  lemma PlainOk(m: Mq, t: int, h: Phase, recvq: seq<int>)
    requires Ok(m) && 1 <= t < |m.phase| && !Holds(m.phase[t]) && !Holds(h)
    requires Served(recvq, m.phase[t := h], |m.queue|, WaitsRecv, WillRecv)
    ensures Ok(SetPhase(m, t, h).(recvq := recvq))
  {
    HeldSame(m.where, m.phase, t, h);
  }

  lemma GrabOk(m: Mq, t: int, bytes: Bytes, urgent: bool)
    requires Ok(m) && 1 <= t < |m.phase| && m.phase[t].Idle?
    ensures Ok(Grab(m, t, bytes, urgent))
  {
    var n := |m.queue|;
    if |bytes| > m.msgSize || m.free == [] {
      var h := Idle(if |bytes| > m.msgSize then TooLong else Full);
      ServedRun(m.recvq, m.phase, n, n, t, h, WaitsRecv, WillRecv);
      PlainOk(m, t, h, m.recvq);
    } else {
      var h := Filling(m.free[0], bytes, urgent);
      ServedRun(m.recvq, m.phase, n, n, t, h, WaitsRecv, WillRecv);
      ListsPop(m.free, m.where, InFree, With(t));
      assert m.free[0] in m.free;
      ListsOther(m.queue, m.where, InQueue, m.free[0], With(t));
      HeldTake(m.where, m.phase, t, h);
    }
  }

  lemma TryRecvOk(m: Mq, t: int, size: nat, w: Wait)
    requires Ok(m) && MayRecv(m, t)
    ensures Ok(TryRecv(m, t, size, w))
  {
    var n := |m.queue|;
    if m.queue != [] {
      var h := Draining(m.queue[0], size, m.deque[0]);
      ServedRun(m.recvq, m.phase, n, n - 1, t, h, WaitsRecv, WillRecv);
      assert m.queue[0] in m.queue;
      ListsPop(m.queue, m.where, InQueue, With(t));
      ListsOther(m.free, m.where, InFree, m.queue[0], With(t));
      HeldTake(m.where, m.phase, t, h);
    } else if w.Not? {
      ServedNothing(m.recvq, m.phase, t, Idle(TimedOut), WaitsRecv, WillRecv);
      PlainOk(m, t, Idle(TimedOut), m.recvq);
    } else {
      var h := WaitRecv(size, w);
      ServedWait(m.recvq, m.phase, m.prio, m.byPrio, t, h, WaitsRecv, WillRecv);
      PlainOk(m, t, h, Enqueue(m.recvq, m.prio, t, m.byPrio));
    }
  }

  lemma ReleaseOk(m: Mq, t: int)
    requires Ok(m) && 1 <= t < |m.phase| && m.phase[t].Draining?
    ensures Ok(Release(m, t))
  {
    var h := Release(m, t).phase[t];
    ServedRun(m.recvq, m.phase, |m.queue|, |m.queue|, t, h, WaitsRecv, WillRecv);
    ListsPush(m.free, m.where, InFree, m.phase[t].node, true);
    ListsOther(m.queue, m.where, InQueue, m.phase[t].node, InFree);
    HeldDrop(m.where, m.phase, t, h, InFree);
  }

  // Filling a slot that its writer holds disturbs no other message.
  lemma FillContents(m: Mq, t: int)
    requires Ok(m) && 1 <= t < |m.phase| && m.phase[t].Filling?
    ensures var n, urgent := m.phase[t].node, m.phase[t].urgent;
      var slot := Filled(m.slots[n], m.phase[t].bytes);
      Contents(SetPhase(m, t, Idle(Sent)).(
        slots := m.slots[n := slot],
        queue := if urgent then [n] + m.queue else m.queue + [n],
        deque := if urgent then [slot] + m.deque else m.deque + [slot]))
  {
    var n := m.phase[t].node;
    forall i | 0 <= i < |m.queue| ensures m.queue[i] != n { assert m.queue[i] in m.queue; }
    forall u | 1 <= u < |m.phase| && u != t && m.phase[u].Draining? ensures m.phase[u].node != n {
      assert Holds(m.phase[u]);
    }
  }

  lemma LinkOk(m: Mq, t: int)
    requires Ok(m) && 1 <= t < |m.phase| && m.phase[t].Filling?
    ensures Ok(Link(m, t))
  {
    var n, urgent, h := m.phase[t].node, m.phase[t].urgent, Idle(Sent);
    var slot := Filled(m.slots[n], m.phase[t].bytes);
    FillContents(m, t);
    ListsPush(m.queue, m.where, InQueue, n, urgent);
    ListsOther(m.free, m.where, InFree, n, InQueue);
    HeldDrop(m.where, m.phase, t, h, InQueue);
    ServedRun(m.recvq, m.phase, |m.queue|, |m.queue|, t, h, WaitsRecv, WillRecv);
    WakeOk(SetPhase(m, t, h).(
      slots := m.slots[n := slot], where := m.where[n := InQueue],
      queue := if urgent then [n] + m.queue else m.queue + [n],
      deque := if urgent then [slot] + m.deque else m.deque + [slot]));
  }

  lemma WakeOk(m: Mq)
    requires |m.prio| == |m.phase| && |m.slots| == |m.where| && Parted(m) && Contents(m)
    requires Served(m.recvq, m.phase, |m.queue| - 1, WaitsRecv, WillRecv)
    ensures forall i :: 0 <= i < |m.recvq| ==> 0 <= m.recvq[i] < |m.phase| && m.phase[m.recvq[i]].WaitRecv?
    ensures Ok(Wake(m))
  {
    forall i | 0 <= i < |m.recvq| ensures 0 <= m.recvq[i] < |m.phase| && m.phase[m.recvq[i]].WaitRecv? {
      assert m.recvq[i] in m.recvq;
    }
    if m.recvq != [] {
      var t := m.recvq[0];
      var h := WokenRecv(m.phase[t].size, m.phase[t].w);
      ServedWake(m.recvq, m.phase, |m.queue| - 1, h, WaitsRecv, WillRecv);
      HeldSame(m.where, m.phase, t, h);
    }
  }

  lemma TimeoutOk(m: Mq, t: int)
    requires Ok(m) && Enabled(m, Timeout(t))
    ensures Ok(Step(m, Timeout(t)))
  {
    ServedLeave(m.recvq, m.phase, |m.queue|, t, Idle(TimedOut), WaitsRecv, WillRecv);
    PlainOk(m, t, Idle(TimedOut), Without(m.recvq, t));
  }

  lemma {:induction false} PushAllMembers(queue: seq<int>, free: seq<int>)
    requires NoDup(queue) && NoDup(free) && forall n :: n in queue ==> n !in free
    ensures NoDup(PushAll(queue, free))
    ensures forall n :: n in PushAll(queue, free) <==> n in queue || n in free
    decreases |queue|
  {
    if queue != [] {
      DequeueMembers(queue);
      assert [queue[0]] + free == Inserted(free, 0, queue[0]);
      InsertedNoDup(free, 0, queue[0]);
      PushAllMembers(queue[1..], [queue[0]] + free);
    }
  }

  lemma ResetOk(m: Mq)
    requires Ok(m)
    ensures Ok(Step(m, Reset))
  {
    PushAllMembers(m.queue, m.free);
    var m' := Step(m, Reset);
    assert Lists(m'.free, m'.where, InFree);
    forall t | 1 <= t < |m'.phase| ensures Fits(m'.phase[t], m'.slots, m'.msgSize) {
      assert Fits(m.phase[t], m.slots, m.msgSize);
    }
    ResetHeld(m);
  }

  lemma ResetHeld(m: Mq)
    requires Held(m.where, m.phase)
    ensures Held(Cleared(m.where), Abort(m.phase))
  {
  }

  lemma StepOk(m: Mq, e: Event)
    requires Ok(m) && Enabled(m, e)
    ensures Ok(Step(m, e))
  {
    match e
    case Send(t, bytes) => GrabOk(m, t, bytes, false);
    case Urgent(t, bytes) => GrabOk(m, t, bytes, true);
    case LinkIn(t) => LinkOk(m, t);
    case Recv(t, size, w) => TryRecvOk(m, t, size, w);
    case RecvAgain(t, elapsed) => TryRecvOk(m, t, m.phase[t].size, Spend(m.phase[t].w, elapsed));
    case GiveBack(t) => ReleaseOk(m, t);
    case Timeout(t) => TimeoutOk(m, t);
    case Reset => ResetOk(m);
  }

  // --- conservation ----------------------------------------------------------------------------------

  predicate IsQueued(p: Place) { p == InQueue }
  predicate IsFree(p: Place) { p == InFree }
  predicate IsHeld(p: Place) { p.With? }

  lemma {:induction false} ListsCount(list: seq<int>, where: seq<Place>, p: Place, here: Place -> bool)
    requires Lists(list, where, p) && (p == InQueue || p == InFree) && forall x :: here(x) <==> x == p
    ensures |list| == Count(where, here)
    decreases |list|
  {
    if list == [] {
      CountNone(where, here);
    } else {
      ListsPop(list, where, p, With(0));
      assert list[0] in list;
      CountUpdate(where, here, list[0], With(0));
      ListsCount(list[1..], where[list[0] := With(0)], p, here);
    }
  }

  lemma {:induction false} HeldCount(where: seq<Place>, phase: seq<Phase>)
    requires Held(where, phase) && |phase| >= 1
    ensures Count(phase[1..], Holds) == Count(where, IsHeld)
    decreases Count(where, IsHeld)
  {
    if t :| 1 <= t < |phase| && Holds(phase[t]) {
      var n := phase[t].node;
      HeldDrop(where, phase, t, Idle(None), InFree);
      CountUpdate(where, IsHeld, n, InFree);
      CountUpdate(phase[1..], Holds, t - 1, Idle(None));
      assert phase[t := Idle(None)][1..] == phase[1..][t - 1 := Idle(None)];
      HeldCount(where[n := InFree], phase[t := Idle(None)]);
    } else {
      CountNone(phase[1..], Holds);
      CountNone(where, IsHeld);
    }
  }

  lemma {:induction false} PlacesCount(where: seq<Place>)
    ensures Count(where, IsQueued) + Count(where, IsFree) + Count(where, IsHeld) == |where|
  {
    if where != [] { PlacesCount(where[..|where| - 1]); }
  }

  // No node is ever lost or duplicated.
  lemma NodesConserved(m: Mq)
    requires Ok(m) && |m.phase| >= 1
    ensures |m.queue| + |m.free| + Count(m.phase[1..], Holds) == |m.where|
  {
    ListsCount(m.queue, m.where, InQueue, IsQueued);
    ListsCount(m.free, m.where, InFree, IsFree);
    HeldCount(m.where, m.phase);
    PlacesCount(m.where);
  }

  // --- delivery ----------------------------------------------------------------------------------------

  // What the other threads do leaves the node that t holds, and what t is doing, alone.
  ghost predicate Undisturbed(m: Mq, m': Mq, t: int) {
    && |m'.phase| == |m.phase| && 1 <= t < |m.phase| && m'.phase[t] == m.phase[t] && Holds(m.phase[t])
    && |m'.slots| == |m.slots| && 0 <= m.phase[t].node < |m.slots|
    && m'.slots[m.phase[t].node] == m.slots[m.phase[t].node]
  }

  lemma LinkUndisturbed(m: Mq, u: int, t: int)
    requires Ok(m) && 1 <= u < |m.phase| && m.phase[u].Filling? && 1 <= t < |m.phase| && Holds(m.phase[t]) && u != t
    ensures Undisturbed(m, Link(m, u), t)
  {
    QueuedUnder(m.recvq, m.phase, u, Idle(Sent), WaitsRecv);
    assert m.phase[u].node != m.phase[t].node;
  }

  lemma HolderUndisturbed(m: Mq, e: Event, t: int)
    requires Ok(m) && Enabled(m, e) && 1 <= t < |m.phase| && Holds(m.phase[t]) && (e.Reset? || e.t != t)
    ensures Undisturbed(m, Step(m, e), t)
  {
    assert 0 <= m.phase[t].node < |m.slots|;
    if e.LinkIn? { LinkUndisturbed(m, e.t, t); }
  }

  // A receiver gets the message that was first in the queue when it unlinked it, however long it
  // takes to copy it out.
  lemma ReceivedWhole(m: Mq, t: int)
    requires Ok(m) && 1 <= t < |m.phase| && m.phase[t].Draining?
    ensures Release(m, t).phase[t] == Idle(Got(m.phase[t].slot[..Least(m.phase[t].size, m.msgSize)]))
  {
    assert Fits(m.phase[t], m.slots, m.msgSize);
  }

  // --- outcomes --------------------------------------------------------------------------------------------

  // A send is refused as too long exactly if the message does not fit a slot, and as full exactly if all
  // nodes of the pool are queued or in transit.
  lemma SendOutcome(m: Mq, t: int, bytes: Bytes, urgent: bool)
    requires Ok(m) && 1 <= t < |m.phase| && m.phase[t].Idle?
    ensures var h := Grab(m, t, bytes, urgent).phase[t];
      && (h == Idle(TooLong) <==> |bytes| > m.msgSize)
      && (h == Idle(Full) <==> |bytes| <= m.msgSize && |m.queue| + Count(m.phase[1..], Holds) == |m.where|)
      && (!h.Idle? ==> h.Filling? && h.bytes == bytes && h.urgent == urgent)
  {
    NodesConserved(m);
  }

  // A receive gets a message exactly if there is one; otherwise it waits, or fails if it may not wait.
  lemma RecvOutcome(m: Mq, t: int, size: nat, w: Wait)
    requires Ok(m) && MayRecv(m, t)
    ensures var h := TryRecv(m, t, size, w).phase[t];
      && (h.Draining? <==> m.deque != [])
      && (m.deque == [] ==> h == if w.Not? then Idle(TimedOut) else WaitRecv(size, w))
  {
  }

  // How a queued receiver leaves the queue: at the head, by a link; by its own timeout; or by a reset.
  lemma WaitEnds(m: Mq, e: Event, t: int)
    requires Ok(m) && Enabled(m, e) && 1 <= t < |m.phase| && m.phase[t].WaitRecv?
    ensures var m' := Step(m, e);
      && |m'.phase| == |m.phase|
      && (|| m'.phase[t] == m.phase[t]
          || (m'.phase[t] == WokenRecv(m.phase[t].size, m.phase[t].w) && e.LinkIn? && m.recvq != [] && m.recvq[0] == t)
          || (m'.phase[t] == Idle(TimedOut) && e == Timeout(t))
          || (m'.phase[t] == Idle(Aborted) && e == Reset))
  {
    if e.LinkIn? { LinkLeaves(m, e.t, t); }
  }

  lemma LinkLeaves(m: Mq, u: int, t: int)
    requires Ok(m) && Enabled(m, LinkIn(u)) && 1 <= t < |m.phase| && m.phase[t].WaitRecv?
    ensures var m' := Link(m, u);
      && |m'.phase| == |m.phase|
      && (|| m'.phase[t] == m.phase[t]
          || (m'.phase[t] == WokenRecv(m.phase[t].size, m.phase[t].w) && m.recvq != [] && m.recvq[0] == t))
  {
    QueuedUnder(m.recvq, m.phase, u, Idle(Sent), WaitsRecv);
  }

  // --- runs ----------------------------------------------------------------------------------------------

  ghost predicate Legal(m: Mq, run: seq<Event>)
    requires Ok(m)
    decreases |run|
  {
    run == [] || (Enabled(m, run[0]) && (StepOk(m, run[0]); Legal(Step(m, run[0]), run[1..])))
  }

  ghost function After(m: Mq, run: seq<Event>): (r: Mq)
    requires Ok(m) && Legal(m, run)
    ensures Ok(r)
    decreases |run|
  {
    if run == [] then m else StepOk(m, run[0]); After(Step(m, run[0]), run[1..])
  }

  // --- the queue as its users see it -------------------------------------------------------------------------

  // What a thread asked for when it called send or urgent.
  datatype Call = Call(bytes: Bytes, urgent: bool)

  // A plain deque of the messages as they were sent, with the last call of every sender, and the size asked
  // for and the message taken by every receiver.
  datatype Plain = Plain(asked: map<int, Call>, deque: seq<Bytes>, sizes: map<int, nat>, taken: map<int, Bytes>)

  const NOTHING := Plain(map[], [], map[], map[])

  function Pop(p: Plain, t: int): Plain {
    if p.deque == [] then p else p.(deque := p.deque[1..], taken := p.taken[t := p.deque[0]])
  }

  // Driven by the events alone: a link puts the message of the thread's last call at the back, or in front
  // if that call was urgent; a receive takes the first; a reset empties.
  function PlainStep(p: Plain, e: Event): Plain {
    match e
    case Send(t, bytes) => p.(asked := p.asked[t := Call(bytes, false)])
    case Urgent(t, bytes) => p.(asked := p.asked[t := Call(bytes, true)])
    case LinkIn(t) =>
      if t !in p.asked then p
      else if p.asked[t].urgent then p.(deque := [p.asked[t].bytes] + p.deque)
      else p.(deque := p.deque + [p.asked[t].bytes])
    case Recv(t, size, _) => Pop(p.(sizes := p.sizes[t := size]), t)
    case RecvAgain(t, _) => Pop(p, t)
    case Reset => p.(deque := [])
    case _ => p
  }

  function PlainRun(p: Plain, run: seq<Event>): Plain
    decreases |run|
  {
    if run == [] then p else PlainRun(PlainStep(p, run[0]), run[1..])
  }

  // Every slot starts with the message.
  ghost predicate Carries(slots: seq<Bytes>, msgs: seq<Bytes>) {
    |slots| == |msgs| && forall i :: 0 <= i < |slots| ==> msgs[i] <= slots[i]
  }

  ghost predicate ThreadFollows(h: Phase, p: Plain, t: int) {
    && (h.Filling? ==> t in p.asked && p.asked[t] == Call(h.bytes, h.urgent))
    && (h.WaitRecv? || h.WokenRecv? || h.Draining? ==> t in p.sizes && p.sizes[t] == h.size)
    && (h.Draining? ==> t in p.taken && p.taken[t] <= h.slot)
  }

  ghost predicate Follows(m: Mq, p: Plain) {
    Carries(m.deque, p.deque) && forall t :: 1 <= t < |m.phase| ==> ThreadFollows(m.phase[t], p, t)
  }

  // Only thread t changes, and only its entries.
  lemma OneFollows(m: Mq, m': Mq, p: Plain, p': Plain, t: int)
    requires Follows(m, p) && 1 <= t < |m.phase| == |m'.phase| && m'.phase == m.phase[t := m'.phase[t]]
    requires ThreadFollows(m'.phase[t], p', t) && Carries(m'.deque, p'.deque)
    requires p'.asked == p.asked[t := if t in p'.asked then p'.asked[t] else Call([], false)] || p'.asked == p.asked
    requires p'.sizes == p.sizes[t := if t in p'.sizes then p'.sizes[t] else 0] || p'.sizes == p.sizes
    requires p'.taken == p.taken[t := if t in p'.taken then p'.taken[t] else []] || p'.taken == p.taken
    ensures Follows(m', p')
  {
    forall u | 1 <= u < |m'.phase| ensures ThreadFollows(m'.phase[u], p', u) {
      if u != t { assert ThreadFollows(m.phase[u], p, u); }
    }
  }

  lemma GrabFollows(m: Mq, t: int, bytes: Bytes, urgent: bool, p: Plain)
    requires Ok(m) && 1 <= t < |m.phase| && m.phase[t].Idle? && Follows(m, p)
    ensures Follows(Grab(m, t, bytes, urgent), p.(asked := p.asked[t := Call(bytes, urgent)]))
  {
    var m', p' := Grab(m, t, bytes, urgent), p.(asked := p.asked[t := Call(bytes, urgent)]);
    OneFollows(m, m', p, p', t);
  }

  lemma TryRecvFollows(m: Mq, t: int, size: nat, w: Wait, p: Plain)
    requires Ok(m) && MayRecv(m, t) && Follows(m, p) && t in p.sizes && p.sizes[t] == size
    ensures Follows(TryRecv(m, t, size, w), Pop(p, t))
  {
    var m', p' := TryRecv(m, t, size, w), Pop(p, t);
    if m.deque != [] {
      assert p.deque[0] <= m.deque[0];
      forall i | 0 <= i < |m'.deque| ensures p'.deque[i] <= m'.deque[i] { assert p.deque[i + 1] <= m.deque[i + 1]; }
    }
    OneFollows(m, m', p, p', t);
  }

  // A receiver notes the size it asks for.
  lemma SizeFollows(m: Mq, t: int, size: nat, p: Plain)
    requires Ok(m) && 1 <= t < |m.phase| && m.phase[t].Idle? && Follows(m, p)
    ensures Follows(m, p.(sizes := p.sizes[t := size]))
  {
    OneFollows(m, m, p, p.(sizes := p.sizes[t := size]), t);
  }

  lemma CarriesPush(slots: seq<Bytes>, msgs: seq<Bytes>, slot: Bytes, msg: Bytes, front: bool)
    requires Carries(slots, msgs) && msg <= slot
    ensures Carries(if front then [slot] + slots else slots + [slot], if front then [msg] + msgs else msgs + [msg])
  {
  }

  // The link up to the wake-up
  lemma EnterFollows(m: Mq, t: int, slot: Bytes, p: Plain)
    requires Ok(m) && Enabled(m, LinkIn(t)) && Follows(m, p) && m.phase[t].bytes <= slot
    ensures
      var m1 := SetPhase(m, t, Idle(Sent)).(deque := if m.phase[t].urgent then [slot] + m.deque else m.deque + [slot]);
      Follows(m1, PlainStep(p, LinkIn(t)))
  {
    var h := m.phase[t];
    assert ThreadFollows(h, p, t);
    CarriesPush(m.deque, p.deque, slot, h.bytes, h.urgent);
    var m1 := SetPhase(m, t, Idle(Sent)).(deque := if h.urgent then [slot] + m.deque else m.deque + [slot]);
    OneFollows(m, m1, p, PlainStep(p, LinkIn(t)), t);
  }

  lemma LinkFollows(m: Mq, t: int, p: Plain)
    requires Ok(m) && Enabled(m, LinkIn(t)) && Follows(m, p)
    ensures Follows(Link(m, t), PlainStep(p, LinkIn(t)))
  {
    var slot := Filled(m.slots[m.phase[t].node], m.phase[t].bytes);
    EnterFollows(m, t, slot, p);
    QueuedUnder(m.recvq, m.phase, t, Idle(Sent), WaitsRecv);
    var m1 := SetPhase(m, t, Idle(Sent)).(deque := if m.phase[t].urgent then [slot] + m.deque else m.deque + [slot]);
    WakeFollows(m1, PlainStep(p, LinkIn(t)));
    assert Link(m, t).phase == Wake(m1).phase && Link(m, t).deque == m1.deque;
  }

  lemma WakeFollows(m: Mq, p: Plain)
    requires Follows(m, p)
    requires forall i :: 0 <= i < |m.recvq| ==> 0 <= m.recvq[i] < |m.phase| && m.phase[m.recvq[i]].WaitRecv?
    ensures Follows(Wake(m), p)
  {
    var m' := Wake(m);
    forall u | 1 <= u < |m'.phase| ensures ThreadFollows(m'.phase[u], p, u) { assert ThreadFollows(m.phase[u], p, u); }
  }

  lemma OtherFollows(m: Mq, e: Event, p: Plain)
    requires Ok(m) && Enabled(m, e) && Follows(m, p) && (e.GiveBack? || e.Timeout? || e.Reset?)
    ensures Follows(Step(m, e), PlainStep(p, e))
  {
    var m', p' := Step(m, e), PlainStep(p, e);
    forall u | 1 <= u < |m'.phase| ensures ThreadFollows(m'.phase[u], p', u) { assert ThreadFollows(m.phase[u], p, u); }
  }

  lemma StepFollows(m: Mq, e: Event, p: Plain)
    requires Ok(m) && Enabled(m, e) && Follows(m, p)
    ensures Follows(Step(m, e), PlainStep(p, e))
  {
    match e
    case Send(t, bytes) => GrabFollows(m, t, bytes, false, p);
    case Urgent(t, bytes) => GrabFollows(m, t, bytes, true, p);
    case LinkIn(t) => LinkFollows(m, t, p);
    case Recv(t, size, w) =>
      SizeFollows(m, t, size, p);
      TryRecvFollows(m, t, size, w, p.(sizes := p.sizes[t := size]));
    case RecvAgain(t, elapsed) =>
      assert ThreadFollows(m.phase[t], p, t);
      TryRecvFollows(m, t, m.phase[t].size, Spend(m.phase[t].w, elapsed), p);
    case _ => OtherFollows(m, e, p);
  }

  // Over every run, with urgent messages and resets and under any interleaving, the queue is the plain deque
  // that the events alone make, message by message, and every thread holds what it asked for.
  lemma {:induction false} RunReplays(m: Mq, run: seq<Event>, p: Plain)
    requires Ok(m) && Legal(m, run) && Follows(m, p)
    ensures Follows(After(m, run), PlainRun(p, run))
    decreases |run|
  {
    if run != [] {
      StepOk(m, run[0]);
      StepFollows(m, run[0], p);
      RunReplays(Step(m, run[0]), run[1..], PlainStep(p, run[0]));
    }
  }

  // A queue in which nothing is under way starts with nothing.
  lemma StartsEmpty(m: Mq)
    requires m.deque == [] && forall t :: 1 <= t < |m.phase| ==> m.phase[t].Idle?
    ensures Follows(m, NOTHING)
  {
  }

  // got is what a receiver of so many bytes sees of the message.
  ghost predicate Shows(got: Bytes, msg: Bytes, size: nat, msgSize: nat) {
    |got| == Least(size, msgSize) && (msg <= got || got <= msg)
  }

  // So over every run a receive ends with the bytes of the message that was first in the plain deque when it
  // took it, as many as it asked for, and no other.
  lemma RunReceives(m: Mq, run: seq<Event>, p: Plain, t: int)
    requires Ok(m) && Legal(m, run) && Follows(m, p) && Enabled(After(m, run), GiveBack(t))
    ensures var m1, p1 := After(m, run), PlainRun(p, run);
      var h := Step(m1, GiveBack(t)).phase[t];
      && t in p1.taken && t in p1.sizes && h.Idle? && h.last.Got?
      && Shows(h.last.bytes, p1.taken[t], p1.sizes[t], m1.msgSize)
  {
    RunReplays(m, run, p);
    var m1, p1 := After(m, run), PlainRun(p, run);
    assert ThreadFollows(m1.phase[t], p1, t);
    ReceivedWhole(m1, t);
    assert Fits(m1.phase[t], m1.slots, m1.msgSize);
    Prefixes(p1.taken[t], m1.phase[t].slot, Least(m1.phase[t].size, m1.msgSize));
  }

  lemma Prefixes(a: Bytes, b: Bytes, n: nat)
    requires a <= b && n <= |b|
    ensures a <= b[..n] || b[..n] <= a
  {
    if |a| <= n { assert b[..n][..|a|] == a; } else { assert a[..n] == b[..n]; }
  }

  // --- order -------------------------------------------------------------------------------------------------

  // The message that an event takes from the plain deque, and the one it links to it.
  function Out(p: Plain, e: Event): seq<Bytes> {
    if (e.Recv? || e.RecvAgain?) && p.deque != [] then [p.deque[0]] else []
  }

  function In(p: Plain, e: Event): seq<Bytes> {
    if e.LinkIn? && e.t in p.asked then [p.asked[e.t].bytes] else []
  }

  function Delivered(p: Plain, run: seq<Event>): seq<Bytes>
    decreases |run|
  {
    if run == [] then [] else Out(p, run[0]) + Delivered(PlainStep(p, run[0]), run[1..])
  }

  function Linked(p: Plain, run: seq<Event>): seq<Bytes>
    decreases |run|
  {
    if run == [] then [] else In(p, run[0]) + Linked(PlainStep(p, run[0]), run[1..])
  }

  ghost predicate NoneUrgent(p: Plain) { forall t :: t in p.asked ==> !p.asked[t].urgent }

  lemma StepFifo(p: Plain, e: Event)
    requires NoneUrgent(p) && !e.Urgent? && !e.Reset?
    ensures NoneUrgent(PlainStep(p, e)) && Out(p, e) + PlainStep(p, e).deque == p.deque + In(p, e)
  {
    if e.LinkIn? {
      assert [] + PlainStep(p, e).deque == PlainStep(p, e).deque;
    } else if Out(p, e) != [] {
      assert p.deque == [p.deque[0]] + p.deque[1..] && p.deque + [] == p.deque;
    } else {
      assert [] + p.deque == p.deque + [];
    }
  }

  // Without urgent sends and resets, what was delivered, followed by what is still queued, is what was linked,
  // in the order of linking.
  lemma {:induction false} RunFifo(p: Plain, run: seq<Event>)
    requires NoneUrgent(p) && forall i :: 0 <= i < |run| ==> !run[i].Urgent? && !run[i].Reset?
    ensures Delivered(p, run) + PlainRun(p, run).deque == p.deque + Linked(p, run)
    decreases |run|
  {
    if run == [] {
      assert [] + p.deque == p.deque + [];
    } else {
      var e, p1 := run[0], PlainStep(p, run[0]);
      StepFifo(p, e);
      RunFifo(p1, run[1..]);
      Regroup(Out(p, e), Delivered(p1, run[1..]), PlainRun(p, run).deque, p1.deque, Linked(p1, run[1..]), p.deque,
              In(p, e));
    }
  }

  lemma {:induction false} PlainAppend(p: Plain, a: seq<Event>, b: seq<Event>)
    ensures PlainRun(p, a + b) == PlainRun(PlainRun(p, a), b)
    decreases |a|
  {
    if a == [] {
      assert a + b == b;
    } else {
      assert (a + b)[1..] == a[1..] + b;
      PlainAppend(PlainStep(p, a[0]), a[1..], b);
    }
  }

  ghost predicate Of(e: Event, t: int) { !e.Reset? && e.t == t }

  // Until its next call, what a thread asked for stays.
  lemma {:induction false} AskedStays(p: Plain, run: seq<Event>, t: int)
    requires t in p.asked && forall i :: 0 <= i < |run| ==> !Of(run[i], t)
    ensures t in PlainRun(p, run).asked && PlainRun(p, run).asked[t] == p.asked[t]
    decreases |run|
  {
    if run != [] {
      assert !Of(run[0], t);
      AskedStays(PlainStep(p, run[0]), run[1..], t);
    }
  }

  // Whatever happens between the call and the link of its message, the link puts the bytes of that call
  // at the back, or for an urgent call in front, where the next receive takes them.
  lemma LinkOfCall(p: Plain, before: seq<Event>, call: Event, between: seq<Event>)
    requires (call.Send? || call.Urgent?) && forall i :: 0 <= i < |between| ==> !Of(between[i], call.t)
    ensures var d := PlainRun(p, before + [call] + between).deque;
      PlainRun(p, before + [call] + between + [LinkIn(call.t)]).deque ==
        if call.Urgent? then [call.bytes] + d else d + [call.bytes]
  {
    PlainAppend(p, before + [call], between);
    PlainAppend(p, before, [call]);
    PlainAppend(p, before + [call] + between, [LinkIn(call.t)]);
    var p0 := PlainRun(p, before);
    assert [call][1..] == [] && [LinkIn(call.t)][1..] == [];
    var p1 := PlainRun(p0, [call]);
    assert p1 == PlainStep(p0, call);
    AskedStays(p1, between, call.t);
  }

  lemma Regroup(p: seq<Bytes>, ps: seq<Bytes>, d: seq<Bytes>, d1: seq<Bytes>, us: seq<Bytes>, d0: seq<Bytes>,
                u: seq<Bytes>)
    requires ps + d == d1 + us && p + d1 == d0 + u
    ensures (p + ps) + d == d0 + (u + us)
  {
    assert (p + ps) + d == p + (ps + d);
    assert p + (d1 + us) == (p + d1) + us;
    assert (d0 + u) + us == d0 + (u + us);
  }
}
