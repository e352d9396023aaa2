// The mailbox as a transition system.  Each step is one region of the code that runs with
// interrupts disabled; between two steps of one call any other thread may step.

module MailboxSpec {
  import opened SortedList
  import opened WaitQueue

  datatype Outcome = None | Sent | Got(mail: int) | Full | TimedOut | Aborted

  // Where a thread is: in no call, queued in one, or taken off the queue but not yet run on.
  datatype Phase =
    | Idle(last: Outcome)
    | WaitRecv(w: Wait) | WokenRecv(w: Wait)
    | WaitSend(mail: int, w: Wait) | WokenSend(mail: int, w: Wait)

  // Threads are numbered from 1.  sent and got record all mail since the last reset.
  datatype Box = Box(size: nat, mails: seq<int>, recvq: seq<int>, sendq: seq<int>,
                     phase: seq<Phase>, prio: seq<int>, byPrio: bool, sent: seq<int>, got: seq<int>)

  predicate WaitsRecv(h: Phase) { h.WaitRecv? }
  predicate WillRecv(h: Phase) { h.WokenRecv? }
  predicate WaitsSend(h: Phase) { h.WaitSend? }
  predicate WillSend(h: Phase) { h.WokenSend? }

  // --- steps -------------------------------------------------------------------------------------

  function SetPhase(b: Box, t: int, h: Phase): Box
    requires 0 <= t < |b.phase|
  {
    b.(phase := b.phase[t := h])
  }

  // rt_ipc_list_resume on the receivers
  function WakeReceiver(b: Box): Box
    requires forall i :: 0 <= i < |b.recvq| ==> 0 <= b.recvq[i] < |b.phase| && b.phase[b.recvq[i]].WaitRecv?
  {
    if b.recvq == [] then b
    else
      var t := b.recvq[0];
      b.(recvq := b.recvq[1..], phase := b.phase[t := WokenRecv(b.phase[t].w)])
  }

  function WakeSender(b: Box): Box
    requires forall i :: 0 <= i < |b.sendq| ==> 0 <= b.sendq[i] < |b.phase| && b.phase[b.sendq[i]].WaitSend?
  {
    if b.sendq == [] then b
    else
      var t := b.sendq[0];
      b.(sendq := b.sendq[1..], phase := b.phase[t := WokenSend(b.phase[t].mail, b.phase[t].w)])
  }

  // A running sender: store, wait or give up.
  ghost function TrySend(b: Box, t: int, mail: int, w: Wait): Box
    requires Ok(b) && MaySend(b, t)
  {
    if |b.mails| < b.size then
      var b1 := SetPhase(b, t, Idle(Sent)).(mails := b.mails + [mail], sent := b.sent + [mail]);
      QueuedUnder(b.recvq, b.phase, t, Idle(Sent), WaitsRecv);
      WakeReceiver(b1)
    else if w.Not? then SetPhase(b, t, Idle(Full))
    else SetPhase(b, t, WaitSend(mail, w)).(sendq := Enqueue(b.sendq, b.prio, t, b.byPrio))
  }

  // A running receiver: fetch, wait or give up.
  ghost function TryRecv(b: Box, t: int, w: Wait): Box
    requires Ok(b) && MayRecv(b, t)
  {
    if b.mails != [] then
      var b1 := SetPhase(b, t, Idle(Got(b.mails[0]))).(mails := b.mails[1..], got := b.got + [b.mails[0]]);
      QueuedUnder(b.sendq, b.phase, t, Idle(Got(b.mails[0])), WaitsSend);
      WakeSender(b1)
    else if w.Not? then SetPhase(b, t, Idle(TimedOut))
    else SetPhase(b, t, WaitRecv(w)).(recvq := Enqueue(b.recvq, b.prio, t, b.byPrio))
  }

  datatype Event =
    | Send(t: int, mail: int, w: Wait) | SendAgain(t: int, elapsed: nat)
    | Recv(t: int, w: Wait) | RecvAgain(t: int, elapsed: nat)
    | Timeout(t: int) | Reset

  ghost predicate Enabled(b: Box, e: Event) {
    match e
    case Send(t, _, w) => 1 <= t < |b.phase| && b.phase[t].Idle? && Lasting(w)
    case SendAgain(t, _) => 1 <= t < |b.phase| && b.phase[t].WokenSend?
    case Recv(t, w) => 1 <= t < |b.phase| && b.phase[t].Idle? && Lasting(w)
    case RecvAgain(t, _) => 1 <= t < |b.phase| && b.phase[t].WokenRecv?
    case Timeout(t) => 1 <= t < |b.phase| && (b.phase[t].WaitRecv? || b.phase[t].WaitSend?) && b.phase[t].w.Ticks?
    case Reset => true
  }

  predicate WaitsAny(h: Phase) { WaitsRecv(h) || WaitsSend(h) }

  function Abort(phase: seq<Phase>): seq<Phase> { AllTo(phase, WaitsAny, Idle(Aborted)) }

  ghost function Step(b: Box, e: Event): Box
    requires Ok(b) && Enabled(b, e)
  {
    match e
    case Send(t, mail, w) => TrySend(b, t, mail, w)
    case SendAgain(t, elapsed) => TrySend(b, t, b.phase[t].mail, Spend(b.phase[t].w, elapsed))
    case Recv(t, w) => TryRecv(b, t, w)
    case RecvAgain(t, elapsed) => TryRecv(b, t, Spend(b.phase[t].w, elapsed))
    case Timeout(t) =>
      SetPhase(b, t, Idle(TimedOut)).(recvq := Without(b.recvq, t), sendq := Without(b.sendq, t))
    case Reset => b.(phase := Abort(b.phase), recvq := [], sendq := [], mails := [], sent := [], got := [])
  }

  // --- invariant -----------------------------------------------------------------------------------

  ghost predicate Ok(b: Box) {
    && |b.prio| == |b.phase| && |b.mails| <= b.size
    && b.sent == b.got + b.mails
    && Served(b.recvq, b.phase, |b.mails|, WaitsRecv, WillRecv)
    && Served(b.sendq, b.phase, b.size - |b.mails|, WaitsSend, WillSend)
  }

  ghost predicate MaySend(b: Box, t: int) { 1 <= t < |b.phase| && (b.phase[t].Idle? || b.phase[t].WokenSend?) }

  ghost predicate MayRecv(b: Box, t: int) { 1 <= t < |b.phase| && (b.phase[t].Idle? || b.phase[t].WokenRecv?) }

  lemma WakeReceiverOk(b: Box)
    requires |b.prio| == |b.phase| && 0 < |b.mails| <= b.size && b.sent == b.got + b.mails
    requires Served(b.recvq, b.phase, |b.mails| - 1, WaitsRecv, WillRecv)
    requires Served(b.sendq, b.phase, b.size - |b.mails|, WaitsSend, WillSend)
    ensures forall i :: 0 <= i < |b.recvq| ==> 0 <= b.recvq[i] < |b.phase| && b.phase[b.recvq[i]].WaitRecv?
    ensures Ok(WakeReceiver(b))
  {
    forall i | 0 <= i < |b.recvq| ensures 0 <= b.recvq[i] < |b.phase| && b.phase[b.recvq[i]].WaitRecv? {
      assert b.recvq[i] in b.recvq;
    }
    if b.recvq != [] {
      var t := b.recvq[0];
      var h := WokenRecv(b.phase[t].w);
      ServedWake(b.recvq, b.phase, |b.mails| - 1, h, WaitsRecv, WillRecv);
      ServedRun(b.sendq, b.phase, b.size - |b.mails|, b.size - |b.mails|, t, h, WaitsSend, WillSend);
    }
  }

  lemma WakeSenderOk(b: Box)
    requires |b.prio| == |b.phase| && |b.mails| < b.size && b.sent == b.got + b.mails
    requires Served(b.recvq, b.phase, |b.mails|, WaitsRecv, WillRecv)
    requires Served(b.sendq, b.phase, b.size - |b.mails| - 1, WaitsSend, WillSend)
    ensures forall i :: 0 <= i < |b.sendq| ==> 0 <= b.sendq[i] < |b.phase| && b.phase[b.sendq[i]].WaitSend?
    ensures Ok(WakeSender(b))
  {
    forall i | 0 <= i < |b.sendq| ensures 0 <= b.sendq[i] < |b.phase| && b.phase[b.sendq[i]].WaitSend? {
      assert b.sendq[i] in b.sendq;
    }
    if b.sendq != [] {
      var t := b.sendq[0];
      var h := WokenSend(b.phase[t].mail, b.phase[t].w);
      ServedWake(b.sendq, b.phase, b.size - |b.mails| - 1, h, WaitsSend, WillSend);
      ServedRun(b.recvq, b.phase, |b.mails|, |b.mails|, t, h, WaitsRecv, WillRecv);
    }
  }

  lemma TrySendOk(b: Box, t: int, mail: int, w: Wait)
    requires Ok(b) && MaySend(b, t)
    ensures Ok(TrySend(b, t, mail, w))
  {
    var free := b.size - |b.mails|;
    if free > 0 {
      var h := Idle(Sent);
      ServedRun(b.recvq, b.phase, |b.mails|, |b.mails|, t, h, WaitsRecv, WillRecv);
      ServedRun(b.sendq, b.phase, free, free - 1, t, h, WaitsSend, WillSend);
      WakeReceiverOk(SetPhase(b, t, h).(mails := b.mails + [mail], sent := b.sent + [mail]));
    } else if w.Not? {
      ServedRun(b.recvq, b.phase, |b.mails|, |b.mails|, t, Idle(Full), WaitsRecv, WillRecv);
      ServedNothing(b.sendq, b.phase, t, Idle(Full), WaitsSend, WillSend);
    } else {
      ServedRun(b.recvq, b.phase, |b.mails|, |b.mails|, t, WaitSend(mail, w), WaitsRecv, WillRecv);
      ServedWait(b.sendq, b.phase, b.prio, b.byPrio, t, WaitSend(mail, w), WaitsSend, WillSend);
    }
  }

  lemma TryRecvOk(b: Box, t: int, w: Wait)
    requires Ok(b) && MayRecv(b, t)
    ensures Ok(TryRecv(b, t, w))
  {
    var free := b.size - |b.mails|;
    if b.mails != [] {
      var h := Idle(Got(b.mails[0]));
      ServedRun(b.recvq, b.phase, |b.mails|, |b.mails| - 1, t, h, WaitsRecv, WillRecv);
      ServedRun(b.sendq, b.phase, free, free, t, h, WaitsSend, WillSend);
      WakeSenderOk(SetPhase(b, t, h).(mails := b.mails[1..], got := b.got + [b.mails[0]]));
    } else if w.Not? {
      ServedNothing(b.recvq, b.phase, t, Idle(TimedOut), WaitsRecv, WillRecv);
      ServedRun(b.sendq, b.phase, free, free, t, Idle(TimedOut), WaitsSend, WillSend);
    } else {
      ServedWait(b.recvq, b.phase, b.prio, b.byPrio, t, WaitRecv(w), WaitsRecv, WillRecv);
      ServedRun(b.sendq, b.phase, free, free, t, WaitRecv(w), WaitsSend, WillSend);
    }
  }

  lemma TimeoutOk(b: Box, t: int)
    requires Ok(b) && Enabled(b, Timeout(t))
    ensures Ok(Step(b, Timeout(t)))
  {
    ServedLeave(b.recvq, b.phase, |b.mails|, t, Idle(TimedOut), WaitsRecv, WillRecv);
    ServedLeave(b.sendq, b.phase, b.size - |b.mails|, t, Idle(TimedOut), WaitsSend, WillSend);
  }

  // Every step of every thread keeps the invariant.
  lemma StepOk(b: Box, e: Event)
    requires Ok(b) && Enabled(b, e)
    ensures Ok(Step(b, e))
  {
    match e
    case Send(t, mail, w) => TrySendOk(b, t, mail, w);
    case SendAgain(t, elapsed) => TrySendOk(b, t, b.phase[t].mail, Spend(b.phase[t].w, elapsed));
    case Recv(t, w) => TryRecvOk(b, t, w);
    case RecvAgain(t, elapsed) => TryRecvOk(b, t, Spend(b.phase[t].w, elapsed));
    case Timeout(t) => TimeoutOk(b, t);
    case Reset =>
  }

  // --- runs ----------------------------------------------------------------------------------------

  ghost predicate Initial(b: Box) {
    && |b.prio| == |b.phase| && b.mails == b.sent == b.got == [] && b.recvq == b.sendq == []
    && forall i :: 0 <= i < |b.phase| ==> b.phase[i].Idle?
  }

  ghost predicate Run(states: seq<Box>, events: seq<Event>) {
    && |states| == |events| + 1 && Initial(states[0])
    && forall i :: 0 <= i < |events| ==> Follows(states[i], events[i], states[i + 1])
  }

  ghost predicate Follows(b: Box, e: Event, b': Box) { Enabled(b, e) && (Ok(b) ==> b' == Step(b, e)) }

  lemma {:induction false} RunOk(states: seq<Box>, events: seq<Event>, i: nat)
    requires Run(states, events) && i < |states|
    ensures Ok(states[i])
  {
    if i > 0 {
      RunOk(states, events, i - 1);
      assert Follows(states[i - 1], events[i - 1], states[i]);
      StepOk(states[i - 1], events[i - 1]);
    }
  }

  // Nothing is stranded: at any point of any run, once every woken thread has run, a queued receiver
  // means an empty box and a queued sender a full one.  And mail is received in the order sent.
  lemma NothingStranded(states: seq<Box>, events: seq<Event>, i: nat)
    requires Run(states, events) && i < |states|
    ensures var b := states[i];
      && b.sent == b.got + b.mails
      && ((forall x :: 0 <= x < |b.phase| ==> !WillRecv(b.phase[x])) && b.recvq != [] ==> b.mails == [])
      && ((forall x :: 0 <= x < |b.phase| ==> !WillSend(b.phase[x])) && b.sendq != [] ==> |b.mails| == b.size)
  {
    RunOk(states, events, i);
    var b := states[i];
    if forall x :: 0 <= x < |b.phase| ==> !WillRecv(b.phase[x]) { CountNone(b.phase, WillRecv); }
    if forall x :: 0 <= x < |b.phase| ==> !WillSend(b.phase[x]) { CountNone(b.phase, WillSend); }
  }

  // How a queued thread leaves its queue: at the head, by the send that stores one more mail or the
  // receive that fetches one; by its own timeout; or by a reset.
  ghost predicate LeavesWait(b: Box, e: Event, b': Box, t: int) {
    && 1 <= t < |b.phase| == |b'.phase| && WaitsAny(b.phase[t])
    && (|| b'.phase[t] == b.phase[t]
        || (b.phase[t].WaitRecv? && b'.phase[t] == WokenRecv(b.phase[t].w)
            && b.recvq != [] && b.recvq[0] == t && |b'.mails| == |b.mails| + 1)
        || (b.phase[t].WaitSend? && b'.phase[t] == WokenSend(b.phase[t].mail, b.phase[t].w)
            && b.sendq != [] && b.sendq[0] == t && |b'.mails| == |b.mails| - 1)
        || (b'.phase[t] == Idle(TimedOut) && e == Timeout(t))
        || (b'.phase[t] == Idle(Aborted) && e == Reset))
  }

  lemma TrySendLeaves(b: Box, e: Event, u: int, mail: int, w: Wait, t: int)
    requires Ok(b) && MaySend(b, u) && 1 <= t < |b.phase| && WaitsAny(b.phase[t])
    ensures LeavesWait(b, e, TrySend(b, u, mail, w), t)
  {
    if |b.mails| < b.size { QueuedUnder(b.recvq, b.phase, u, Idle(Sent), WaitsRecv); }
  }

  lemma TryRecvLeaves(b: Box, e: Event, u: int, w: Wait, t: int)
    requires Ok(b) && MayRecv(b, u) && 1 <= t < |b.phase| && WaitsAny(b.phase[t])
    ensures LeavesWait(b, e, TryRecv(b, u, w), t)
  {
    if b.mails != [] { QueuedUnder(b.sendq, b.phase, u, Idle(Got(b.mails[0])), WaitsSend); }
  }

  lemma WaitEnds(b: Box, e: Event, t: int)
    requires Ok(b) && Enabled(b, e) && 1 <= t < |b.phase| && WaitsAny(b.phase[t])
    ensures LeavesWait(b, e, Step(b, e), t)
  {
    match e
    case Send(u, mail, w) => TrySendLeaves(b, e, u, mail, w, t);
    case SendAgain(u, elapsed) => TrySendLeaves(b, e, u, b.phase[u].mail, Spend(b.phase[u].w, elapsed), t);
    case Recv(u, w) => TryRecvLeaves(b, e, u, w, t);
    case RecvAgain(u, elapsed) => TryRecvLeaves(b, e, u, Spend(b.phase[u].w, elapsed), t);
    case Timeout(u) =>
    case Reset =>
  }

  // --- the box as its users see it ------------------------------------------------------------------------

  // A plain bounded queue, with the mail that every sender last asked to send.
  datatype Plain = Plain(asked: map<int, int>, fifo: seq<int>)

  function Put(p: Plain, t: int, size: nat): Plain {
    if |p.fifo| < size && t in p.asked then p.(fifo := p.fifo + [p.asked[t]]) else p
  }

  function Get(p: Plain): Plain { if p.fifo == [] then p else p.(fifo := p.fifo[1..]) }

  // Driven by the events alone: a sender that runs puts the mail of its call in if there is room; a receiver
  // that runs takes the oldest; a reset empties.
  function PlainStep(p: Plain, e: Event, size: nat): Plain {
    match e
    case Send(t, mail, _) => Put(p.(asked := p.asked[t := mail]), t, size)
    case SendAgain(t, _) => Put(p, t, size)
    case Recv(_, _) => Get(p)
    case RecvAgain(_, _) => Get(p)
    case Timeout(_) => p
    case Reset => p.(fifo := [])
  }

  ghost predicate AsAsked(h: Phase, p: Plain, t: int) {
    h.WaitSend? || h.WokenSend? ==> t in p.asked && p.asked[t] == h.mail
  }

  ghost predicate Shows(b: Box, p: Plain) {
    b.mails == p.fifo && forall t :: 1 <= t < |b.phase| ==> AsAsked(b.phase[t], p, t)
  }

  // What the call of a thread that runs comes to, in terms of the plain queue before.
  ghost predicate Result(h: Phase, p: Plain, e: Event, size: nat) {
    match e
    case Send(t, mail, w) => SendResult(h, p, size, mail, w)
    case SendAgain(t, _) =>
      (h == Idle(Sent) <==> |p.fifo| < size) && (h != Idle(Sent) ==> h == Idle(Full) || h.WaitSend?)
    case Recv(t, w) => RecvResult(h, p) && (p.fifo == [] ==> h == if w.Not? then Idle(TimedOut) else WaitRecv(w))
    case RecvAgain(t, _) => RecvResult(h, p)
    case _ => true
  }

  ghost predicate SendResult(h: Phase, p: Plain, size: nat, mail: int, w: Wait) {
    h == if |p.fifo| < size then Idle(Sent) else if w.Not? then Idle(Full) else WaitSend(mail, w)
  }

  ghost predicate RecvResult(h: Phase, p: Plain) {
    if p.fifo != [] then h == Idle(Got(p.fifo[0])) else h == Idle(TimedOut) || h.WaitRecv?
  }

  lemma TrySendFollows(b: Box, t: int, mail: int, w: Wait, p: Plain)
    requires Ok(b) && MaySend(b, t) && Shows(b, p) && t in p.asked && p.asked[t] == mail
    ensures var b' := TrySend(b, t, mail, w);
      Shows(b', Put(p, t, b.size)) && |b'.phase| == |b.phase| && SendResult(b'.phase[t], p, b.size, mail, w)
  {
    if |b.mails| < b.size { QueuedUnder(b.recvq, b.phase, t, Idle(Sent), WaitsRecv); }
    var b', p' := TrySend(b, t, mail, w), Put(p, t, b.size);
    forall u | 1 <= u < |b'.phase| ensures AsAsked(b'.phase[u], p', u) { assert AsAsked(b.phase[u], p, u); }
  }

  lemma TryRecvFollows(b: Box, t: int, w: Wait, p: Plain)
    requires Ok(b) && MayRecv(b, t) && Shows(b, p)
    ensures var b' := TryRecv(b, t, w);
      && Shows(b', Get(p)) && |b'.phase| == |b.phase| && RecvResult(b'.phase[t], p)
      && (p.fifo == [] ==> b'.phase[t] == if w.Not? then Idle(TimedOut) else WaitRecv(w))
  {
    if b.mails != [] { QueuedUnder(b.sendq, b.phase, t, Idle(Got(b.mails[0])), WaitsSend); }
    var b', p' := TryRecv(b, t, w), Get(p);
    forall u | 1 <= u < |b'.phase| ensures AsAsked(b'.phase[u], p', u) { assert AsAsked(b.phase[u], p, u); }
  }

  lemma AskFollows(b: Box, t: int, mail: int, p: Plain)
    requires 1 <= t < |b.phase| && b.phase[t].Idle? && Shows(b, p)
    ensures Shows(b, p.(asked := p.asked[t := mail]))
  {
    forall u | 1 <= u < |b.phase| ensures AsAsked(b.phase[u], p.(asked := p.asked[t := mail]), u) {
      assert AsAsked(b.phase[u], p, u);
    }
  }

  lemma OtherFollows(b: Box, e: Event, p: Plain)
    requires Ok(b) && Enabled(b, e) && Shows(b, p) && (e.Timeout? || e.Reset?)
    ensures Shows(Step(b, e), PlainStep(p, e, b.size))
  {
    var b', p' := Step(b, e), PlainStep(p, e, b.size);
    forall u | 1 <= u < |b'.phase| ensures AsAsked(b'.phase[u], p', u) { assert AsAsked(b.phase[u], p, u); }
  }

  lemma StepFollows(b: Box, e: Event, p: Plain)
    requires Ok(b) && Enabled(b, e) && Shows(b, p)
    ensures Shows(Step(b, e), PlainStep(p, e, b.size)) && Step(b, e).size == b.size
    ensures !e.Reset? ==> |Step(b, e).phase| == |b.phase| && Result(Step(b, e).phase[e.t], p, e, b.size)
  {
    match e
    case Send(t, mail, w) =>
      AskFollows(b, t, mail, p);
      TrySendFollows(b, t, mail, w, p.(asked := p.asked[t := mail]));
    case SendAgain(t, elapsed) =>
      assert AsAsked(b.phase[t], p, t);
      TrySendFollows(b, t, b.phase[t].mail, Spend(b.phase[t].w, elapsed), p);
    case Recv(t, w) => TryRecvFollows(b, t, w, p);
    case RecvAgain(t, elapsed) => TryRecvFollows(b, t, Spend(b.phase[t].w, elapsed), p);
    case _ => OtherFollows(b, e, p);
  }

  function PlainRun(p: Plain, events: seq<Event>, size: nat): Plain
    decreases |events|
  {
    if events == [] then p
    else PlainStep(PlainRun(p, events[..|events| - 1], size), events[|events| - 1], size)
  }

  const NOTHING := Plain(map[], [])

  // At every point of every run the box holds what the plain queue holds that the events so far make, and
  // the call that runs next ends as the plain queue says: a send is stored exactly if there is room, and a
  // receive gets the oldest mail exactly if there is one.
  lemma {:induction false} RunReplays(states: seq<Box>, events: seq<Event>, i: nat)
    requires Run(states, events) && i < |states|
    ensures Ok(states[i]) && states[i].size == states[0].size
    ensures Shows(states[i], PlainRun(NOTHING, events[..i], states[0].size))
    ensures i < |events| && !events[i].Reset? ==>
      && 1 <= events[i].t < |states[i + 1].phase|
      && Result(states[i + 1].phase[events[i].t], PlainRun(NOTHING, events[..i], states[0].size), events[i],
                states[0].size)
  {
    RunOk(states, events, i);
    if i > 0 {
      RunReplays(states, events, i - 1);
      assert Follows(states[i - 1], events[i - 1], states[i]);
      StepFollows(states[i - 1], events[i - 1], PlainRun(NOTHING, events[..i - 1], states[0].size));
      assert events[..i][..i - 1] == events[..i - 1];
    }
    if i < |events| {
      assert Follows(states[i], events[i], states[i + 1]);
      StepFollows(states[i], events[i], PlainRun(NOTHING, events[..i], states[0].size));
    }
  }

  // The mail that an event puts in, if the call that ran ended Sent, and the one that its call got.
  function In(e: Event, b': Box, asked: map<int, int>): seq<int> {
    if (e.Send? || e.SendAgain?) && 0 <= e.t < |b'.phase| && b'.phase[e.t] == Idle(Sent) && e.t in asked
    then [asked[e.t]] else []
  }

  function Out(e: Event, b': Box): seq<int> {
    if (e.Recv? || e.RecvAgain?) && 0 <= e.t < |b'.phase| && b'.phase[e.t].Idle? && b'.phase[e.t].last.Got?
    then [b'.phase[e.t].last.mail] else []
  }

  lemma Unite(q: seq<int>)
    ensures [] + q == q == q + [] && (q != [] ==> [q[0]] + q[1..] == q)
  {
  }

  lemma SendMails(b: Box, e: Event, p: Plain)
    requires Ok(b) && Enabled(b, e) && Shows(b, p) && (e.Send? || e.SendAgain?)
    ensures Step(b, e).mails == b.mails + In(e, Step(b, e), PlainStep(p, e, b.size).asked)
  {
    StepFollows(b, e, p);
    assert AsAsked(b.phase[e.t], p, e.t);
    Unite(b.mails);
  }

  lemma RecvMails(b: Box, e: Event, p: Plain)
    requires Ok(b) && Enabled(b, e) && Shows(b, p) && (e.Recv? || e.RecvAgain?)
    ensures Out(e, Step(b, e)) + Step(b, e).mails == b.mails
  {
    StepFollows(b, e, p);
    Unite(b.mails);
  }

  lemma StepMails(b: Box, e: Event, p: Plain)
    requires Ok(b) && Enabled(b, e) && Shows(b, p) && !e.Reset?
    ensures Out(e, Step(b, e)) + Step(b, e).mails == b.mails + In(e, Step(b, e), PlainStep(p, e, b.size).asked)
  {
    var b' := Step(b, e);
    Unite(b.mails);
    Unite(b'.mails);
    if e.Send? || e.SendAgain? { SendMails(b, e, p); } else if e.Recv? || e.RecvAgain? { RecvMails(b, e, p); }
  }

  // The mails of the calls that ended Sent, and the mails that calls got, among the first i events.
  ghost function Stored(states: seq<Box>, events: seq<Event>, i: nat): seq<int>
    requires i < |states| == |events| + 1
  {
    if i == 0 then []
    else
      Stored(states, events, i - 1) +
        In(events[i - 1], states[i], PlainRun(NOTHING, events[..i], states[0].size).asked)
  }

  ghost function Fetched(states: seq<Box>, events: seq<Event>, i: nat): seq<int>
    requires i < |states| == |events| + 1
  {
    if i == 0 then [] else Fetched(states, events, i - 1) + Out(events[i - 1], states[i])
  }

  lemma Regroup(got: seq<int>, out: seq<int>, mails: seq<int>, sent: seq<int>, more: seq<int>, mails': seq<int>)
    requires got + mails == sent && out + mails' == mails + more
    ensures (got + out) + mails' == sent + more
  {
    assert (got + out) + mails' == got + (out + mails');
    assert got + (mails + more) == (got + mails) + more;
  }

  lemma PlainNext(events: seq<Event>, i: nat, size: nat)
    requires 0 < i <= |events|
    ensures PlainRun(NOTHING, events[..i], size)
      == PlainStep(PlainRun(NOTHING, events[..i - 1], size), events[i - 1], size)
  {
    assert events[..i][..i - 1] == events[..i - 1];
  }

  lemma RunStep(states: seq<Box>, events: seq<Event>, i: nat, p: Plain)
    requires Run(states, events) && i < |events| && !events[i].Reset? && Ok(states[i]) && Shows(states[i], p)
    ensures Out(events[i], states[i + 1]) + states[i + 1].mails
      == states[i].mails + In(events[i], states[i + 1], PlainStep(p, events[i], states[i].size).asked)
  {
    assert Follows(states[i], events[i], states[i + 1]);
    StepMails(states[i], events[i], p);
  }

  // Without resets, in every run: what was got, followed by what is in the box, is what was sent, in the
  // order of sending.
  lemma {:induction false} InOrder(states: seq<Box>, events: seq<Event>, i: nat)
    requires Run(states, events) && i < |states| && forall k :: 0 <= k < i ==> !events[k].Reset?
    ensures Fetched(states, events, i) + states[i].mails == Stored(states, events, i)
  {
    if i > 0 {
      var b, e, p := states[i - 1], events[i - 1], PlainRun(NOTHING, events[..i - 1], states[0].size);
      InOrder(states, events, i - 1);
      RunReplays(states, events, i - 1);
      RunStep(states, events, i - 1, p);
      PlainNext(events, i, states[0].size);
      Regroup(Fetched(states, events, i - 1), Out(e, states[i]), b.mails, Stored(states, events, i - 1),
              In(e, states[i], PlainStep(p, e, b.size).asked), states[i].mails);
    }
  }
}
