// The POSIX reader/writer lock, built on a mutex and on two semaphores used as condition variables.
// One step is one stretch of code under the mutex, or one semaphore operation outside it.

module RwLockSpec {
  import opened RingList
  import opened SortedList
  import opened WaitQueue

  datatype Outcome = None | Unlocked | Busy | TimedOut

  // A waiting call counts itself, leaves the mutex (Take), takes a token of the semaphore or queues for
  // one (Wait), and comes back to the mutex (Back), with or without a token.
  datatype Phase =
    | Out(last: Outcome) | Reading | Writing
    | ReadTake(timed: bool) | ReadWait(timed: bool, w: Wait) | ReadBack(timed: bool, woken: bool)
    | WriteTake(timed: bool) | WriteWait(timed: bool, w: Wait) | WriteBack(timed: bool, woken: bool)

  datatype Rw = Rw(refcount: int, readers: int, writers: int,
                   readTokens: int, readQueue: seq<int>, writeTokens: int, writeQueue: seq<int>,
                   phase: seq<Phase>)

  predicate Reads(h: Phase) { h.Reading? }
  predicate Writes(h: Phase) { h.Writing? }
  predicate AwaitsRead(h: Phase) { h.ReadTake? || h.ReadWait? || h.ReadBack? }
  predicate AwaitsWrite(h: Phase) { h.WriteTake? || h.WriteWait? || h.WriteBack? }
  predicate QueuedRead(h: Phase) { h.ReadWait? }
  predicate QueuedWrite(h: Phase) { h.WriteWait? }

  // --- invariant -----------------------------------------------------------------------------------

  ghost predicate Held(refcount: int, phase: seq<Phase>) {
    || (refcount == -1 && Count(phase, Writes) == 1 && Count(phase, Reads) == 0)
    || (refcount >= 0 && Count(phase, Writes) == 0 && Count(phase, Reads) == refcount)
  }

  ghost predicate Waiters(readers: int, writers: int, phase: seq<Phase>) {
    readers == Count(phase, AwaitsRead) && writers == Count(phase, AwaitsWrite)
  }

  ghost predicate Tokens(tokens: int, q: seq<int>, phase: seq<Phase>, queued: Phase -> bool) {
    0 <= tokens && Queued(q, phase, queued) && (tokens > 0 ==> q == [])
  }

  ghost predicate Ok(s: Rw) {
    && Held(s.refcount, s.phase) && Waiters(s.readers, s.writers, s.phase)
    && Tokens(s.readTokens, s.readQueue, s.phase, QueuedRead)
    && Tokens(s.writeTokens, s.writeQueue, s.phase, QueuedWrite)
  }

  // --- steps -----------------------------------------------------------------------------------------

  function SetPhase(s: Rw, t: int, h: Phase): Rw
    requires 0 <= t < |s.phase|
  {
    s.(phase := s.phase[t := h])
  }

  predicate ReaderMustWait(s: Rw) { s.refcount < 0 || s.writers > 0 }

  // The loop head of rdlock and timedrdlock
  function ReaderTry(s: Rw, t: int, timed: bool): Rw
    requires 0 <= t < |s.phase|
  {
    if ReaderMustWait(s) then SetPhase(s, t, ReadTake(timed)).(readers := s.readers + 1)
    else SetPhase(s, t, Reading).(refcount := s.refcount + 1)
  }

  // The loop head of wrlock and timedwrlock
  function WriterTry(s: Rw, t: int, timed: bool): Rw
    requires 0 <= t < |s.phase|
  {
    if s.refcount != 0 then SetPhase(s, t, WriteTake(timed)).(writers := s.writers + 1)
    else SetPhase(s, t, Writing).(refcount := -1)
  }

  // rt_sem_take by a waiting reader or writer
  function ReadToken(s: Rw, t: int, w: Wait): Rw
    requires 0 <= t < |s.phase| && s.phase[t].ReadTake?
  {
    var timed := s.phase[t].timed;
    if s.readTokens > 0 then SetPhase(s, t, ReadBack(timed, true)).(readTokens := s.readTokens - 1)
    else if w.Not? then SetPhase(s, t, ReadBack(timed, false))
    else SetPhase(s, t, ReadWait(timed, w)).(readQueue := s.readQueue + [t])
  }

  function WriteToken(s: Rw, t: int, w: Wait): Rw
    requires 0 <= t < |s.phase| && s.phase[t].WriteTake?
  {
    var timed := s.phase[t].timed;
    if s.writeTokens > 0 then SetPhase(s, t, WriteBack(timed, true)).(writeTokens := s.writeTokens - 1)
    else if w.Not? then SetPhase(s, t, WriteBack(timed, false))
    else SetPhase(s, t, WriteWait(timed, w)).(writeQueue := s.writeQueue + [t])
  }

  // rt_sem_release on the writers' semaphore (pthread_cond_signal)
  function Signal(s: Rw): Rw
    requires forall i :: 0 <= i < |s.writeQueue| ==>
      0 <= s.writeQueue[i] < |s.phase| && s.phase[s.writeQueue[i]].WriteWait?
  {
    if s.writeQueue == [] then s.(writeTokens := s.writeTokens + 1)
    else
      var t := s.writeQueue[0];
      SetPhase(s, t, WriteBack(s.phase[t].timed, true)).(writeQueue := s.writeQueue[1..])
  }

  // pthread_cond_broadcast on the readers' semaphore: everyone queued is woken, and a token is left.
  function WakeAll(phase: seq<Phase>, q: seq<int>): (r: seq<Phase>)
    requires forall i :: 0 <= i < |q| ==> 0 <= q[i] < |phase|
    ensures |r| == |phase|
    ensures forall x :: 0 <= x < |phase| ==>
      r[x] == if x in q && phase[x].ReadWait? then ReadBack(phase[x].timed, true) else phase[x]
  {
    seq(|phase|, x requires 0 <= x < |phase| =>
      if x in q && phase[x].ReadWait? then ReadBack(phase[x].timed, true) else phase[x])
  }

  function Broadcast(s: Rw): Rw
    requires forall i :: 0 <= i < |s.readQueue| ==> 0 <= s.readQueue[i] < |s.phase|
  {
    s.(phase := WakeAll(s.phase, s.readQueue), readQueue := [],
       readTokens := if s.readTokens > 0 then s.readTokens else 1)
  }

  ghost function DoUnlock(s: Rw, t: int): Rw
    requires Ok(s) && 1 <= t < |s.phase| && (s.phase[t].Reading? || s.phase[t].Writing?)
  {
    QueuesValid(s, t, Out(Unlocked));
    var refcount := if s.refcount > 0 then s.refcount - 1 else if s.refcount == -1 then 0 else s.refcount;
    var s1 := SetPhase(s, t, Out(Unlocked)).(refcount := refcount);
    if s1.writers > 0 then (if refcount == 0 then Signal(s1) else s1)
    else if s1.readers > 0 then Broadcast(s1)
    else s1
  }

  datatype Event =
    | RdLock(t: int, timed: bool) | TryRdLock(t: int) | WrLock(t: int, timed: bool) | TryWrLock(t: int)
    | TakeToken(t: int, w: Wait) | Timeout(t: int) | Return(t: int) | Unlock(t: int)

  ghost predicate Enabled(s: Rw, e: Event) {
    1 <= e.t < |s.phase| &&
    var h := s.phase[e.t];
    match e
    case TakeToken(t, w) => (h.ReadTake? || h.WriteTake?) && Lasting(w) && (w.Forever? <==> !h.timed)
    case Timeout(t) => (h.ReadWait? || h.WriteWait?) && h.w.Ticks?
    case Return(t) => h.ReadBack? || h.WriteBack?
    case Unlock(t) => h.Reading? || h.Writing?
    case _ => h.Out?
  }

  ghost function DoReturn(s: Rw, t: int): Rw
    requires 1 <= t < |s.phase| && (s.phase[t].ReadBack? || s.phase[t].WriteBack?)
  {
    var h := s.phase[t];
    if h.ReadBack? then
      var s1 := s.(readers := s.readers - 1);
      if h.woken then ReaderTry(s1, t, h.timed) else SetPhase(s1, t, Out(TimedOut))
    else
      var s1 := s.(writers := s.writers - 1);
      if h.woken then WriterTry(s1, t, h.timed) else SetPhase(s1, t, Out(TimedOut))
  }

  ghost function DoTimeout(s: Rw, t: int): Rw
    requires 1 <= t < |s.phase| && (s.phase[t].ReadWait? || s.phase[t].WriteWait?)
  {
    var h := s.phase[t];
    if h.ReadWait? then SetPhase(s, t, ReadBack(h.timed, false)).(readQueue := Without(s.readQueue, t))
    else SetPhase(s, t, WriteBack(h.timed, false)).(writeQueue := Without(s.writeQueue, t))
  }

  ghost function Step(s: Rw, e: Event): Rw
    requires Ok(s) && Enabled(s, e)
  {
    match e
    case RdLock(t, timed) => ReaderTry(s, t, timed)
    case TryRdLock(t) => if ReaderMustWait(s) then SetPhase(s, t, Out(Busy)) else ReaderTry(s, t, false)
    case WrLock(t, timed) => WriterTry(s, t, timed)
    case TryWrLock(t) => if s.refcount != 0 then SetPhase(s, t, Out(Busy)) else WriterTry(s, t, false)
    case TakeToken(t, w) => if s.phase[t].ReadTake? then ReadToken(s, t, w) else WriteToken(s, t, w)
    case Timeout(t) => DoTimeout(s, t)
    case Return(t) => DoReturn(s, t)
    case Unlock(t) => DoUnlock(s, t)
  }

  // --- every step keeps the invariant ----------------------------------------------------------------

  function One(b: bool): int { if b then 1 else 0 }

  // One thread changes phase; the counters move with it.
  lemma CountsMove(s: Rw, t: int, h: Phase, refcount: int, readers: int, writers: int)
    requires Waiters(s.readers, s.writers, s.phase) && 1 <= t < |s.phase|
    requires readers == s.readers + One(AwaitsRead(h)) - One(AwaitsRead(s.phase[t]))
    requires writers == s.writers + One(AwaitsWrite(h)) - One(AwaitsWrite(s.phase[t]))
    ensures Waiters(readers, writers, s.phase[t := h])
    ensures Count(s.phase[t := h], Reads) == Count(s.phase, Reads) + One(Reads(h)) - One(Reads(s.phase[t]))
    ensures Count(s.phase[t := h], Writes) == Count(s.phase, Writes) + One(Writes(h)) - One(Writes(s.phase[t]))
  {
    CountUpdate(s.phase, AwaitsRead, t, h);
    CountUpdate(s.phase, AwaitsWrite, t, h);
    CountUpdate(s.phase, Reads, t, h);
    CountUpdate(s.phase, Writes, t, h);
  }

  lemma TokensStay(tokens: int, q: seq<int>, phase: seq<Phase>, queued: Phase -> bool, t: int, h: Phase)
    requires Tokens(tokens, q, phase, queued) && 1 <= t < |phase| && !queued(phase[t]) && !queued(h)
    ensures Tokens(tokens, q, phase[t := h], queued)
  {
    QueuedUnder(q, phase, t, h, queued);
  }

  lemma TokensWait(q: seq<int>, phase: seq<Phase>, queued: Phase -> bool, t: int, h: Phase)
    requires Tokens(0, q, phase, queued) && 1 <= t < |phase| && !queued(phase[t]) && queued(h)
    ensures Tokens(0, q + [t], phase[t := h], queued)
  {
    assert t !in q;
    assert q + [t] == Inserted(q, |q|, t);
    InsertedNoDup(q, |q|, t);
  }

  lemma TokensLeave(tokens: int, q: seq<int>, phase: seq<Phase>, queued: Phase -> bool, t: int, h: Phase)
    requires Tokens(tokens, q, phase, queued) && 1 <= t < |phase| && queued(phase[t]) && !queued(h)
    ensures Tokens(tokens, Without(q, t), phase[t := h], queued)
  {
    QueuedLeave(q, phase, t, h, queued);
  }

  // A step of a thread that touches neither semaphore.
  lemma PlainOk(s: Rw, t: int, h: Phase, refcount: int, readers: int, writers: int)
    requires Ok(s) && 1 <= t < |s.phase|
    requires !QueuedRead(s.phase[t]) && !QueuedWrite(s.phase[t]) && !QueuedRead(h) && !QueuedWrite(h)
    requires readers == s.readers + One(AwaitsRead(h)) - One(AwaitsRead(s.phase[t]))
    requires writers == s.writers + One(AwaitsWrite(h)) - One(AwaitsWrite(s.phase[t]))
    requires Held(refcount, s.phase[t := h])
    ensures Ok(SetPhase(s, t, h).(refcount := refcount, readers := readers, writers := writers))
  {
    CountsMove(s, t, h, refcount, readers, writers);
    TokensStay(s.readTokens, s.readQueue, s.phase, QueuedRead, t, h);
    TokensStay(s.writeTokens, s.writeQueue, s.phase, QueuedWrite, t, h);
  }

  lemma HeldMoves(s: Rw, t: int, h: Phase, refcount: int)
    requires Ok(s) && 1 <= t < |s.phase|
    requires
      || (refcount == s.refcount && Reads(h) == Reads(s.phase[t]) && Writes(h) == Writes(s.phase[t]))
      || (refcount == s.refcount + 1 && s.refcount >= 0 && Reads(h) && !Reads(s.phase[t]) && !Writes(s.phase[t]))
      || (refcount == -1 && s.refcount == 0 && Writes(h) && !Reads(s.phase[t]) && !Writes(s.phase[t]))
      || (refcount == s.refcount - 1 && s.refcount > 0 && !Reads(h) && !Writes(h) && Reads(s.phase[t]))
      || (refcount == 0 && s.refcount == -1 && !Reads(h) && !Writes(h) && Writes(s.phase[t]))
    ensures Held(refcount, s.phase[t := h])
  {
    CountUpdate(s.phase, Reads, t, h);
    CountUpdate(s.phase, Writes, t, h);
  }

  // From outside, or back from a wait: come in, or wait (again).
  lemma ReaderTryOk(s: Rw, t: int, timed: bool)
    requires Ok(s) && 1 <= t < |s.phase| && (s.phase[t].Out? || s.phase[t].ReadBack?)
    ensures var s1 := if s.phase[t].ReadBack? then s.(readers := s.readers - 1) else s; Ok(ReaderTry(s1, t, timed))
  {
    var back := One(s.phase[t].ReadBack?);
    if ReaderMustWait(s) {
      HeldMoves(s, t, ReadTake(timed), s.refcount);
      PlainOk(s, t, ReadTake(timed), s.refcount, s.readers - back + 1, s.writers);
    } else {
      HeldMoves(s, t, Reading, s.refcount + 1);
      PlainOk(s, t, Reading, s.refcount + 1, s.readers - back, s.writers);
    }
  }

  lemma WriterTryOk(s: Rw, t: int, timed: bool)
    requires Ok(s) && 1 <= t < |s.phase| && (s.phase[t].Out? || s.phase[t].WriteBack?)
    ensures var s1 := if s.phase[t].WriteBack? then s.(writers := s.writers - 1) else s; Ok(WriterTry(s1, t, timed))
  {
    var back := One(s.phase[t].WriteBack?);
    if s.refcount != 0 {
      HeldMoves(s, t, WriteTake(timed), s.refcount);
      PlainOk(s, t, WriteTake(timed), s.refcount, s.readers, s.writers - back + 1);
    } else {
      HeldMoves(s, t, Writing, -1);
      PlainOk(s, t, Writing, -1, s.readers, s.writers - back);
    }
  }

  lemma ReadTokenOk(s: Rw, t: int, w: Wait)
    requires Ok(s) && 1 <= t < |s.phase| && s.phase[t].ReadTake?
    ensures Ok(ReadToken(s, t, w))
  {
    var h := ReadToken(s, t, w).phase[t];
    HeldMoves(s, t, h, s.refcount);
    CountsMove(s, t, h, s.refcount, s.readers, s.writers);
    TokensStay(s.writeTokens, s.writeQueue, s.phase, QueuedWrite, t, h);
    if h.ReadWait? {
      TokensWait(s.readQueue, s.phase, QueuedRead, t, h);
    } else {
      TokensStay(s.readTokens, s.readQueue, s.phase, QueuedRead, t, h);
    }
  }

  lemma WriteTokenOk(s: Rw, t: int, w: Wait)
    requires Ok(s) && 1 <= t < |s.phase| && s.phase[t].WriteTake?
    ensures Ok(WriteToken(s, t, w))
  {
    var h := WriteToken(s, t, w).phase[t];
    HeldMoves(s, t, h, s.refcount);
    CountsMove(s, t, h, s.refcount, s.readers, s.writers);
    TokensStay(s.readTokens, s.readQueue, s.phase, QueuedRead, t, h);
    if h.WriteWait? {
      TokensWait(s.writeQueue, s.phase, QueuedWrite, t, h);
    } else {
      TokensStay(s.writeTokens, s.writeQueue, s.phase, QueuedWrite, t, h);
    }
  }

  lemma TimeoutOk(s: Rw, t: int)
    requires Ok(s) && Enabled(s, Timeout(t))
    ensures Ok(DoTimeout(s, t))
  {
    var h := DoTimeout(s, t).phase[t];
    HeldMoves(s, t, h, s.refcount);
    CountsMove(s, t, h, s.refcount, s.readers, s.writers);
    if s.phase[t].ReadWait? {
      TokensLeave(s.readTokens, s.readQueue, s.phase, QueuedRead, t, h);
      TokensStay(s.writeTokens, s.writeQueue, s.phase, QueuedWrite, t, h);
    } else {
      TokensLeave(s.writeTokens, s.writeQueue, s.phase, QueuedWrite, t, h);
      TokensStay(s.readTokens, s.readQueue, s.phase, QueuedRead, t, h);
    }
  }

  lemma ReturnOk(s: Rw, t: int)
    requires Ok(s) && Enabled(s, Return(t))
    ensures Ok(DoReturn(s, t))
  {
    var h := s.phase[t];
    if !h.woken {
      GiveUpOk(s, t);
    } else if h.ReadBack? {
      ReaderTryOk(s, t, h.timed);
    } else {
      WriterTryOk(s, t, h.timed);
    }
  }

  lemma GiveUpOk(s: Rw, t: int)
    requires Ok(s) && Enabled(s, Return(t)) && !s.phase[t].woken
    ensures Ok(DoReturn(s, t))
  {
    var h := s.phase[t];
    HeldMoves(s, t, Out(TimedOut), s.refcount);
    PlainOk(s, t, Out(TimedOut), s.refcount, s.readers - One(h.ReadBack?), s.writers - One(h.WriteBack?));
  }

  lemma QueuesValid(s: Rw, t: int, h: Phase)
    requires Ok(s) && 1 <= t < |s.phase| && !QueuedRead(s.phase[t]) && !QueuedWrite(s.phase[t])
    requires !QueuedRead(h) && !QueuedWrite(h)
    ensures forall i :: 0 <= i < |s.readQueue| ==> 0 <= s.readQueue[i] < |s.phase|
    ensures forall i :: 0 <= i < |s.writeQueue| ==>
      0 <= s.writeQueue[i] < |s.phase| && s.phase[t := h][s.writeQueue[i]].WriteWait?
  {
    QueuedUnder(s.readQueue, s.phase, t, h, QueuedRead);
    QueuedUnder(s.writeQueue, s.phase, t, h, QueuedWrite);
  }

  lemma SignalOk(s: Rw)
    requires Ok(s)
    ensures forall i :: 0 <= i < |s.writeQueue| ==>
      0 <= s.writeQueue[i] < |s.phase| && s.phase[s.writeQueue[i]].WriteWait?
    ensures Ok(Signal(s))
  {
    forall i | 0 <= i < |s.writeQueue| ensures 0 <= s.writeQueue[i] < |s.phase| && s.phase[s.writeQueue[i]].WriteWait? {
      assert s.writeQueue[i] in s.writeQueue;
    }
    if s.writeQueue != [] {
      var t := s.writeQueue[0];
      var h := WriteBack(s.phase[t].timed, true);
      HeldMoves(s, t, h, s.refcount);
      CountsMove(s, t, h, s.refcount, s.readers, s.writers);
      TokensStay(s.readTokens, s.readQueue, s.phase, QueuedRead, t, h);
      DequeueMembers(s.writeQueue);
    }
  }

  lemma BroadcastOk(s: Rw)
    requires Ok(s)
    ensures forall i :: 0 <= i < |s.readQueue| ==> 0 <= s.readQueue[i] < |s.phase|
    ensures Ok(Broadcast(s))
  {
    var phase := WakeAll(s.phase, s.readQueue);
    CountSame(s.phase, phase, Reads);
    CountSame(s.phase, phase, Writes);
    CountSame(s.phase, phase, AwaitsRead);
    CountSame(s.phase, phase, AwaitsWrite);
    assert Queued([], phase, QueuedRead);
    WakeAllOther(s.phase, s.readQueue, s.writeQueue);
  }

  lemma WakeAllOther(phase: seq<Phase>, q: seq<int>, other: seq<int>)
    requires Queued(q, phase, QueuedRead) && Queued(other, phase, QueuedWrite)
    ensures Queued(other, WakeAll(phase, q), QueuedWrite)
  {
  }

  lemma UnlockOk(s: Rw, t: int)
    requires Ok(s) && Enabled(s, Unlock(t))
    ensures Ok(DoUnlock(s, t))
  {
    HolderCounted(s, t);
    var h := Out(Unlocked);
    QueuesValid(s, t, h);
    var refcount := if s.refcount > 0 then s.refcount - 1 else if s.refcount == -1 then 0 else s.refcount;
    HeldMoves(s, t, h, refcount);
    PlainOk(s, t, h, refcount, s.readers, s.writers);
    var s1 := SetPhase(s, t, h).(refcount := refcount);
    if s1.writers > 0 { SignalOk(s1); } else if s1.readers > 0 { BroadcastOk(s1); }
  }

  lemma {:induction false} CountPositive(phase: seq<Phase>, p: Phase -> bool, t: int)
    requires 0 <= t < |phase| && p(phase[t])
    ensures Count(phase, p) >= 1
  {
    if t < |phase| - 1 { CountPositive(phase[..|phase| - 1], p, t); }
  }

  // The count tells which kind of holder t is.
  lemma HolderCounted(s: Rw, t: int)
    requires Ok(s) && 0 <= t < |s.phase|
    ensures s.phase[t].Reading? ==> s.refcount > 0
    ensures s.phase[t].Writing? ==> s.refcount == -1
  {
    if s.phase[t].Reading? { CountPositive(s.phase, Reads, t); }
    if s.phase[t].Writing? { CountPositive(s.phase, Writes, t); }
  }

  lemma StepOk(s: Rw, e: Event)
    requires Ok(s) && Enabled(s, e)
    ensures Ok(Step(s, e))
  {
    match e
    case RdLock(t, timed) => ReaderTryOk(s, t, timed);
    case TryRdLock(t) => TryRdOk(s, t);
    case WrLock(t, timed) => WriterTryOk(s, t, timed);
    case TryWrLock(t) => TryWrOk(s, t);
    case TakeToken(t, w) => if s.phase[t].ReadTake? { ReadTokenOk(s, t, w); } else { WriteTokenOk(s, t, w); }
    case Timeout(t) => TimeoutOk(s, t);
    case Return(t) => ReturnOk(s, t);
    case Unlock(t) => UnlockOk(s, t);
  }

  lemma TryRdOk(s: Rw, t: int)
    requires Ok(s) && Enabled(s, TryRdLock(t))
    ensures Ok(Step(s, TryRdLock(t)))
  {
    HeldMoves(s, t, Out(Busy), s.refcount);
    PlainOk(s, t, Out(Busy), s.refcount, s.readers, s.writers);
    ReaderTryOk(s, t, false);
  }

  lemma TryWrOk(s: Rw, t: int)
    requires Ok(s) && Enabled(s, TryWrLock(t))
    ensures Ok(Step(s, TryWrLock(t)))
  {
    HeldMoves(s, t, Out(Busy), s.refcount);
    PlainOk(s, t, Out(Busy), s.refcount, s.readers, s.writers);
    WriterTryOk(s, t, false);
  }

  // --- runs ----------------------------------------------------------------------------------------------

  function Fresh(threads: nat): Rw { Rw(0, 0, 0, 0, [], 0, [], seq(threads + 1, i => Out(None))) }

  lemma FreshOk(threads: nat)
    ensures Ok(Fresh(threads))
  {
    var s := Fresh(threads);
    CountNone(s.phase, Reads);
    CountNone(s.phase, Writes);
    CountNone(s.phase, AwaitsRead);
    CountNone(s.phase, AwaitsWrite);
  }

  ghost predicate Follows(s: Rw, e: Event, s': Rw) { Enabled(s, e) && (Ok(s) ==> s' == Step(s, e)) }

  ghost predicate Run(states: seq<Rw>, events: seq<Event>) {
    && |states| == |events| + 1 && (exists n: nat :: states[0] == Fresh(n))
    && forall i :: 0 <= i < |events| ==> Follows(states[i], events[i], states[i + 1])
  }

  lemma {:induction false} RunOk(states: seq<Rw>, events: seq<Event>, i: nat)
    requires Run(states, events) && i < |states|
    ensures Ok(states[i])
  {
    if i == 0 {
      var n: nat :| states[0] == Fresh(n);
      FreshOk(n);
    } else {
      RunOk(states, events, i - 1);
      assert Follows(states[i - 1], events[i - 1], states[i]);
      StepOk(states[i - 1], events[i - 1]);
    }
  }

  lemma {:induction false} CountPair(phase: seq<Phase>, p: Phase -> bool, x: int, y: int)
    requires 0 <= x < y < |phase| && p(phase[x]) && p(phase[y])
    ensures Count(phase, p) >= 2
  {
    var last := |phase| - 1;
    if y == last { CountPositive(phase[..last], p, x); } else { CountPair(phase[..last], p, x, y); }
  }

  // At every point of every run a writer is alone: there is no other writer, and no reader.
  lemma Exclusion(states: seq<Rw>, events: seq<Event>, i: nat, x: int, y: int)
    requires Run(states, events) && i < |states|
    requires 0 <= x < |states[i].phase| && 0 <= y < |states[i].phase| && x != y
    ensures states[i].phase[x].Writing? ==> !states[i].phase[y].Writing? && !states[i].phase[y].Reading?
  {
    RunOk(states, events, i);
    var s := states[i];
    HolderCounted(s, x);
    HolderCounted(s, y);
    if s.phase[x].Writing? && s.phase[y].Writing? {
      CountPair(s.phase, Writes, if x < y then x else y, if x < y then y else x);
    }
  }

  // A step lets at most one new reader in, and only while no writer holds the lock or waits for it.
  lemma NoReaderPastWriter(s: Rw, e: Event, t: int, u: int)
    requires Ok(s) && Enabled(s, e) && 0 <= t < |s.phase| && 0 <= u < |s.phase|
    requires t < |Step(s, e).phase| && !s.phase[t].Reading? && Step(s, e).phase[t].Reading?
    ensures e.t == t && !Writes(s.phase[u]) && !AwaitsWrite(s.phase[u])
  {
    AdmitsOne(s, e, t);
    HolderCounted(s, u);
    if AwaitsWrite(s.phase[u]) { CountPositive(s.phase, AwaitsWrite, u); }
  }

  lemma AdmitsOne(s: Rw, e: Event, t: int)
    requires Ok(s) && Enabled(s, e) && 0 <= t < |s.phase|
    requires t < |Step(s, e).phase| && !s.phase[t].Reading? && Step(s, e).phase[t].Reading?
    ensures e.t == t && s.refcount >= 0 && s.writers <= 0
  {
    if e.Unlock? { UnlockAdmitsNobody(s, e.t, t); }
  }

  lemma UnlockAdmitsNobody(s: Rw, t: int, x: int)
    requires Ok(s) && Enabled(s, Unlock(t)) && 0 <= x < |s.phase|
    ensures |DoUnlock(s, t).phase| == |s.phase|
    ensures DoUnlock(s, t).phase[x].Reading? ==> s.phase[x].Reading?
  {
    QueuesValid(s, t, Out(Unlocked));
  }

  // --- who comes in ----------------------------------------------------------------------------------------

  predicate Holds(h: Phase) { Reads(h) || Writes(h) }
  predicate BarsReader(h: Phase) { Writes(h) || AwaitsWrite(h) }

  ghost predicate Any(phase: seq<Phase>, p: Phase -> bool) { exists t :: 0 <= t < |phase| && p(phase[t]) }

  lemma CountAny(phase: seq<Phase>, p: Phase -> bool)
    ensures Count(phase, p) > 0 <==> Any(phase, p)
  {
    if t :| 0 <= t < |phase| && p(phase[t]) { CountPositive(phase, p, t); } else { CountNone(phase, p); }
  }

  lemma HeldAny(refcount: int, phase: seq<Phase>)
    requires Held(refcount, phase)
    ensures refcount != 0 <==> Any(phase, Holds)
    ensures refcount < 0 <==> Any(phase, Writes)
  {
    CountAny(phase, Reads);
    CountAny(phase, Writes);
    if t :| 0 <= t < |phase| && Reads(phase[t]) { assert Holds(phase[t]); }
    if t :| 0 <= t < |phase| && Writes(phase[t]) { assert Holds(phase[t]); }
  }

  lemma BarredAny(s: Rw)
    requires Ok(s)
    ensures ReaderMustWait(s) <==> Any(s.phase, BarsReader)
  {
    HeldAny(s.refcount, s.phase);
    CountAny(s.phase, AwaitsWrite);
    if t :| 0 <= t < |s.phase| && Writes(s.phase[t]) { assert BarsReader(s.phase[t]); }
    if t :| 0 <= t < |s.phase| && AwaitsWrite(s.phase[t]) { assert BarsReader(s.phase[t]); }
  }

  // What a call comes to under the mutex, from the phases of all threads: a reader comes in exactly if no
  // thread writes or waits to, a writer exactly if no thread reads or writes.
  ghost function Admitted(phase: seq<Phase>, e: Event): Phase
    requires 0 <= e.t < |phase| && !e.TakeToken? && !e.Timeout?
    requires e.Return? ==> phase[e.t].ReadBack? || phase[e.t].WriteBack?
  {
    match e
    case RdLock(t, timed) => if Any(phase, BarsReader) then ReadTake(timed) else Reading
    case TryRdLock(t) => if Any(phase, BarsReader) then Out(Busy) else Reading
    case WrLock(t, timed) => if Any(phase, Holds) then WriteTake(timed) else Writing
    case TryWrLock(t) => if Any(phase, Holds) then Out(Busy) else Writing
    case Return(t) =>
      if !phase[t].woken then Out(TimedOut)
      else if phase[t].ReadBack? then if Any(phase, BarsReader) then ReadTake(phase[t].timed) else Reading
      else if Any(phase, Holds) then WriteTake(phase[t].timed) else Writing
    case Unlock(t) => Out(Unlocked)
  }

  lemma UnlocksOwn(s: Rw, t: int)
    requires Ok(s) && Enabled(s, Unlock(t))
    ensures |DoUnlock(s, t).phase| == |s.phase| && DoUnlock(s, t).phase[t] == Out(Unlocked)
  {
    QueuesValid(s, t, Out(Unlocked));
    var phase := s.phase[t := Out(Unlocked)];
    if s.writeQueue != [] { assert phase[s.writeQueue[0]].WriteWait?; }
  }

  // In every run, for every call under the mutex.
  lemma AdmitsExactly(states: seq<Rw>, events: seq<Event>, i: nat)
    requires Run(states, events) && i < |events| && !events[i].TakeToken? && !events[i].Timeout?
    ensures Enabled(states[i], events[i]) && events[i].t < |states[i + 1].phase|
    ensures states[i + 1].phase[events[i].t] == Admitted(states[i].phase, events[i])
  {
    RunOk(states, events, i);
    var s, e := states[i], events[i];
    assert Follows(s, e, states[i + 1]);
    HeldAny(s.refcount, s.phase);
    BarredAny(s);
    if e.Unlock? { UnlocksOwn(s, e.t); }
  }

  // What an unlock does to a thread that is queued: the first writer is woken if nobody else holds the
  // lock; the readers, all of them, if no writer waits.
  ghost function AfterUnlock(s: Rw, t: int, x: int): Phase
    requires 0 <= t < |s.phase| && 0 <= x < |s.phase|
  {
    var h := s.phase[x];
    if h.WriteWait? && !Any(s.phase[t := Out(Unlocked)], Holds) && s.writeQueue != [] && s.writeQueue[0] == x
    then WriteBack(h.timed, true)
    else if h.ReadWait? && !Any(s.phase, AwaitsWrite) then ReadBack(h.timed, true)
    else h
  }

  lemma UnlockWakes(s: Rw, t: int, x: int)
    requires Ok(s) && Enabled(s, Unlock(t)) && 1 <= x < |s.phase| && x != t
    ensures |Step(s, Unlock(t)).phase| == |s.phase| && Step(s, Unlock(t)).phase[x] == AfterUnlock(s, t, x)
  {
    HolderCounted(s, t);
    var refcount := if s.refcount > 0 then s.refcount - 1 else 0;
    HeldMoves(s, t, Out(Unlocked), refcount);
    HeldAny(refcount, s.phase[t := Out(Unlocked)]);
    CountAny(s.phase, AwaitsWrite);
    CountAny(s.phase, AwaitsRead);
    QueuesValid(s, t, Out(Unlocked));
    if s.phase[x].WriteWait? { assert AwaitsWrite(s.phase[x]); }
    if s.phase[x].ReadWait? { assert AwaitsRead(s.phase[x]) && x in s.readQueue; }
    if s.writeQueue != [] { assert s.writeQueue[0] in s.writeQueue; }
  }

  // --- a reader left behind -------------------------------------------------------------------------------

  // One more step at the end of a run.
  lemma Extend(states: seq<Rw>, events: seq<Event>, e: Event) returns (states': seq<Rw>, events': seq<Event>)
    requires Run(states, events) && Ok(states[|events|]) && Enabled(states[|events|], e)
    ensures Run(states', events') && |events'| == |events| + 1
    ensures states'[|events'|] == Step(states[|events|], e) && Ok(states'[|events'|])
  {
    var s := states[|events|];
    StepOk(s, e);
    states', events' := states + [Step(s, e)], events + [e];
    forall i | 0 <= i < |events'| ensures Follows(states'[i], events'[i], states'[i + 1]) {
      if i < |events| { assert Follows(states[i], events[i], states[i + 1]); }
    }
    assert states'[0] == states[0];
  }

  lemma ReaderBehindWriter() returns (states: seq<Rw>, events: seq<Event>)
    ensures Run(states, events) && Ok(states[|events|])
    ensures states[|events|] ==
      Rw(1, 1, 1, 0, [3], 0, [2], [Out(None), Reading, WriteWait(true, Ticks(1)), ReadWait(false, Forever)])
  {
    var s0 := Fresh(3);
    FreshOk(3);
    states, events := [s0], [];
    assert s0.phase == [Out(None), Out(None), Out(None), Out(None)];
    states, events := Extend(states, events, RdLock(1, false));
    states, events := Extend(states, events, WrLock(2, true));
    states, events := Extend(states, events, TakeToken(2, Ticks(1)));
    states, events := Extend(states, events, RdLock(3, false));
    states, events := Extend(states, events, TakeToken(3, Forever));
    assert states[|events|].phase == [Out(None), Reading, WriteWait(true, Ticks(1)), ReadWait(false, Forever)];
  }

  // The counters are safe but not live.  Here the last waiting writer times out; before it comes
  // back, the last reader unlocks and signals the writers only.  The writer gives up, and the other
  // reader goes on waiting for a lock that is free.
  lemma StrandedReader() returns (states: seq<Rw>, events: seq<Event>)
    ensures Run(states, events)
    ensures var s := states[|events|];
      && s.refcount == 0 && s.writers == 0 && s.readTokens == 0 && s.readQueue == [3]
      && s.phase == [Out(None), Out(Unlocked), Out(TimedOut), ReadWait(false, Forever)] && Stranded(s)
  {
    states, events := ReaderBehindWriter();
    states, events := Extend(states, events, Timeout(2));
    assert states[|events|] ==
      Rw(1, 1, 1, 0, [3], 0, [], [Out(None), Reading, WriteBack(true, false), ReadWait(false, Forever)]);
    states, events := Extend(states, events, Unlock(1));
    assert states[|events|] ==
      Rw(0, 1, 1, 0, [3], 1, [], [Out(None), Out(Unlocked), WriteBack(true, false), ReadWait(false, Forever)]);
    states, events := Extend(states, events, Return(2));
  }

  // --- exactly when a reader is left behind ---------------------------------------------------------------

  predicate Asleep(h: Phase) { h.ReadTake? || h.ReadWait? }
  predicate Woken(h: Phase) { h.ReadBack? && h.woken }

  ghost predicate Some(phase: seq<Phase>, p: Phase -> bool) { exists t :: 1 <= t < |phase| && p(phase[t]) }

  // The lock is free and no writer wants it; a reader sleeps and nothing is on its way to wake it.
  ghost predicate Stranded(s: Rw) {
    s.refcount == 0 && s.writers == 0 && s.readTokens == 0 && Some(s.phase, Asleep) && !Some(s.phase, Woken)
  }

  // The last writer gives up, finds the lock free, and wakes nobody.
  ghost predicate GivesUpAlone(s: Rw, e: Event)
    requires Enabled(s, e)
  {
    && e.Return? && s.phase[e.t].WriteBack? && !s.phase[e.t].woken
    && s.writers == 1 && s.refcount == 0 && s.readTokens == 0 && Some(s.phase, Asleep) && !Some(s.phase, Woken)
  }

  lemma SomeMove(phase: seq<Phase>, t: int, h: Phase, p: Phase -> bool)
    requires 1 <= t < |phase|
    ensures p(h) ==> Some(phase[t := h], p)
    ensures Some(phase, p) && (p(phase[t]) ==> p(h)) ==> Some(phase[t := h], p)
    ensures Some(phase[t := h], p) && !p(h) ==> Some(phase, p)
  {
    var phase' := phase[t := h];
    assert phase'[t] == h;
    if x :| 1 <= x < |phase| && x != t && p(phase[x]) { assert p(phase'[x]); }
    if x :| 1 <= x < |phase| && x != t && p(phase'[x]) { assert p(phase[x]); }
  }

  // Neither the lock nor the tokens change, nobody falls asleep and nobody woken comes back.
  lemma StaysUnstranded(s: Rw, s': Rw, t: int, h: Phase)
    requires !Stranded(s) && 1 <= t < |s.phase| && s'.phase == s.phase[t := h]
    requires s'.refcount == s.refcount && s'.writers == s.writers && s'.readTokens == s.readTokens
    requires (Asleep(h) ==> Asleep(s.phase[t])) && !Woken(s.phase[t]) && !Woken(h)
    ensures !Stranded(s')
  {
    SomeMove(s.phase, t, h, Asleep);
    SomeMove(s.phase, t, h, Woken);
    assert Asleep(s.phase[t]) ==> Some(s.phase, Asleep);
  }

  lemma TokenStrands(s: Rw, t: int, w: Wait)
    requires Ok(s) && Enabled(s, TakeToken(t, w)) && !Stranded(s)
    ensures !Stranded(Step(s, TakeToken(t, w)))
  {
    var s' := Step(s, TakeToken(t, w));
    if s.phase[t].WriteTake? {
      CountPositive(s.phase, AwaitsWrite, t);
    } else if s.readTokens > 0 {
      SomeMove(s.phase, t, s'.phase[t], Woken);
    } else {
      StaysUnstranded(s, s', t, s'.phase[t]);
    }
  }

  lemma TimeoutStrands(s: Rw, t: int)
    requires Ok(s) && Enabled(s, Timeout(t)) && !Stranded(s)
    ensures !Stranded(Step(s, Timeout(t)))
  {
    if s.phase[t].WriteWait? {
      CountPositive(s.phase, AwaitsWrite, t);
    } else {
      StaysUnstranded(s, Step(s, Timeout(t)), t, ReadBack(s.phase[t].timed, false));
    }
  }

  lemma ReturnStrands(s: Rw, t: int)
    requires Ok(s) && Enabled(s, Return(t)) && !Stranded(s)
    ensures Stranded(Step(s, Return(t))) <==> GivesUpAlone(s, Return(t))
  {
    var h := s.phase[t];
    var s' := Step(s, Return(t));
    if h.WriteBack? { CountPositive(s.phase, AwaitsWrite, t); }
    if !h.woken {
      SomeMove(s.phase, t, Out(TimedOut), Asleep);
      SomeMove(s.phase, t, Out(TimedOut), Woken);
      if h.ReadBack? { StaysUnstranded(s, s', t, Out(TimedOut)); }
    }
  }

  lemma UnlockStrands(s: Rw, t: int)
    requires Ok(s) && Enabled(s, Unlock(t))
    ensures !Stranded(Step(s, Unlock(t)))
  {
    QueuesValid(s, t, Out(Unlocked));
    SomeMove(s.phase, t, Out(Unlocked), Asleep);
    if s.readers == 0 { NobodyAsleep(s); }
  }

  lemma NobodyAsleep(s: Rw)
    requires Ok(s) && s.readers == 0
    ensures !Some(s.phase, Asleep)
  {
    if t :| 1 <= t < |s.phase| && Asleep(s.phase[t]) { CountPositive(s.phase, AwaitsRead, t); }
  }

  // A step strands a reader exactly if the last writer gives up alone.
  lemma StrandsExactly(s: Rw, e: Event)
    requires Ok(s) && Enabled(s, e) && !Stranded(s)
    ensures Stranded(Step(s, e)) <==> GivesUpAlone(s, e)
  {
    match e
    case TryRdLock(t) => if ReaderMustWait(s) { StaysUnstranded(s, Step(s, e), t, Out(Busy)); }
    case TryWrLock(t) => if s.refcount != 0 { StaysUnstranded(s, Step(s, e), t, Out(Busy)); }
    case TakeToken(t, w) => TokenStrands(s, t, w);
    case Timeout(t) => TimeoutStrands(s, t);
    case Return(t) => ReturnStrands(s, t);
    case Unlock(t) => UnlockStrands(s, t);
    case RdLock(t, timed) =>
    case WrLock(t, timed) =>
  }

  // --- without timed writers -----------------------------------------------------------------------------

  // A writer that waits without a time limit comes back only when it is woken.
  predicate Patient(h: Phase) {
    && (h.WriteTake? ==> !h.timed) && (h.WriteWait? ==> !h.timed && h.w.Forever?)
    && (h.WriteBack? ==> !h.timed && h.woken)
  }

  ghost predicate AllPatient(phase: seq<Phase>) { forall t :: 1 <= t < |phase| ==> Patient(phase[t]) }

  predicate Hurried(e: Event) { e.WrLock? && e.timed }

  lemma PatientMove(phase: seq<Phase>, t: int, h: Phase)
    requires AllPatient(phase) && 1 <= t < |phase| && Patient(h)
    ensures AllPatient(phase[t := h])
  {
  }

  lemma PatientUnlock(s: Rw, t: int)
    requires Ok(s) && Enabled(s, Unlock(t)) && AllPatient(s.phase)
    ensures AllPatient(DoUnlock(s, t).phase)
  {
    QueuesValid(s, t, Out(Unlocked));
    PatientMove(s.phase, t, Out(Unlocked));
    if s.writers > 0 && s.writeQueue != [] {
      var x := s.writeQueue[0];
      assert x in s.writeQueue;
      PatientMove(s.phase[t := Out(Unlocked)], x, WriteBack(false, true));
    }
  }

  lemma PatientStep(s: Rw, e: Event)
    requires Ok(s) && Enabled(s, e) && AllPatient(s.phase) && !Hurried(e)
    ensures AllPatient(Step(s, e).phase) && !GivesUpAlone(s, e)
  {
    assert Patient(s.phase[e.t]);
    if e.Unlock? {
      PatientUnlock(s, e.t);
    } else {
      PatientMove(s.phase, e.t, Step(s, e).phase[e.t]);
    }
  }

  // A run in which no writer sets a time limit strands no reader.
  lemma {:induction false} NobodyStranded(states: seq<Rw>, events: seq<Event>, i: nat)
    requires Run(states, events) && i < |states| && forall j :: 0 <= j < |events| ==> !Hurried(events[j])
    ensures AllPatient(states[i].phase) && !Stranded(states[i])
  {
    if i == 0 {
      var n: nat :| states[0] == Fresh(n);
    } else {
      NobodyStranded(states, events, i - 1);
      RunOk(states, events, i - 1);
      assert Follows(states[i - 1], events[i - 1], states[i]);
      PatientStep(states[i - 1], events[i - 1]);
      StrandsExactly(states[i - 1], events[i - 1]);
    }
  }

  // --- writers are never left behind ---------------------------------------------------------------------

  predicate WriterAsleep(h: Phase) { h.WriteTake? || h.WriteWait? }
  predicate WriterWoken(h: Phase) { h.WriteBack? && h.woken }

  // If the lock is free and a writer waits for it, a writer is on its way, or a token is.
  ghost predicate WriterCalled(s: Rw) {
    s.refcount == 0 && Some(s.phase, WriterAsleep) ==> s.writeTokens > 0 || Some(s.phase, WriterWoken)
  }

  // The lock and the tokens stay, nobody falls asleep and nobody woken comes back.
  lemma StaysCalled(s: Rw, s': Rw, t: int, h: Phase)
    requires WriterCalled(s) && 1 <= t < |s.phase| && s'.phase == s.phase[t := h]
    requires s'.refcount == s.refcount && s'.writeTokens == s.writeTokens
    requires (WriterAsleep(h) ==> WriterAsleep(s.phase[t])) && (WriterWoken(s.phase[t]) ==> WriterWoken(h))
    ensures WriterCalled(s')
  {
    SomeMove(s.phase, t, h, WriterAsleep);
    SomeMove(s.phase, t, h, WriterWoken);
    assert WriterAsleep(s.phase[t]) ==> Some(s.phase, WriterAsleep);
  }

  lemma TokenCalled(s: Rw, t: int, w: Wait)
    requires Ok(s) && Enabled(s, TakeToken(t, w)) && WriterCalled(s)
    ensures WriterCalled(Step(s, TakeToken(t, w)))
  {
    var s' := Step(s, TakeToken(t, w));
    var h := s'.phase[t];
    if WriterWoken(h) { SomeMove(s.phase, t, h, WriterWoken); } else { StaysCalled(s, s', t, h); }
  }

  lemma UnlockCalled(s: Rw, t: int)
    requires Ok(s) && Enabled(s, Unlock(t))
    ensures WriterCalled(Step(s, Unlock(t)))
  {
    HolderCounted(s, t);
    QueuesValid(s, t, Out(Unlocked));
    var phase := s.phase[t := Out(Unlocked)];
    SomeMove(s.phase, t, Out(Unlocked), WriterAsleep);
    if s.writers == 0 {
      NoWriterAsleep(s);
      var s' := Step(s, Unlock(t));
      assert forall x :: 1 <= x < |phase| ==> WriterAsleep(s'.phase[x]) == WriterAsleep(phase[x]);
    } else if s.writeQueue != [] {
      var x := s.writeQueue[0];
      assert x in s.writeQueue;
      SomeMove(phase, x, WriteBack(phase[x].timed, true), WriterWoken);
    }
  }

  lemma NoWriterAsleep(s: Rw)
    requires Ok(s) && s.writers == 0
    ensures !Some(s.phase, WriterAsleep)
  {
    if t :| 1 <= t < |s.phase| && WriterAsleep(s.phase[t]) { CountPositive(s.phase, AwaitsWrite, t); }
  }

  lemma StepCalled(s: Rw, e: Event)
    requires Ok(s) && Enabled(s, e) && WriterCalled(s)
    ensures WriterCalled(Step(s, e))
  {
    if e.Unlock? {
      UnlockCalled(s, e.t);
    } else if e.TakeToken? {
      TokenCalled(s, e.t, e.w);
    } else {
      var s' := Step(s, e);
      if s'.refcount == 0 { StaysCalled(s, s', e.t, s'.phase[e.t]); }
    }
  }

  // At every point of every run, if the lock is free and a writer is queued for it, a writer that was
  // woken is about to take it.
  lemma {:induction false} WriterOnItsWay(states: seq<Rw>, events: seq<Event>, i: nat)
    requires Run(states, events) && i < |states|
    ensures WriterCalled(states[i])
    ensures states[i].refcount == 0 && states[i].writeQueue != [] ==> Some(states[i].phase, WriterWoken)
  {
    if i == 0 {
      var n: nat :| states[0] == Fresh(n);
    } else {
      WriterOnItsWay(states, events, i - 1);
      RunOk(states, events, i - 1);
      assert Follows(states[i - 1], events[i - 1], states[i]);
      StepCalled(states[i - 1], events[i - 1]);
    }
    RunOk(states, events, i);
    var s := states[i];
    if s.writeQueue != [] {
      assert s.writeQueue[0] in s.writeQueue;
      assert WriterAsleep(s.phase[s.writeQueue[0]]);
    }
  }
}
