// The reader/writer lock, updated in place.

module RwLock {
  import opened SortedList
  import opened WaitQueue
  import opened RwLockSpec

  class Lock {
    var refcount: int
    var readers: int            // rw_nwaitreaders
    var writers: int            // rw_nwaitwriters
    var readTokens: int         // the value of the semaphore in rw_condreaders
    var readQueue: seq<int>
    var writeTokens: int        // the value of the semaphore in rw_condwriters
    var writeQueue: seq<int>
    var phase: seq<Phase>       // of every thread

    ghost function View(): Rw
      reads this
    {
      Rw(refcount, readers, writers, readTokens, readQueue, writeTokens, writeQueue, phase)
    }

    ghost predicate Valid()
      reads this
    {
      Ok(View())
    }

    // pthread_rwlock_init
    constructor (threads: nat)
      ensures Valid() && View() == Fresh(threads)
    {
      refcount, readers, writers := 0, 0, 0;
      readTokens, readQueue, writeTokens, writeQueue := 0, [], 0, [];
      phase := seq(threads + 1, i => Out(None));
      FreshOk(threads);
    }

    // The loop head and the end of pthread_rwlock_rdlock and pthread_rwlock_timedrdlock
    method ReaderTry(t: int, timed: bool)
      requires 0 <= t < |phase|
      modifies this
      ensures View() == RwLockSpec.ReaderTry(old(View()), t, timed)
    {
      if refcount < 0 || writers > 0 {
        readers := readers + 1;
        phase := phase[t := ReadTake(timed)];
      } else {
        refcount := refcount + 1;
        phase := phase[t := Reading];
      }
    }

    // The loop head and the end of pthread_rwlock_wrlock and pthread_rwlock_timedwrlock
    method WriterTry(t: int, timed: bool)
      requires 0 <= t < |phase|
      modifies this
      ensures View() == RwLockSpec.WriterTry(old(View()), t, timed)
    {
      if refcount != 0 {
        writers := writers + 1;
        phase := phase[t := WriteTake(timed)];
      } else {
        refcount := -1;
        phase := phase[t := Writing];
      }
    }

    // The four ways to ask for the lock
    method Acquire(e: Event)
      requires Valid() && Enabled(View(), e) && (e.RdLock? || e.TryRdLock? || e.WrLock? || e.TryWrLock?)
      modifies this
      ensures Valid() && View() == Step(old(View()), e)
    {
      StepOk(View(), e);
      match e
      case RdLock(t, timed) => ReaderTry(t, timed);
      case TryRdLock(t) =>
        if refcount < 0 || writers > 0 { phase := phase[t := Out(Busy)]; } else { ReaderTry(t, false); }
      case WrLock(t, timed) => WriterTry(t, timed);
      case TryWrLock(t) =>
        if refcount != 0 { phase := phase[t := Out(Busy)]; } else { WriterTry(t, false); }
    }

    // The semaphore take inside _pthread_cond_timedwait
    method TakeToken(t: int, w: Wait)
      requires Valid() && Enabled(View(), RwLockSpec.TakeToken(t, w))
      modifies this
      ensures Valid() && View() == Step(old(View()), RwLockSpec.TakeToken(t, w))
    {
      StepOk(View(), RwLockSpec.TakeToken(t, w));
      var timed := phase[t].timed;
      if phase[t].ReadTake? {
        if readTokens > 0 {
          readTokens := readTokens - 1;
          phase := phase[t := ReadBack(timed, true)];
        } else if w.Not? {
          phase := phase[t := ReadBack(timed, false)];
        } else {
          readQueue := readQueue + [t];
          phase := phase[t := ReadWait(timed, w)];
        }
      } else {
        if writeTokens > 0 {
          writeTokens := writeTokens - 1;
          phase := phase[t := WriteBack(timed, true)];
        } else if w.Not? {
          phase := phase[t := WriteBack(timed, false)];
        } else {
          writeQueue := writeQueue + [t];
          phase := phase[t := WriteWait(timed, w)];
        }
      }
    }

    method Timeout(t: int)
      requires Valid() && Enabled(View(), RwLockSpec.Timeout(t))
      modifies this
      ensures Valid() && View() == Step(old(View()), RwLockSpec.Timeout(t))
    {
      TimeoutOk(View(), t);
      var timed := phase[t].timed;
      if phase[t].ReadWait? {
        readQueue := Without(readQueue, t);
        phase := phase[t := ReadBack(timed, false)];
      } else {
        writeQueue := Without(writeQueue, t);
        phase := phase[t := WriteBack(timed, false)];
      }
    }

    // Back under the mutex after the wait
    method Return(t: int)
      requires Valid() && Enabled(View(), RwLockSpec.Return(t))
      modifies this
      ensures Valid() && View() == Step(old(View()), RwLockSpec.Return(t))
    {
      ReturnOk(View(), t);
      var h := phase[t];
      if h.ReadBack? {
        readers := readers - 1;
        if h.woken { ReaderTry(t, h.timed); } else { phase := phase[t := Out(TimedOut)]; }
      } else {
        writers := writers - 1;
        if h.woken { WriterTry(t, h.timed); } else { phase := phase[t := Out(TimedOut)]; }
      }
    }

    // rt_sem_release on the readers' semaphore
    method ReleaseReader()
      requires forall i :: 0 <= i < |readQueue| ==> 0 <= readQueue[i] < |phase| && phase[readQueue[i]].ReadWait?
      modifies `readTokens, `readQueue, `phase
      ensures old(readQueue) == [] ==> readTokens == old(readTokens) + 1 && readQueue == [] && phase == old(phase)
      ensures old(readQueue) != [] ==>
        var t := old(readQueue)[0];
        && readTokens == old(readTokens) && readQueue == old(readQueue)[1..]
        && phase == old(phase)[t := ReadBack(old(phase)[t].timed, true)]
    {
      if readQueue != [] {
        var t := readQueue[0];
        readQueue := readQueue[1..];
        phase := phase[t := ReadBack(phase[t].timed, true)];
      } else {
        readTokens := readTokens + 1;
      }
    }

    // pthread_cond_broadcast on the readers: release until a token can be taken, and put it back.
    method Broadcast()
      requires Tokens(readTokens, readQueue, phase, QueuedRead)
      modifies `readTokens, `readQueue, `phase
      ensures View() == RwLockSpec.Broadcast(old(View()))
    {
      ghost var goal := WakeAll(phase, readQueue);
      while readTokens == 0
        invariant Tokens(readTokens, readQueue, phase, QueuedRead) && WakeAll(phase, readQueue) == goal
        invariant readTokens == old(readTokens) || (old(readTokens) == 0 && readTokens == 1)
        decreases 1 - readTokens, |readQueue|
      {
        WakeOne(phase, readQueue);
        ReleaseReader();
      }
      assert WakeAll(phase, []) == phase;
      readTokens := readTokens - 1;
      ReleaseReader();
    }

    // Waking the first of the queue is the beginning of waking all.
    static lemma WakeOne(phase: seq<Phase>, q: seq<int>)
      requires Queued(q, phase, QueuedRead)
      ensures forall i :: 0 <= i < |q| ==> 0 <= q[i] < |phase| && phase[q[i]].ReadWait?
      ensures q != [] ==>
        var phase' := phase[q[0] := ReadBack(phase[q[0]].timed, true)];
        Queued(q[1..], phase', QueuedRead) && WakeAll(phase', q[1..]) == WakeAll(phase, q)
    {
      forall i | 0 <= i < |q| ensures 0 <= q[i] < |phase| && phase[q[i]].ReadWait? { assert q[i] in q; }
      if q != [] { DequeueMembers(q); }
    }

    // pthread_cond_signal on the writers
    method Signal()
      requires forall i :: 0 <= i < |writeQueue| ==> 0 <= writeQueue[i] < |phase| && phase[writeQueue[i]].WriteWait?
      modifies this
      ensures View() == RwLockSpec.Signal(old(View()))
    {
      if writeQueue != [] {
        var t := writeQueue[0];
        writeQueue := writeQueue[1..];
        phase := phase[t := WriteBack(phase[t].timed, true)];
      } else {
        writeTokens := writeTokens + 1;
      }
    }

    // pthread_rwlock_unlock
    method Unlock(t: int)
      requires Valid() && Enabled(View(), RwLockSpec.Unlock(t))
      modifies this
      ensures Valid() && View() == Step(old(View()), RwLockSpec.Unlock(t))
    {
      UnlockOk(View(), t);
      QueuesValid(View(), t, Out(Unlocked));
      TokensStay(readTokens, readQueue, phase, QueuedRead, t, Out(Unlocked));
      if refcount > 0 {
        refcount := refcount - 1;
      } else if refcount == -1 {
        refcount := 0;
      }
      phase := phase[t := Out(Unlocked)];
      if writers > 0 {
        if refcount == 0 { Signal(); }
      } else if readers > 0 {
        Broadcast();
      }
    }
  }
}
