// The mailbox of the kernel: a ring buffer in an array, and two queues of waiting threads.

module Mailbox {
  import opened RingList
  import opened SortedList
  import opened WaitQueue
  import opened MailboxSpec

  // What a ring buffer of the given state holds, oldest first.
  ghost function Ring(pool: seq<int>, out: int, entry: int): (r: seq<int>)
    requires 0 <= out && 0 <= entry <= |pool| && (out < |pool| || (out == 0 && entry == 0))
    ensures |r| == entry
    ensures forall i {:trigger r[i]} :: 0 <= i < entry ==>
      r[i] == if out + i < |pool| then pool[out + i] else pool[out + i - |pool|]
  {
    seq(entry, i requires 0 <= i < entry => if out + i < |pool| then pool[out + i] else pool[out + i - |pool|])
  }

  // The next offset, as the code counts it.
  function Next(offset: int, size: int): int { if offset + 1 >= size then 0 else offset + 1 }

  lemma RingPut(pool: seq<int>, out: int, entry: int, at: int, v: int)
    requires 0 <= out < |pool| && 0 <= entry < |pool|
    requires at == if out + entry < |pool| then out + entry else out + entry - |pool|
    ensures Ring(pool[at := v], out, entry + 1) == Ring(pool, out, entry) + [v]
  {
  }

  lemma RingTake(pool: seq<int>, out: int, entry: int)
    requires 0 <= out < |pool| && 0 < entry <= |pool|
    ensures pool[out] == Ring(pool, out, entry)[0]
    ensures Ring(pool, Next(out, |pool|), entry - 1) == Ring(pool, out, entry)[1..]
  {
  }

  class MailBox {
    const pool: array<int>
    var entry: int
    var inOffset: int
    var outOffset: int
    var receivers: seq<int>
    var senders: seq<int>
    var phase: seq<Phase>     // of every thread
    const prio: seq<int>
    const byPrio: bool
    ghost var sent: seq<int>
    ghost var got: seq<int>

    // The write offset follows from the read offset and the count.
    ghost predicate Buffer()
      reads this, pool
    {
      && 0 <= entry <= pool.Length && 0 <= outOffset && 0 <= inOffset
      && (pool.Length == 0 ==> outOffset == 0 && inOffset == 0)
      && (pool.Length > 0 ==>
            && outOffset < pool.Length
            && inOffset == (if outOffset + entry < pool.Length then outOffset + entry
                            else outOffset + entry - pool.Length))
    }

    ghost function View(): Box
      requires Buffer()
      reads this, pool
    {
      Box(pool.Length, Ring(pool[..], outOffset, entry), receivers, senders, phase, prio, byPrio, sent, got)
    }

    ghost predicate Valid()
      reads this, pool
    {
      Buffer() && Ok(View())
    }

    constructor (size: nat, threads: nat, prio: seq<int>, byPrio: bool)
      requires |prio| == threads + 1
      ensures Valid() && fresh(pool) && Initial(View()) && View().size == size && View().prio == prio
    {
      pool := new int[size];
      entry, inOffset, outOffset := 0, 0, 0;
      receivers, senders := [], [];
      phase := seq(threads + 1, i => Idle(None));
      this.prio, this.byPrio := prio, byPrio;
      sent, got := [], [];
    }

    method Put(mail: int)
      requires Buffer() && entry < pool.Length
      modifies pool, `entry, `inOffset, `sent
      ensures Buffer() && View() == old(View()).(mails := old(View()).mails + [mail], sent := old(sent) + [mail])
    {
      RingPut(pool[..], outOffset, entry, inOffset, mail);
      pool[inOffset] := mail;
      inOffset := inOffset + 1;
      if inOffset >= pool.Length { inOffset := 0; }
      entry := entry + 1;
      sent := sent + [mail];
    }

    method Take() returns (mail: int)
      requires Buffer() && entry > 0
      modifies `entry, `outOffset, `got
      ensures Buffer() && mail == old(View()).mails[0]
      ensures View() == old(View()).(mails := old(View()).mails[1..], got := old(got) + [mail])
    {
      RingTake(pool[..], outOffset, entry);
      mail := pool[outOffset];
      outOffset := outOffset + 1;
      if outOffset >= pool.Length { outOffset := 0; }
      entry := entry - 1;
      got := got + [mail];
    }

    method WakeReceiver()
      requires Buffer()
      requires forall i :: 0 <= i < |receivers| ==> 0 <= receivers[i] < |phase| && phase[receivers[i]].WaitRecv?
      modifies `receivers, `phase
      ensures Buffer() && View() == MailboxSpec.WakeReceiver(old(View()))
    {
      if receivers != [] {
        var r := receivers[0];
        receivers := receivers[1..];
        phase := phase[r := WokenRecv(phase[r].w)];
      }
    }

    method WakeSender()
      requires Buffer()
      requires forall i :: 0 <= i < |senders| ==> 0 <= senders[i] < |phase| && phase[senders[i]].WaitSend?
      modifies `senders, `phase
      ensures Buffer() && View() == MailboxSpec.WakeSender(old(View()))
    {
      if senders != [] {
        var s := senders[0];
        senders := senders[1..];
        phase := phase[s := WokenSend(phase[s].mail, phase[s].w)];
      }
    }

    // The loop head of rt_mb_send_wait and what follows it, up to the next wait.
    method TrySend(t: int, mail: int, w: Wait)
      requires Valid() && MaySend(View(), t)
      modifies this, pool
      ensures Valid() && View() == MailboxSpec.TrySend(old(View()), t, mail, w)
    {
      TrySendOk(View(), t, mail, w);
      if entry == pool.Length {
        if w.Not? {
          phase := phase[t := Idle(Full)];
        } else {
          senders := Enqueue(senders, prio, t, byPrio);
          phase := phase[t := WaitSend(mail, w)];
        }
        return;
      }
      QueuedUnder(receivers, phase, t, Idle(Sent), WaitsRecv);
      Put(mail);
      phase := phase[t := Idle(Sent)];
      WakeReceiver();
    }

    // The loop head of rt_mb_recv and what follows it, up to the next wait.
    method TryRecv(t: int, w: Wait)
      requires Valid() && MayRecv(View(), t)
      modifies this
      ensures Valid() && View() == MailboxSpec.TryRecv(old(View()), t, w)
    {
      TryRecvOk(View(), t, w);
      if entry == 0 {
        if w.Not? {
          phase := phase[t := Idle(TimedOut)];
        } else {
          receivers := Enqueue(receivers, prio, t, byPrio);
          phase := phase[t := WaitRecv(w)];
        }
        return;
      }
      QueuedUnder(senders, phase, t, Idle(Got(View().mails[0])), WaitsSend);
      var mail := Take();
      phase := phase[t := Idle(Got(mail))];
      WakeSender();
    }

    // A waiting thread's timer fires (rt_thread_timeout).
    method Timeout(t: int)
      requires Valid() && Enabled(View(), MailboxSpec.Timeout(t))
      modifies this
      ensures Valid() && View() == Step(old(View()), MailboxSpec.Timeout(t))
    {
      TimeoutOk(View(), t);
      phase := phase[t := Idle(TimedOut)];
      receivers := Without(receivers, t);
      senders := Without(senders, t);
    }

    // rt_ipc_list_resume_all on one queue: every waiting thread fails with an error.
    method ResumeAll(q: seq<int>, ghost waits: Phase -> bool) returns (r: seq<Phase>)
      requires Queued(q, phase, waits)
      ensures |r| == |phase|
      ensures forall x :: 0 <= x < |r| ==> r[x] == if x in q then Idle(Aborted) else phase[x]
    {
      r := phase;
      for i := 0 to |q|
        invariant |r| == |phase|
        invariant forall x :: 0 <= x < |r| ==> r[x] == if x in q[..i] then Idle(Aborted) else phase[x]
      {
        assert q[..i + 1] == q[..i] + [q[i]];
        r := r[q[i] := Idle(Aborted)];
      }
      assert q[..|q|] == q;
    }

    // rt_mb_control with RT_IPC_CMD_RESET
    method Reset()
      requires Valid()
      modifies this
      ensures Valid() && View() == Step(old(View()), MailboxSpec.Reset)
    {
      StepOk(View(), MailboxSpec.Reset);
      ghost var was := phase;
      var recvAborted := ResumeAll(receivers, WaitsRecv);
      QueuedElsewhere(senders, was, recvAborted, receivers);
      phase := recvAborted;
      receivers := [];
      var allAborted := ResumeAll(senders, WaitsSend);
      phase := allAborted;
      senders := [];
      assert phase == Abort(was);
      entry, inOffset, outOffset := 0, 0, 0;
      sent, got := [], [];
    }

    static lemma QueuedElsewhere(q: seq<int>, phase: seq<Phase>, phase': seq<Phase>, gone: seq<int>)
      requires Queued(q, phase, WaitsSend) && Queued(gone, phase, WaitsRecv) && |phase'| == |phase|
      requires forall x :: 0 <= x < |phase| ==> phase'[x] == if x in gone then Idle(Aborted) else phase[x]
      ensures Queued(q, phase', WaitsSend)
    {
    }
  }
}
