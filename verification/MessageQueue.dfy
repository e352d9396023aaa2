// The message queue of the kernel: nodes linked through their next fields, in one pool.

module MessageQueue {
  import opened RingList
  import opened SortedList
  import opened WaitQueue
  import opened MessageQueueSpec

  const NULL := -1

  function At(s: seq<int>, i: int): int
    requires 0 <= i <= |s|
  {
    if i < |s| then s[i] else NULL
  }

  ghost predicate LinkAt(next: seq<int>, s: seq<int>, i: int)
    requires 0 <= i < |s|
  {
    0 <= s[i] < |next| && next[s[i]] == At(s, i + 1)
  }

  // Following next from h visits s and ends.
  ghost predicate Chain(next: seq<int>, h: int, s: seq<int>) {
    h == At(s, 0) && forall i :: 0 <= i < |s| ==> LinkAt(next, s, i)
  }

  lemma ChainPop(next: seq<int>, h: int, s: seq<int>)
    requires Chain(next, h, s) && s != []
    ensures 0 <= h < |next| && Chain(next, next[h], s[1..])
  {
    assert LinkAt(next, s, 0);
    forall i | 0 <= i < |s| - 1 ensures LinkAt(next, s[1..], i) { assert LinkAt(next, s, i + 1); }
  }

  lemma ChainPush(next: seq<int>, h: int, s: seq<int>, n: int)
    requires Chain(next, h, s) && 0 <= n < |next| && n !in s
    ensures Chain(next[n := h], n, [n] + s)
  {
    var next', s' := next[n := h], [n] + s;
    forall i | 0 <= i <= |s| ensures LinkAt(next', s', i) {
      if i > 0 { assert LinkAt(next, s, i - 1) && s[i - 1] in s; }
    }
  }

  lemma ChainAppend(next: seq<int>, h: int, s: seq<int>, n: int)
    requires Chain(next, h, s) && 0 <= n < |next| && n !in s && NoDup(s) && s != []
    ensures 0 <= s[|s| - 1] < |next| && Chain(next[n := NULL][s[|s| - 1] := n], h, s + [n])
  {
    assert LinkAt(next, s, |s| - 1) && s[|s| - 1] in s;
    var next', s' := next[n := NULL][s[|s| - 1] := n], s + [n];
    forall i | 0 <= i <= |s| ensures LinkAt(next', s', i) {
      if i < |s| {
        assert LinkAt(next, s, i) && s[i] in s;
        Distinct(s, i, |s| - 1);
      }
    }
  }

  lemma ChainEmpty(next: seq<int>, h: int, s: seq<int>)
    requires Chain(next, h, s)
    ensures h == NULL <==> s == []
  {
    if s != [] { assert LinkAt(next, s, 0); }
  }

  lemma ChainOther(next: seq<int>, h: int, s: seq<int>, n: int, v: int)
    requires Chain(next, h, s) && 0 <= n < |next| && n !in s
    ensures Chain(next[n := v], h, s)
  {
    var next' := next[n := v];
    forall i | 0 <= i < |s| ensures LinkAt(next', s, i) { assert LinkAt(next, s, i) && s[i] in s; }
  }

  // Node n is in neither list.
  ghost predicate LooseNode(m: Mq, n: int) {
    && 0 <= n < |m.slots| && n !in m.queue && n !in m.free && NoDup(m.queue)
    && forall x :: x in m.queue ==> x !in m.free
  }

  lemma FirstStored(m: Mq)
    requires Ok(m) && m.queue != []
    ensures 0 <= m.queue[0] < |m.slots| && m.slots[m.queue[0]] == m.deque[0] && NoDup(m.queue)
  {
  }

  lemma Loose(m: Mq, t: int)
    requires Ok(m) && 1 <= t < |m.phase| && Holds(m.phase[t])
    ensures LooseNode(m, m.phase[t].node) && |m.slots[m.phase[t].node]| == m.msgSize
    ensures m.phase[t].Filling? ==> |m.phase[t].bytes| <= m.msgSize
  {
  }

  class Queue {
    const msgSize: nat
    const next: array<int>
    const slots: array<Bytes>
    var head: int
    var tail: int
    var freeHead: int
    var entry: int
    var receivers: seq<int>
    var phase: seq<Phase>
    const prio: seq<int>
    const byPrio: bool
    ghost var queue: seq<int>
    ghost var free: seq<int>
    ghost var where: seq<Place>
    ghost var deque: seq<Bytes>

    // Head and tail are null together, and entry counts the queue.
    ghost predicate Linked()
      reads this, next, slots
    {
      && next.Length == slots.Length == |where|
      && Chain(next[..], head, queue) && Chain(next[..], freeHead, free)
      && tail == (if queue == [] then NULL else queue[|queue| - 1])
      && entry == |queue|
    }

    ghost function View(): Mq
      reads this, slots
    {
      Mq(msgSize, queue, free, slots[..], where, receivers, phase, prio, byPrio, deque)
    }

    ghost predicate Valid()
      reads this, next, slots
    {
      Linked() && Ok(View())
    }

    // rt_mq_init
    constructor (msgSize: nat, msgs: nat, threads: nat, prio: seq<int>, byPrio: bool)
      requires |prio| == threads + 1
      ensures Valid() && fresh(next) && fresh(slots)
      ensures queue == [] && |free| == msgs == next.Length && View().msgSize == msgSize
    {
      this.msgSize, this.prio, this.byPrio := msgSize, prio, byPrio;
      next := new int[msgs];
      slots := new Bytes[msgs](i => seq(msgSize, j => 0));
      head, tail, freeHead, entry := NULL, NULL, NULL, 0;
      receivers, phase := [], seq(threads + 1, i => Idle(None));
      queue, free, deque := [], [], [];
      where := seq(msgs, i => InFree);
      new;
      FreeAll();
      assert Held(where, phase);
    }

    // The loop of rt_mq_init: every node goes to the free list.
    method FreeAll()
      requires free == [] && freeHead == NULL
      modifies next, `freeHead, `free
      ensures Chain(next[..], freeHead, free) && NoDup(free) && |free| == next.Length
      ensures forall n :: n in free <==> 0 <= n < next.Length
    {
      for i := 0 to next.Length
        invariant Chain(next[..], freeHead, free) && |free| == i && NoDup(free)
        invariant forall n :: n in free <==> 0 <= n < i
      {
        ChainPush(next[..], freeHead, free, i);
        assert [i] + free == Inserted(free, 0, i);
        InsertedNoDup(free, 0, i);
        next[i] := freeHead;
        freeHead := i;
        free := [i] + free;
      }
    }

    // rt_mq_send and rt_mq_urgent, first region: take a node off the free list.
    method Grab(t: int, bytes: Bytes, urgent: bool)
      requires Valid() && 1 <= t < |phase| && phase[t].Idle?
      modifies `freeHead, `phase, `free, `where
      ensures Valid() && View() == MessageQueueSpec.Grab(old(View()), t, bytes, urgent)
    {
      GrabOk(View(), t, bytes, urgent);
      ghost var goal := MessageQueueSpec.Grab(View(), t, bytes, urgent);
      ChainEmpty(next[..], freeHead, free);
      if |bytes| > msgSize {
        phase := phase[t := Idle(TooLong)];
      } else if freeHead == NULL {
        phase := phase[t := Idle(Full)];
      } else {
        var n := TakeFree();
        phase := phase[t := Filling(n, bytes, urgent)];
        where := where[n := With(t)];
      }
      assert View() == goal;
    }

    method TakeFree() returns (n: int)
      requires Linked() && free != []
      modifies `freeHead, `free
      ensures Linked() && n == old(free)[0] && free == old(free)[1..]
    {
      ChainPop(next[..], freeHead, free);
      n := freeHead;
      freeHead := next[n];
      free := free[1..];
    }

    // Link a node that is in no list at the end of the queue.
    method LinkTail(n: int)
      requires Linked() && NoDup(queue) && n !in queue && n !in free && 0 <= n < next.Length
      requires forall x :: x in queue ==> x !in free
      modifies next, `head, `tail, `entry, `queue
      ensures Linked() && queue == old(queue) + [n]
    {
      ChainEmpty(next[..], head, queue);
      ChainOther(next[..], freeHead, free, n, NULL);
      ghost var was := next[..];
      if queue != [] {
        ChainAppend(next[..], head, queue, n);
        assert queue[|queue| - 1] in queue;
        ChainOther(was[n := NULL], freeHead, free, queue[|queue| - 1], n);
      }
      next[n] := NULL;
      if tail != NULL { next[tail] := n; }
      tail := n;
      if head == NULL { head := n; }
      entry := entry + 1;
      assert queue == [] ==> LinkAt(next[..], [n], 0);
      queue := queue + [n];
    }

    // Link it in front.
    method LinkFront(n: int)
      requires Linked() && NoDup(queue) && n !in queue && n !in free && 0 <= n < next.Length
      modifies next, `head, `tail, `entry, `queue
      ensures Linked() && queue == [n] + old(queue)
    {
      ChainEmpty(next[..], head, queue);
      ChainPush(next[..], head, queue, n);
      ChainOther(next[..], freeHead, free, n, head);
      if queue != [] { assert LinkAt(next[..], queue, |queue| - 1); }
      next[n] := head;
      head := n;
      if tail == NULL { tail := n; }
      entry := entry + 1;
      queue := [n] + queue;
    }

    // Copying the message, and the second region of a send.
    method Link(t: int)
      requires Valid() && 1 <= t < |phase| && phase[t].Filling?
      modifies this, next, slots
      ensures Valid() && View() == MessageQueueSpec.Link(old(View()), t)
    {
      LinkOk(View(), t);
      Loose(View(), t);
      QueuedUnder(receivers, phase, t, Idle(Sent), WaitsRecv);
      LinkNode(t, phase[t].node, phase[t].bytes, phase[t].urgent);
      Wake();
    }

    method LinkNode(t: int, n: int, bytes: Bytes, urgent: bool)
      requires Linked() && LooseNode(View(), n) && |bytes| <= |slots[n]| && 1 <= t < |phase|
      modifies next, slots, `head, `tail, `entry, `queue, `where, `deque, `phase
      ensures Linked()
      ensures View() == SetPhase(old(View()), t, Idle(Sent)).(
        slots := old(slots[..])[n := old(Filled(slots[n], bytes))], where := old(where)[n := InQueue],
        queue := if urgent then [n] + old(queue) else old(queue) + [n],
        deque := if urgent then [old(Filled(slots[n], bytes))] + old(deque)
                 else old(deque) + [old(Filled(slots[n], bytes))])
    {
      ghost var slot := Filled(slots[n], bytes);
      slots[n] := Filled(slots[n], bytes);
      if urgent {
        LinkFront(n);
        deque := [slot] + deque;
      } else {
        LinkTail(n);
        deque := deque + [slot];
      }
      where := where[n := InQueue];
      phase := phase[t := Idle(Sent)];
    }

    method Wake()
      requires Linked()
      requires forall i :: 0 <= i < |receivers| ==> 0 <= receivers[i] < |phase| && phase[receivers[i]].WaitRecv?
      modifies `receivers, `phase
      ensures Linked() && View() == MessageQueueSpec.Wake(old(View()))
    {
      if receivers != [] {
        var r := receivers[0];
        receivers := receivers[1..];
        phase := phase[r := WokenRecv(phase[r].size, phase[r].w)];
      }
    }

    // Unlink the first node.
    method Unlink() returns (n: int)
      requires Linked() && NoDup(queue) && queue != []
      modifies `head, `tail, `entry, `queue
      ensures Linked() && n == old(queue)[0] && queue == old(queue)[1..]
    {
      ChainPop(next[..], head, queue);
      Distinct(queue, 0, |queue| - 1);
      n := head;
      head := next[n];
      if tail == n { tail := NULL; }
      entry := entry - 1;
      queue := queue[1..];
    }

    // The loop head of rt_mq_recv and the unlinking.
    method TryRecv(t: int, size: nat, w: Wait)
      requires Valid() && MayRecv(View(), t)
      modifies this
      ensures Valid() && View() == MessageQueueSpec.TryRecv(old(View()), t, size, w)
    {
      TryRecvOk(View(), t, size, w);
      ghost var goal := MessageQueueSpec.TryRecv(View(), t, size, w);
      if entry == 0 {
        if w.Not? {
          phase := phase[t := Idle(TimedOut)];
        } else {
          receivers := Enqueue(receivers, prio, t, byPrio);
          phase := phase[t := WaitRecv(size, w)];
        }
      } else {
        FirstStored(View());
        Fetch(t, size);
      }
      assert View() == goal;
    }

    method Fetch(t: int, size: nat)
      requires Linked() && queue != [] && NoDup(queue) && |deque| == |queue| && 0 <= t < |phase|
      requires 0 <= queue[0] < |where| && slots[queue[0]] == deque[0]
      modifies `head, `tail, `entry, `queue, `phase, `where, `deque
      ensures Linked()
      ensures View() == SetPhase(old(View()), t, Draining(old(queue)[0], size, old(deque)[0])).(
        queue := old(queue)[1..], deque := old(deque)[1..], where := old(where)[old(queue)[0] := With(t)])
    {
      var n := Unlink();
      phase := phase[t := Draining(n, size, slots[n])];
      where := where[n := With(t)];
      deque := deque[1..];
    }

    // Push a node that is in no list on the free list.
    method PutFree(n: int)
      requires Linked() && n !in queue && n !in free && 0 <= n < next.Length
      modifies next, `freeHead, `free
      ensures Linked() && free == [n] + old(free)
    {
      ChainPush(next[..], freeHead, free, n);
      ChainOther(next[..], head, queue, n, freeHead);
      next[n] := freeHead;
      freeHead := n;
      free := [n] + free;
    }

    // Copying the message out, and the last region of a receive.
    method Release(t: int)
      requires Valid() && 1 <= t < |phase| && phase[t].Draining?
      modifies this, next
      ensures Valid() && View() == MessageQueueSpec.Release(old(View()), t)
    {
      ReleaseOk(View(), t);
      Loose(View(), t);
      ghost var goal := MessageQueueSpec.Release(View(), t);
      var n := phase[t].node;
      var bytes := slots[n][..Least(phase[t].size, msgSize)];
      PutFree(n);
      phase := phase[t := Idle(Got(bytes))];
      where := where[n := InFree];
      assert View() == goal;
    }

    method Timeout(t: int)
      requires Valid() && Enabled(View(), MessageQueueSpec.Timeout(t))
      modifies this
      ensures Valid() && View() == Step(old(View()), MessageQueueSpec.Timeout(t))
    {
      TimeoutOk(View(), t);
      phase := phase[t := Idle(TimedOut)];
      receivers := Without(receivers, t);
    }

    // The loop of the reset: every queued node goes to the free list.
    method Drain()
      requires Linked() && NoDup(queue) && NoDup(free) && forall n :: n in queue ==> n !in free
      modifies next, `head, `tail, `entry, `queue, `freeHead, `free
      ensures Linked() && queue == [] && free == PushAll(old(queue), old(free))
    {
      ghost var goal := PushAll(queue, free);
      ChainEmpty(next[..], head, queue);
      while head != NULL
        invariant Linked() && NoDup(queue) && forall n :: n in queue ==> n !in free
        invariant goal == PushAll(queue, free)
        invariant head == NULL <==> queue == []
        decreases |queue|
      {
        DequeueMembers(queue);
        assert LinkAt(next[..], queue, 0) && queue[0] in queue;
        ghost var q := queue;
        var n := Unlink();
        PutFree(n);
        assert PushAll(q, free[1..]) == PushAll(queue, free);
        ChainEmpty(next[..], head, queue);
      }
    }

    // rt_ipc_list_resume_all
    method ResumeAll()
      requires Queued(receivers, phase, WaitsRecv)
      modifies `phase, `receivers
      ensures phase == Abort(old(phase)) && receivers == []
    {
      var q, r := receivers, phase;
      for i := 0 to |q|
        invariant |r| == |phase|
        invariant forall x :: 0 <= x < |r| ==> r[x] == if x in q[..i] then Idle(Aborted) else phase[x]
      {
        assert q[..i + 1] == q[..i] + [q[i]];
        r := r[q[i] := Idle(Aborted)];
      }
      assert q[..|q|] == q;
      assert r == Abort(phase);
      phase, receivers := r, [];
    }

    // rt_mq_control with RT_IPC_CMD_RESET
    method Reset()
      requires Valid()
      modifies this, next
      ensures Valid() && View() == Step(old(View()), MessageQueueSpec.Reset)
    {
      ResetOk(View());
      ResumeAll();
      Drain();
      deque, where := [], Cleared(where);
    }
  }
}
