// The mutex of the kernel, updated in place.

module Mutex {
  import opened SortedList
  import opened WaitQueue
  import opened MutexSpec

  class MutexObject {
    var value: int
    var owner: int
    var original: int
    var hold: int
    var waiters: seq<int>
    var phase: seq<Phase>    // of every thread
    var current: seq<int>    // the current priority of every thread
    ghost var base: seq<int>
    const byPrio: bool

    ghost function View(): Mutex
      reads this
    {
      Mutex(value, owner, original, hold, waiters, phase, base, current, byPrio)
    }

    ghost predicate Valid()
      reads this
    {
      Ok(View())
    }

    // rt_mutex_init
    constructor (priorities: seq<int>, byPrio: bool)
      ensures Valid() && Initial(View()) && current == priorities
    {
      value, owner, original, hold := 1, NOBODY, NO_PRIORITY, 0;
      waiters, phase := [], seq(|priorities|, i => Idle(None));
      current, base := priorities, priorities;
      this.byPrio := byPrio;
    }

    // rt_mutex_take by thread t, up to the wait
    method Take(t: int, w: Wait)
      requires Valid() && Enabled(View(), MutexSpec.Take(t, w))
      modifies this
      ensures Valid() && View() == Step(old(View()), MutexSpec.Take(t, w))
    {
      TakeOk(View(), t, w);
      ghost var goal := DoTake(View(), t, w);
      if owner == t {
        hold := hold + 1;
        phase := phase[t := Idle(Taken)];
      } else if value > 0 {
        value := value - 1;
        owner := t;
        original := current[t];
        hold := hold + 1;
        phase := phase[t := Idle(Taken)];
      } else if w.Not? {
        phase := phase[t := Idle(TimedOut)];
      } else {
        if current[t] < current[owner] {
          current := current[owner := current[t]];
        }
        waiters := Enqueue(waiters, current, t, byPrio);
        phase := phase[t := Waiting(w)];
      }
      assert View() == goal;
    }

    // The end of a take that waited.
    method Resume(t: int)
      requires Valid() && Enabled(View(), MutexSpec.Resume(t))
      modifies this
      ensures Valid() && owner == t && View() == Step(old(View()), MutexSpec.Resume(t))
    {
      StepOk(View(), MutexSpec.Resume(t));
      phase := phase[t := Idle(Taken)];
    }

    // rt_mutex_release
    method Release(t: int)
      requires Valid() && Enabled(View(), MutexSpec.Release(t))
      modifies this
      ensures Valid() && View() == Step(old(View()), MutexSpec.Release(t))
    {
      ReleaseOk(View(), t);
      if t != owner {
        phase := phase[t := Idle(NotOwner)];
        return;
      }
      hold := hold - 1;
      phase := phase[t := Idle(Released)];
      if hold == 0 {
        if original != current[owner] {
          current := current[owner := original];
        }
        assert current == old(current)[t := original];
        LetGoFrom(old(View()), t);
        HandOverOk(View());
        HandOver();
      }
    }

    // The end of the last hold.
    method HandOver()
      requires forall i :: 0 <= i < |waiters| ==> 0 <= waiters[i] < |phase| && waiters[i] < |current|
      modifies this
      ensures View() == MutexSpec.HandOver(old(View()))
    {
      if waiters != [] {
        var n := waiters[0];
        owner := n;
        original := current[n];
        hold := hold + 1;
        waiters := waiters[1..];
        phase := phase[n := Granted];
      } else {
        value := value + 1;
        owner := NOBODY;
        original := NO_PRIORITY;
      }
    }

    method Timeout(t: int)
      requires Valid() && Enabled(View(), MutexSpec.Timeout(t))
      modifies this
      ensures Valid() && View() == Step(old(View()), MutexSpec.Timeout(t))
    {
      TimeoutOk(View(), t);
      phase := phase[t := Idle(TimedOut)];
      waiters := Without(waiters, t);
    }
  }
}
