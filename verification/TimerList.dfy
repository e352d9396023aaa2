// The hard timer list of the kernel: a skip list over wrap-around ticks, updated in place.

module TimerList {
  import opened RingList
  import opened SortedList
  import opened TimerSpec
  import opened TimerRows
  import opened TimerRuns

  class TimerTable {
    // rows[l] holds the link fields row[l] of the list head (node 0) and of every timer.
    const rows: array<Links>
    const timeout: array<int>
    const init: array<int>
    const periodic: array<bool>
    const active: array<bool>
    var tick: int
    var random: int              // the insert counter of rt_timer_start

    ghost var list: seq<int>     // the bottom row
    ghost var height: seq<int>
    ghost var deadline: seq<int> // over unbounded time
    ghost var stamp: seq<int>
    ghost var now: int
    ghost var starts: int

    ghost predicate Sized()
      reads this, rows, timeout, init, periodic, active
    {
      && rows.Length >= 1 && timeout.Length >= 1
      && timeout.Length == init.Length == periodic.Length == active.Length == |height| == |deadline| == |stamp|
      && timeout != init && periodic != active
    }

    ghost predicate Clocked()
      requires Sized()
      reads this, rows, timeout, init, periodic, active
    {
      && tick == Wrap(now) && 0 <= random < TICKS
      && forall x :: 1 <= x < |deadline| ==> timeout[x] == Wrap(deadline[x])
    }

    ghost function View(): Timers
      reads this, init, periodic, active
    {
      Timers(list, deadline, stamp, init[..], periodic[..], active[..], now, starts)
    }

    // out is the timer whose callback is running, or 0.
    ghost predicate Valid(out: int)
      reads this, rows, timeout, init, periodic, active
    {
      && Sized() && Clocked() && Ok(View(), out)
      && RowsOk(rows[..], list, height)
      && forall x :: x in list ==> height[x] >= 1
    }

    constructor (levels: nat, timers: nat, times: seq<int>, kinds: seq<bool>)
      requires levels >= 1 && |times| == |kinds| == timers + 1
      ensures Valid(0) && fresh(rows) && fresh(timeout) && fresh(init) && fresh(periodic) && fresh(active)
      ensures rows.Length == levels
      ensures View() == Timers([], seq(timers + 1, i => 0), seq(timers + 1, i => 0), times, kinds,
                               seq(timers + 1, i => false), 0, 0)
    {
      var own := Links(seq(timers + 1, i => i), seq(timers + 1, i => i));
      rows := new Links[levels](i => own);
      timeout := new int[timers + 1](i => 0);
      init := new int[timers + 1](i requires 0 <= i < timers + 1 => times[i]);
      periodic := new bool[timers + 1](i requires 0 <= i < timers + 1 => kinds[i]);
      active := new bool[timers + 1](i => false);
      tick, random := 0, 0;
      list, height, deadline, stamp := [], seq(timers + 1, i => 1), seq(timers + 1, i => 0), seq(timers + 1, i => 0);
      now, starts := 0, 0;
      new;
      assert init[..] == times && periodic[..] == kinds && active[..] == seq(timers + 1, i => false);
      EmptyRow(own, timers + 1);
      forall l | 0 <= l < levels ensures RowAt(rows[..], list, height, l) { assert rows[..][l] == own; }
    }

    ghost function Row(l: int): seq<int>
      requires Sized() && InRange(list, |height|)
      reads this, rows, timeout, init, periodic, active
    {
      Tall(list, height, rows.Length - l)
    }

    // --- rt_timer_start -----------------------------------------------------------------------------

    // The inner loop: from node from, the last node of row l that is not after tick v32.
    method SearchRow(l: int, from: int, v32: int, ghost v: int, ghost i0: int, ghost out: int) returns (p: int)
      requires Valid(out)
      requires 0 <= l < rows.Length && v32 == Wrap(v) && now <= v < now + HALF
      requires Starts(list, height, deadline, v, rows.Length - l, from, i0)
      ensures p == Stand(Row(l), deadline, v)
    {
      ghost var r := Row(l);
      ghost var i := i0;
      assert RowAt(rows[..], list, height, l);
      TallOk(list, height, rows.Length - l, deadline);
      p := from;
      RowNext(rows[l], |height|, r, i);
      while p != rows[l].prev[0]
        invariant 0 <= i <= Reach(r, deadline, v) && p == ([0] + r)[i] && 0 <= p < |height|
        invariant i == |r| <==> p == rows[l].prev[0]
        decreases |r| - i
      {
        var q := rows[l].next[p];
        RowNext(rows[l], |height|, r, i);
        assert q == r[i] && q in list;
        AfterExact(deadline[q], v);
        if After(timeout[q], v32) {
          if i < Reach(r, deadline, v) { ReachBefore(r, deadline, v, i); }
          break;
        }
        if i >= Reach(r, deadline, v) { ReachBehind(r, deadline, v, i); }
        p, i := q, i + 1;
        RowNext(rows[l], |height|, r, i);
      }
    }

    method SearchStep(l: int, from: int, v32: int, ghost v: int, ghost i: int, ghost hs: seq<int>, ghost out: int)
      returns (p: int, ghost i': int)
      requires Valid(out) && v32 == Wrap(v) && now <= v < now + HALF && 0 <= l < rows.Length == |hs|
      requires Searched(list, height, deadline, v, hs, l, from, i)
      ensures Searched(list, height, deadline, v, hs[l := p], l + 1, p, i')
    {
      p := SearchRow(l, from, v32, v, i, out);
      StandsMore(list, height, deadline, v, hs, hs[l := p], l);
      i' := 0;
      if l + 1 < rows.Length { i' := NextRow(list, height, deadline, v, hs[l := p], l); }
    }

    // The outer loop: row by row downwards, each from the place where the row above ended.
    method Search(v32: int, ghost v: int, ghost out: int) returns (heads: seq<int>)
      requires Valid(out) && v32 == Wrap(v) && now <= v < now + HALF
      ensures |heads| == rows.Length
      ensures forall l :: 0 <= l < |heads| ==> Stands(list, height, deadline, v, heads, l)
    {
      heads := seq(rows.Length, i => 0);
      var from := 0;
      ghost var i := 0;
      SearchBegins(list, height, deadline, v, heads);
      for l := 0 to rows.Length
        invariant |heads| == rows.Length && Searched(list, height, deadline, v, heads, l, from, i)
      {
        from, i := SearchStep(l, from, v32, v, i, heads, out);
        heads := heads[l := from];
      }
    }

    // Link t in the bottom row, and in the rows above it as far as the insert counter says.
    method Link(t: int, heads: seq<int>, ghost v: int, ghost out: int) returns (ghost h: int)
      requires Valid(out) && 1 <= t < |height| && t !in list && |heads| == rows.Length
      requires forall l :: 0 <= l < |heads| ==> Stands(list, height, deadline, v, heads, l)
      modifies rows, `random
      ensures 1 <= h && 0 <= random < TICKS
      ensures RowsOk(rows[..], Place(list, deadline, v, t), height[t := h])
    {
      ghost var ks := rows[..];
      random := (random + 1) % TICKS;
      var tst := random;
      var n := rows.Length;
      Linkable(ks, list, height, deadline, v, t, heads, n - 1);
      rows[n - 1] := InsertAfter(rows[n - 1], heads[n - 1], t);
      var l := 2;
      while l <= n && tst % 4 == 0
        invariant 2 <= l <= n + 1 && tst >= 0 && 0 <= random < TICKS
        invariant LinkedBelow(ks, rows[..], heads, t, l - 1)
      {
        Linkable(ks, list, height, deadline, v, t, heads, n - l);
        rows[n - l] := InsertAfter(rows[n - l], heads[n - l], t);
        tst := tst / 4;
        l := l + 1;
      }
      h := l - 1;
      LinkRows(ks, rows[..], list, height, deadline, v, t, h, heads);
    }

    method SetTimeout(t: int, ghost v: int, ghost out: int)
      requires Valid(out) && 1 <= t < |height| && !active[t] && v == now + init[t]
      modifies timeout, `deadline
      ensures Valid(out) && View() == old(View()).(deadline := old(deadline)[t := v])
      ensures timeout[t] == Wrap(v)
    {
      assert t !in list;
      KeyedInsert(list, deadline, t, v);
      RankedOther(list, deadline, stamp, starts, t, v);
      WrapSum(now, init[t]);
      timeout[t] := (tick + init[t]) % TICKS;
      deadline := deadline[t := v];
    }

    // rt_timer_start
    method Start(t: int, ghost out: int) returns (ok: bool)
      requires Valid(out) && Known(View(), t) && (active[t] || (t != out && TimerSpec.Startable(View(), t)))
      modifies this, rows, timeout, active
      ensures Valid(out)
      ensures ok <==> !old(active[t])
      ensures View() == TimerSpec.Start(old(View()), t)
    {
      if active[t] {
        return false;
      }
      ghost var v := now + init[t];
      SetTimeout(t, v, out);
      Insert(t, v, out);
      ok := true;
    }

    method Insert(t: int, ghost v: int, ghost out: int)
      requires Valid(out) && Known(View(), t) && !active[t] && t != out
      requires deadline[t] == v && timeout[t] == Wrap(v) && now <= v < now + HALF
      modifies rows, `random, `list, `height, `stamp, `starts, active
      ensures Valid(out) && View() == old(Entered(View(), t, v))
    {
      PlaceOk(View(), t, v, out);
      var heads := Search(timeout[t], v, out);
      ghost var h := Link(t, heads, v, out);
      Enter(t, v, h, out);
    }

    // The timer is linked; record it.
    method Enter(t: int, ghost v: int, ghost h: int, ghost out: int)
      requires Sized() && Clocked() && 1 <= t < |height| && h >= 1 && InRange(list, |deadline|)
      requires RowsOk(rows[..], Place(list, deadline, v, t), height[t := h])
      requires forall x :: x in list ==> 1 <= x < |height| && height[x] >= 1
      requires Ok(Entered(View(), t, v), out)
      modifies `list, `height, `stamp, `starts, active
      ensures Valid(out) && View() == old(Entered(View(), t, v))
    {
      forall x | x in Place(list, deadline, v, t) ensures x == t || x in list {
        InsertedMembers(list, Reach(list, deadline, v), t, x);
      }
      list, height := Place(list, deadline, v, t), height[t := h];
      stamp, starts := stamp[t := starts], starts + 1;
      active[t] := true;
    }

    // --- rt_timer_stop ------------------------------------------------------------------------------

    // _rt_timer_remove
    method Unlink(t: int, ghost out: int)
      requires Valid(out) && 1 <= t < |height|
      modifies rows
      ensures RowsOk(rows[..], Without(list, t), height)
    {
      ghost var ks := rows[..];
      for l := 0 to rows.Length
        invariant forall j :: 0 <= j < l ==> Unlinked(ks[j], rows[j], t)
        invariant forall j :: l <= j < rows.Length ==> rows[j] == ks[j]
      {
        assert RowAt(ks, list, height, l);
        RowRemove(ks[l], |height|, Row(l), t);
        rows[l] := Remove(rows[l], t);
      }
      UnlinkRows(ks, rows[..], list, height, t);
    }

    // rt_timer_stop
    method Stop(t: int, ghost out: int) returns (ok: bool)
      requires Valid(out) && Known(View(), t)
      modifies rows, `list, active
      ensures Valid(out)
      ensures ok <==> old(active[t])
      ensures View() == TimerSpec.Stop(old(View()), t)
    {
      if !active[t] {
        return false;
      }
      StopOk(View(), t, out);
      Unlink(t, out);
      list := Without(list, t);
      active[t] := false;
      ok := true;
    }

    // --- rt_timer_check -----------------------------------------------------------------------------

    // The first timer of the bottom row, or 0; this is what rt_timer_list_next_timeout looks at.
    method First(ghost out: int) returns (t: int)
      requires Valid(out)
      ensures if list == [] then t == 0 else t == list[0]
    {
      assert RowAt(rows[..], list, height, rows.Length - 1);
      TallAll(list, height, 1);
      RowNext(rows[rows.Length - 1], |height|, list, 0);
      var bottom := rows[rows.Length - 1];
      t := if IsEmpty(bottom, 0) then 0 else bottom.next[0];
      assert Placed(bottom, [0] + list, 0);
    }

    // rt_timer_list_next_timeout: RT_TICK_MAX for an empty list.
    method NextTimeout() returns (r: int)
      requires Valid(0)
      ensures r == if list == [] then TICKS - 1 else Wrap(deadline[list[0]])
      ensures forall x :: x in list ==> deadline[x] >= deadline[list[0]]
    {
      var t := First(0);
      r := if t == 0 then TICKS - 1 else timeout[t];
      forall x | x in list ensures deadline[x] >= deadline[list[0]] {
        var i :| 0 <= i < |list| && list[i] == x;
        assert NotAfter(list, deadline, 0, i);
      }
    }

    // Which timer the list misses while the callback of t runs.
    static ghost function Out(t: int, o: Own): int { if o == Waiting then t else 0 }

    // The timeout function of timer t runs.
    method Callback(script: seq<Command>, t: int, ghost o: Own)
      requires Valid(Out(t, o)) && Runnable(View(), t, o, script)
      modifies this, rows, timeout, active
      ensures Valid(Out(t, OwnAfter(o, script, t))) && View() == RunAll(old(View()), t, o, script)
      decreases |script|
    {
      if script != [] {
        var c := script[0];
        assert c in script;
        RunnableStep(View(), t, o, script);
        if c.DoStart? {
          var _ := Start(c.t, Out(t, o));
        } else {
          var _ := Stop(c.t, Out(t, o));
        }
        assert View() == Run(old(View()), c);
        assert Ok(View(), Out(t, Next(o, c, t)));
        Callback(script[1..], t, Next(o, c, t));
      }
    }

    // One turn of the loop.
    method Fire(t: int, script: seq<Command>)
      requires Valid(0) && list != [] && t == list[0] && Allowed(View(), t, script)
      requires periodic[t] ==> 0 < init[t] < HALF
      modifies this, rows, timeout, active
      ensures Valid(0) && View() == TimerSpec.Fire(old(View()), script)
    {
      PopAmid(View());
      Detach(t);
      assert Permitted(View(), t, script);
      SettlesIff(View(), t, script);
      LinkedIff(Waiting, script, t);
      Callback(script, t, Waiting);
      Settle(t, OwnAfter(Waiting, script, t));
    }

    method Detach(t: int)
      requires Valid(0) && list != [] && t == list[0]
      modifies rows, `list
      ensures Valid(t) && View() == old(View()).(list := old(list)[1..])
    {
      PopOk(View());
      WithoutAt(list, t, 0);
      assert Removed(list, 0) == list[1..];
      Unlink(t, 0);
      list := list[1..];
    }

    method Settle(t: int, ghost o: Own)
      requires Valid(Out(t, o)) && Amid(View(), t, o) && o != Linked && (periodic[t] ==> 0 < init[t] < HALF)
      modifies this, rows, timeout, active
      ensures Valid(0) && View() == TimerSpec.Settle(old(View()), t)
    {
      SettleOk(View(), t, o);
      var again := periodic[t] && active[t];
      active[t] := false;
      assert View() == old(View()).(active := old(active[..])[t := false]);
      if again {
        var _ := Start(t, 0);
      }
    }

    // The loop body: fire the first timer if it is due.
    method Turn(cb: Callbacks, i: nat, ghost s: Timers) returns (t: int, ghost s': Timers)
      requires Valid(0) && View() == s && WellBehaved(s, cb)
      modifies this, rows, timeout, active
      ensures Valid(0) && View() == s' && WellBehaved(s', cb)
      ensures if t == 0 then s' == s && Done(s, cb, i) else Fired(s, cb, i, t, s')
    {
      t := First(0);
      s' := s;
      if t == 0 { return; }
      ExpiredExact(now, deadline[t]);
      if !Expired(tick, timeout[t]) {
        t := 0;
        return;
      }
      s' := CheckStep(s, cb, i);
      Fire(t, cb(t, i));
    }

    // rt_tick_increase: the tick counts on, wrapping, and the timers are checked.
    method Tick(cb: Callbacks) returns (fired: seq<int>)
      requires Valid(0) && Between(View()) && WellBehaved(View(), cb)
      modifies this, rows, timeout, active
      ensures Valid(0) && Between(View())
      ensures (View(), fired) == Step(old(View()), TimerRuns.Tick(cb))
    {
      TickBetween(View(), cb);
      WrapSum(now, 1);
      tick := (tick + 1) % TICKS;
      now := now + 1;
      fired := Check(cb);
    }

    // rt_timer_check: returns the timers whose timeout functions ran, in order.
    method Check(cb: Callbacks) returns (fired: seq<int>)
      requires Valid(0) && WellBehaved(View(), cb)
      modifies this, rows, timeout, active
      ensures Valid(0) && (View(), fired) == TimerSpec.Check(old(View()), cb, 0)
    {
      fired := [];
      ghost var s0 := View();
      ghost var s := s0;
      SofarStart(s0, cb);
      while true
        invariant Valid(0) && View() == s && WellBehaved(s, cb) && Sofar(s0, cb, fired, s)
        decreases |DueNow(s)|
      {
        ghost var s';
        var t;
        t, s' := Turn(cb, |fired|, s);
        if t == 0 {
          SofarDone(s0, cb, fired, s);
          break;
        }
        SofarFired(s0, cb, fired, s, t, s');
        fired, s := fired + [t], s';
      }
    }
  }

  ghost predicate Done(s: Timers, cb: Callbacks, i: nat) {
    Ok(s, 0) && WellBehaved(s, cb) && TimerSpec.Check(s, cb, i) == (s, [])
  }

  ghost predicate Fired(s: Timers, cb: Callbacks, i: nat, t: int, s': Timers) {
    && Ok(s, 0) && WellBehaved(s, cb) && Ok(s', 0) && WellBehaved(s', cb)
    && |DueNow(s')| < |DueNow(s)|
    && TimerSpec.Check(s, cb, i) == (TimerSpec.Check(s', cb, i + 1).0, [t] + TimerSpec.Check(s', cb, i + 1).1)
  }

  // From s0, the timers fired so far led to s, where the rest of the check starts.
  ghost predicate Sofar(s0: Timers, cb: Callbacks, fired: seq<int>, s: Timers) {
    && Ok(s0, 0) && WellBehaved(s0, cb) && Ok(s, 0) && WellBehaved(s, cb)
    && TimerSpec.Check(s0, cb, 0) ==
       (TimerSpec.Check(s, cb, |fired|).0, fired + TimerSpec.Check(s, cb, |fired|).1)
  }

  lemma SofarStart(s0: Timers, cb: Callbacks)
    requires Ok(s0, 0) && WellBehaved(s0, cb)
    ensures Sofar(s0, cb, [], s0)
  {
    var r := TimerSpec.Check(s0, cb, 0);
    assert [] + r.1 == r.1;
  }

  lemma SofarDone(s0: Timers, cb: Callbacks, fired: seq<int>, s: Timers)
    requires Sofar(s0, cb, fired, s) && Done(s, cb, |fired|)
    ensures TimerSpec.Check(s0, cb, 0) == (s, fired)
  {
    assert fired + [] == fired;
  }

  lemma SofarFired(s0: Timers, cb: Callbacks, fired: seq<int>, s: Timers, t: int, s': Timers)
    requires Sofar(s0, cb, fired, s) && Fired(s, cb, |fired|, t, s')
    ensures Sofar(s0, cb, fired + [t], s')
  {
    ThenPair(TimerSpec.Check(s0, cb, 0), TimerSpec.Check(s, cb, |fired|), TimerSpec.Check(s', cb, |fired + [t]|),
             fired, t);
  }

  lemma ThenPair(r0: (Timers, seq<int>), r1: (Timers, seq<int>), r2: (Timers, seq<int>), fired: seq<int>, t: int)
    requires r0 == (r1.0, fired + r1.1) && r1 == (r2.0, [t] + r2.1)
    ensures r0 == (r2.0, fired + [t] + r2.1)
  {
    assert fired + ([t] + r2.1) == fired + [t] + r2.1;
  }
}
