/** The event loop of libevent/event.c: whatever callbacks and other threads do in between, the
    base stays consistent, events are processed by priority, and the loop ends of itself only
    when nothing is left. */
module EventLoop {
  import opened EventShape
  import opened EventState
  import opened EventLaws
  import opened EventBase

  /** A call of a callback or of another thread. */
  datatype Call =
    | Add(ev: Event, tv: Option<Timeval>)
    | Del(ev: Event)
    | Active(ev: Event, timeout: bool)

  /** What happens while the lock is released for a callback: the calls before the callback of a
      common timeout takes the lock, the ones after, and whether event_break and event_gotterm are
      set. */
  datatype Callback = Callback(before: seq<Call>, after: seq<Call>, stop: bool, term: bool)

  /** What the base goes through while a callback runs: a persistent timer is added again, the calls
      before the lock is taken are made, and the callback of a common timeout does its work. */
  datatype Trail = Trail(added: State, called: State, finished: State)

  /** The callback of `ev` is chosen from the queue of priority `p` and run: the state before, when
      `ev` has been taken out of its queues, while the callback runs, and after. */
  datatype Choice = Choice(p: nat, ev: Event, before: State, chosen: State, trail: Trail, after: State)

  ghost predicate CallsOk(s: State, calls: seq<Call>) {
    forall i :: 0 <= i < |calls| ==>
      IsUser(s, calls[i].ev) && (calls[i].Add? && calls[i].tv.Some? ==> -1 <= calls[i].tv.value.queue < |s.lists|)
  }

  ghost predicate CallbacksOk(s: State, cbs: seq<Callback>) {
    forall i :: 0 <= i < |cbs| ==> CallsOk(s, cbs[i].before) && CallsOk(s, cbs[i].after)
  }

  /** What stays the same while the loop runs, and that event_continue is only set while a
      callback runs that is not of the most urgent priority. */
  ghost predicate SameBase(s: State, r: State) {
    r.events == s.events && r.drivers == s.drivers && |r.lists| == |s.lists| && |r.activequeues| == |s.activequeues| &&
    r.runningPriority == s.runningPriority && r.running == s.running &&
    (r.eventContinue ==> s.eventContinue || s.runningPriority > 0)
  }

  /** The state after a call. */
  ghost function Called(s: State, call: Call, now: int): State
    requires Inv(s) && CallsOk(s, [call])
  {
    assert IsUser(s, [call][0].ev);
    match call
    case Add(ev, tv) => Added(s, ev, tv, false, now)
    case Del(ev) => DelEvent(s, ev)
    case Active(ev, timeout) => Activate(s, ev, timeout)
  }

  lemma {:induction false} CalledKeeps(s: State, call: Call, now: int)
    requires Inv(s) && PersistOk(s) && CallsOk(s, [call])
    ensures var r := Called(s, call, now); Inv(r) && PersistOk(r) && SameBase(s, r)
  {
    assert IsUser(s, [call][0].ev);
    match call {
      case Add(ev, tv) =>
        AddedKeeps(s, ev, tv, false, now);
        AddedSame(s, ev, tv, false, now);
      case Del(ev) =>
        DelEventKeeps(s, ev, -1);
      case Active(ev, timeout) =>
        ActivateKeeps(s, ev, timeout, -1);
    }
  }

  /** What a call does to the fields of the events. */
  ghost predicate CallDone(s: State, r: State, call: Call, now: int)
    requires call.ev in s.tv && call.ev in s.ioTv
  {
    var e := call.ev;
    OthersKept(s, r, e) && InOrder(s, r) &&
    match call
    case Add(_, tv) => AddDone(s, r, e, tv, false, now)
    case Del(_) => e !in r.inserted && e !in r.active && e !in r.timed
    case Active(_, timeout) =>
      e in r.active && (e in r.inserted <==> e in s.inserted) && (e in r.timed <==> e in s.timed) &&
      (e in r.resTimeout <==> timeout || (e in s.active && e in s.resTimeout)) &&
      e.pri < |s.activequeues| == |r.activequeues| &&
      (e !in s.active ==> r.activequeues[e.pri] == s.activequeues[e.pri] + [e])
  }

  /** Every call does what it is for, leaves the fields of all other events of the user alone, and
      lets the active events wait in the same order. */
  lemma {:induction false} CalledDoes(s: State, call: Call, now: int)
    requires Inv(s) && CallsOk(s, [call])
    ensures call.ev in s.tv && call.ev in s.ioTv && CallDone(s, Called(s, call, now), call, now)
  {
    assert IsUser(s, [call][0].ev);
    match call {
      case Add(ev, tv) =>
        AddedDoes(s, ev, tv, false, now);
        AddedInOrder(s, ev, tv, false, now);
      case Del(ev) =>
        DeletedDoes(s, ev);
        DeletedInOrder(s, ev);
      case Active(ev, timeout) =>
        ActivatedDoes(s, ev, timeout);
        ActivatedInOrder(s, ev, timeout);
    }
  }

  /** The state after calls, one after the other. */
  ghost function CalledAll(s: State, calls: seq<Call>, now: int): (r: State)
    requires Inv(s) && PersistOk(s) && CallsOk(s, calls)
    ensures Inv(r) && PersistOk(r) && SameBase(s, r)
    decreases |calls|
  {
    if calls == [] then s
    else
      FirstCall(s, calls, now);
      CalledAll(Called(s, calls[0], now), calls[1..], now)
  }

  lemma {:induction false} FirstCall(s: State, calls: seq<Call>, now: int)
    requires Inv(s) && PersistOk(s) && CallsOk(s, calls) && calls != []
    ensures CallsOk(s, [calls[0]])
    ensures var r := Called(s, calls[0], now); Inv(r) && PersistOk(r) && SameBase(s, r) && CallsOk(r, calls[1..])
  {
    assert IsUser(s, calls[0].ev);
    assert CallsOk(s, [calls[0]]);
    CalledKeeps(s, calls[0], now);
    assert CallsOk(s, calls[1..]) by {
      forall i | 0 <= i < |calls[1..]| ensures IsUser(s, calls[1..][i].ev) { assert IsUser(s, calls[i + 1].ev); }
    }
    CallsStayOk(s, Called(s, calls[0], now), calls[1..]);
  }

  lemma {:induction false} OneCall(s: State, call: Call, now: int)
    requires Inv(s) && PersistOk(s) && CallsOk(s, [call])
    ensures CalledAll(s, [call], now) == Called(s, call, now)
  {
    hide Called, Inv, PersistOk;
    FirstCall(s, [call], now);
    assert [call][1..] == [];
  }

  /** The calls are made one after the other. */
  lemma {:induction false} CallsInTurn(s: State, a: seq<Call>, b: seq<Call>, now: int)
    requires Inv(s) && PersistOk(s) && CallsOk(s, a) && CallsOk(s, b)
    ensures CallsOk(s, a + b) && CallsOk(CalledAll(s, a, now), b)
    ensures CalledAll(s, a + b, now) == CalledAll(CalledAll(s, a, now), b, now)
    decreases |a|
  {
    hide Called, Inv, PersistOk;
    CallsStayOk(s, CalledAll(s, a, now), b);
    assert CallsOk(s, a + b) by {
      forall i | 0 <= i < |a + b| ensures IsUser(s, (a + b)[i].ev) {
        if i < |a| { assert IsUser(s, a[i].ev); } else { assert IsUser(s, b[i - |a|].ev); }
      }
    }
    if a == [] {
      assert a + b == b;
    } else {
      FirstCall(s, a, now);
      FirstCall(s, a + b, now);
      assert (a + b)[1..] == a[1..] + b;
      var r := Called(s, a[0], now);
      CallsStayOk(s, r, b);
      CallsInTurn(r, a[1..], b, now);
    }
  }

  lemma {:induction false} AddTimerSame(s: State, e: Event, t: Timeval)
    requires Structure(s) && e in s.events && -1 <= t.queue < |s.lists|
    ensures SameBase(s, AddTimer(s, e, t))
  {
  }

  lemma {:induction false} AddEventSame(s: State, e: Event, t: Option<Timeval>)
    requires Inv(s) && IsUser(s, e) && (t.Some? ==> -1 <= t.value.queue < |s.lists|)
    ensures SameBase(s, AddEvent(s, e, t))
  {
    if t.Some? {
      var a := WithInserted(s, e);
      WithInsertedKeeps(s, e, -1);
      AddTimerKeeps(a, e, t.value, -1);
      AddTimerSame(a, e, t.value);
      var b, n := AddTimer(a, e, t.value), t.value.queue;
      if n >= 0 && b.lists[n][0] == e {
        FirstTimed(b, n);
        AddTimerSame(b, b.drivers[n], Timeval(b.tv[b.lists[n][0]].at, -1));
      }
    }
  }

  lemma {:induction false} AddedSame(s: State, e: Event, t: Option<Timeval>, absolute: bool, now: int)
    requires Inv(s) && IsUser(s, e) && (t.Some? ==> -1 <= t.value.queue < |s.lists|)
    ensures SameBase(s, Added(s, e, t, absolute, now))
  {
    RememberedKeeps(s, e, t, absolute);
    AddEventSame(Remembered(s, e, t, absolute), e, TimeSet(t, absolute, now));
  }

  lemma {:induction false} SameTrans(s: State, a: State, r: State)
    requires SameBase(s, a) && SameBase(a, r)
    ensures SameBase(s, r)
  {
  }

  /** The callback that was running in between has stopped. */
  lemma {:induction false} StoppedTrans(s: State, a: State, r: State, e: Event)
    requires SameBase(s, a) && SameBase(Stopped(a, e), r)
    ensures SameBase(Stopped(s, e), r)
  {
  }

  lemma {:induction false} CallsStayOk(s: State, r: State, calls: seq<Call>)
    requires CallsOk(s, calls) && SameBase(s, r)
    ensures CallsOk(r, calls)
  {
    forall i | 0 <= i < |calls| ensures IsUser(r, calls[i].ev) { assert IsUser(s, calls[i].ev); }
  }

  /** One call. */
  method Perform(b: Base, call: Call, now: int)
    requires b.Valid() && CallsOk(b.s, [call])
    modifies b`eventCount, b`eventCountActive, b`eventqueue, b`activequeues, b`timeheap, b`lists, b`s
    modifies b`eventContinue, b.s.events
    ensures b.Valid() && b.s == Called(old(b.s), call, now) && SameBase(old(b.s), b.s)
  {
    CalledKeeps(b.s, call, now);
    assert IsUser(b.s, [call][0].ev);
    match call {
      case Add(ev, tv) => b.EventAdd(ev, tv, false, now);
      case Del(ev) => b.EventDel(ev);
      case Active(ev, timeout) => b.EventActive(ev, timeout);
    }
  }

  /** Any calls of callbacks and other threads, one after the other. */
  method PerformAll(b: Base, calls: seq<Call>, now: int)
    requires b.Valid() && CallsOk(b.s, calls)
    modifies b`eventCount, b`eventCountActive, b`eventqueue, b`activequeues, b`timeheap, b`lists, b`s
    modifies b`eventContinue, b.s.events
    ensures b.Valid() && SameBase(old(b.s), b.s) && CallsLead(old(b.s), calls, now, b.s)
  {
    hide Called, CallsOk, Structure;
    ghost var s0 := b.s;
    var i := 0;
    while i < |calls|
      invariant i <= |calls| && b.Valid() && SameBase(s0, b.s) && CallsOk(b.s, calls[i..])
      invariant CalledAll(b.s, calls[i..], now) == CalledAll(s0, calls, now)
    {
      ghost var s1 := b.s;
      FirstCall(s1, calls[i..], now);
      assert calls[i..][0] == calls[i] && calls[i..][1..] == calls[i + 1..];
      Perform(b, calls[i], now);
      SameTrans(s0, s1, b.s);
      i := i + 1;
    }
  }

  // ---------------------------------------------------------------- one callback

  /** An active event is chosen: it leaves the active queue, or all queues if it does not
      persist, and its callback is called (libevent/event.c:1327-1332). */
  ghost function Chosen(s: State, e: Event): State
    requires Structure(s) && e in s.events
  {
    var a := if e.persist then WithoutActive(s, e) else DelEvent(s, e);
    a.(running := a.running + {e})
  }

  /** The callback of `e` is running. */
  ghost function Running(s: State, e: Event): State {
    s.(running := s.running + {e})
  }

  lemma {:induction false} RunningKeeps(s: State, e: Event, n: int)
    requires Structure(s) && AllDriven(s, n) && Apart(s, e, n)
    requires 0 <= n < |s.drivers| ==> s.drivers[n] == e
    ensures Inv(s.(running := s.running + {e}))
  {
    var r := s.(running := s.running + {e});
    forall m | 0 <= m < |r.lists| ensures Driven(r, m) {
      if m != n { assert Driven(s, m); }
    }
  }

  /** A driver that is chosen counts as running, so no common timeout is lost. */
  lemma {:induction false} ChosenKeeps(s: State, e: Event)
    requires Inv(s) && PersistOk(s) && e in s.events
    ensures var r := Chosen(s, e); Inv(r) && PersistOk(r) && SameBase(Running(s, e), r)
  {
    var n := if exists n :: 0 <= n < |s.drivers| && s.drivers[n] == e
             then var n :| 0 <= n < |s.drivers| && s.drivers[n] == e; n else -1;
    if e.persist {
      WithoutActiveKeeps(s, e, n);
      RunningKeeps(WithoutActive(s, e), e, n);
    } else {
      DelEventKeeps(s, e, n);
      RunningKeeps(DelEvent(s, e), e, n);
    }
  }

  /** The event is not active any more and its callback is running; it stays in the other queues if it
      persists, and the other events stay where they are. */
  lemma {:induction false} ChosenDoes(s: State, e: Event)
    requires Structure(s) && e in s.events
    ensures var r := Chosen(s, e);
      e !in r.active && r.running == s.running + {e} && OthersKept(s, r, e) && OnlyKept(s, r) &&
      (if e.persist then r.inserted == s.inserted && r.timed == s.timed else e !in r.inserted && e !in r.timed)
  {
    if e.persist {
      TakenOutIsKept(s, WithoutActive(s, e), e);
    } else {
      DeletedDoes(s, e);
      DeletedInOrder(s, e);
    }
  }

  lemma {:induction false} StoppedKeeps(s: State, e: Event)
    requires Inv(s) && IsUser(s, e)
    ensures Inv(Stopped(s, e))
  {
    var r := Stopped(s, e);
    forall m | 0 <= m < |r.lists| ensures Driven(r, m) { assert Driven(s, m); }
  }

  lemma {:induction false} HandledSame(s: State, n: nat, now: int)
    requires Structure(s) && n < |s.lists|
    ensures SameBase(Stopped(s, s.drivers[n]), CommonCallback(s, n, now))
  {
    var a := Expired(s, n, now);
    ExpiredSame(s, n, now);
    if a.lists[n] != [] {
      FirstTimed(a, n);
      AddTimerSame(a, a.drivers[n], Timeval(a.tv[a.lists[n][0]].at, -1));
    }
  }

  lemma {:induction false} ExpiredSame(s: State, n: nat, now: int)
    requires Structure(s) && n < |s.lists|
    ensures SameBase(s, Expired(s, n, now))
    decreases |s.lists[n]|
  {
    if s.lists[n] != [] {
      FirstTimed(s, n);
      var e := s.lists[n][0];
      if s.tv[e].at <= now {
        DelFirst(s, n);
        ExpiredSame(TimedOut(s, e), n, now);
      }
    }
  }

  /** The list that `ev` drives, or -1. */
  method DriverIndex(b: Base, ev: Event) returns (n: int)
    requires b.Valid() && ev in b.s.events
    ensures b.Valid() && -1 <= n < |b.drivers|
    ensures if n < 0 then IsUser(b.s, ev) else b.drivers[n] == ev
  {
    n := |b.drivers| - 1;
    while n >= 0 && b.drivers[n] != ev
      invariant -1 <= n < |b.drivers| && forall m :: n < m < |b.drivers| ==> b.drivers[m] != ev
    {
      n := n - 1;
    }
  }

  /** The next time of a timer with an interval: not before now. */
  function NextTime(scheduled: int, delay: int, now: int): (t: int)
    ensures delay >= 0 ==> t >= now
    ensures t == scheduled + delay || (scheduled + delay < now && t == now + delay)
    ensures scheduled + delay >= now ==> t == scheduled + delay
  {
    if scheduled + delay >= now then scheduled + delay else now + delay
  }

  /** The time for which a persistent timer is added again (libevent/event.c:1265-1297). */
  method NextRun(ev: Event, now: int) returns (t: Timeval)
    ensures t == Timeval(NextTime(if ev.resTimeout then ev.timeout.at else now, ev.ioTimeout.at, now),
            ev.ioTimeout.queue)
  {
    var delay := ev.ioTimeout.at;
    var relativeTo := if ev.resTimeout then ev.timeout.at else now;
    var runAt := relativeTo + delay;
    if runAt < now {
      runAt := now + delay;
    }
    t := Timeval(runAt, ev.ioTimeout.queue);
  }

  /** What a persistent timer is added again for: an interval after the time it was scheduled for if
      it has timed out, else an interval from now. */
  ghost function Renewed(s: State, ev: Event, now: int): Timeval
    requires ev in s.tv && ev in s.ioTv
  {
    Timeval(NextTime(if ev in s.resTimeout then s.tv[ev].at else now, s.ioTv[ev].at, now), s.ioTv[ev].queue)
  }

  /** event_persist_closure, up to the callback (libevent/event.c:1254-1300): a persistent event
      with a timeout is added again, an interval after the time it was scheduled for if it has
      timed out, else an interval from now. */
  method PersistClosure(b: Base, ev: Event, now: int)
    requires b.Valid() && ev in b.s.events && ev.persistClosure
    modifies b`eventCount, b`eventCountActive, b`eventqueue, b`activequeues, b`timeheap, b`lists, b`s
    modifies b`eventContinue, b.s.events
    ensures b.Valid() && SameBase(old(b.s), b.s) && Readded(old(b.s), ev, now, b.s)
    ensures if old(ev.ioTimeout.at) == 0 && old(ev.ioTimeout.queue) < 0 then b.s == old(b.s)
            else
              ev.timed &&
              ev.timeout == Timeval(NextTime(if old(ev.resTimeout) then old(ev.timeout.at) else now,
                                             old(ev.ioTimeout.at), now),
                                    old(ev.ioTimeout.queue))
  {
    hide Inv, Structure, PersistOk, OnlyKept, OthersKept, SameBase, Added;
    PersistIsUser(b.s, ev);
    SameAsIs(b.s);
    if Runs(ev.ioTimeout) {
      var t := NextRun(ev, now);
      AddedSame(b.s, ev, Some(t), true, now);
      b.EventAdd(ev, Some(t), true, now);
    }
  }

  lemma {:induction false} SameAsIs(s: State)
    ensures SameBase(s, s)
  {
  }

  /** Drivers are not persistent, and an interval names the common timeout of its event. */
  lemma {:induction false} PersistIsUser(s: State, ev: Event)
    requires Inv(s) && PersistOk(s) && ev in s.events && ev.persistClosure
    ensures IsUser(s, ev) && ev in s.tv && ev in s.ioTv
    ensures Runs(s.ioTv[ev]) ==> s.ioTv[ev].queue == s.tv[ev].queue && -1 <= s.ioTv[ev].queue < |s.lists|
  {
  }

  /** A persistent event with a timeout has been added again. */
  ghost predicate Readded(s: State, ev: Event, now: int, r: State) {
    if ev.persistClosure && ev in s.tv && ev in s.ioTv && Runs(s.ioTv[ev]) then
      Inv(s) && IsUser(s, ev) && -1 <= s.ioTv[ev].queue < |s.lists| &&
      r == Added(s, ev, Some(Renewed(s, ev, now)), true, now)
    else r == s
  }

  /** The calls lead from one state to the other. */
  ghost predicate CallsLead(s: State, calls: seq<Call>, now: int, r: State) {
    Inv(s) && PersistOk(s) && CallsOk(s, calls) && r == CalledAll(s, calls, now)
  }

  /** The callback of a common timeout has done its work; that of another event has returned. */
  ghost predicate Finished(s: State, ev: Event, now: int, r: State) {
    Inv(s) &&
    if IsUser(s, ev) then r == s.(running := s.running - {ev})
    else forall n :: 0 <= n < |s.drivers| && s.drivers[n] == ev ==> n < |s.lists| && r == CommonCallback(s, n, now)
  }

  /** What a callback does to the base. */
  ghost predicate Ran(s: State, ev: Event, cb: Callback, now: int, t: Trail, r: State) {
    Readded(s, ev, now, t.added) && CallsLead(t.added, cb.before, now, t.called) &&
    Finished(t.called, ev, now, t.finished) && CallsLead(t.finished, cb.after, now, r)
  }

  /** A persistent timer whose callback calls nothing is set again when it returns. */
  lemma {:induction false} QuietIsRenewed(s: State, ev: Event, cb: Callback, now: int, t: Trail, r: State)
    requires Inv(s) && ev in s.events && Ran(s, ev, cb, now, t, r) && cb.before == [] && cb.after == []
    requires ev.persistClosure && ev in s.ioTv && (s.ioTv[ev].at != 0 || s.ioTv[ev].queue >= 0)
    ensures ev in s.tv && ev in r.tv && ev in r.timed && r.tv[ev] == Renewed(s, ev, now)
  {
    AddedDoes(s, ev, Some(Renewed(s, ev, now)), true, now);
    assert t.called == t.added && r == t.finished;
    assert IsUser(t.called, ev) by { AddedSame(s, ev, Some(Renewed(s, ev, now)), true, now); }
  }

  /** While the callback of another event of the user runs, the base sees exactly the calls that it and
      other threads make. */
  lemma {:induction false} UserRan(s: State, ev: Event, cb: Callback, now: int, t: Trail, r: State)
    requires Inv(s) && PersistOk(s) && IsUser(s, ev) && !ev.persistClosure && CallsOk(s, cb.before)
    requires Ran(s, ev, cb, now, t, r)
    ensures var a := CalledAll(s, cb.before, now).(running := s.running - {ev});
      Inv(a) && PersistOk(a) && CallsOk(a, cb.after) && r == CalledAll(a, cb.after, now)
  {
    hide Inv, PersistOk, CallsOk;
    assert IsUser(t.called, ev);
  }

  /** The callback of a common timeout also makes its due timers active and sets its driver again. */
  lemma {:induction false} DriverRan(s: State, n: nat, cb: Callback, now: int, t: Trail, r: State)
    requires Inv(s) && PersistOk(s) && n < |s.drivers| && CallsOk(s, cb.before)
    requires Ran(s, s.drivers[n], cb, now, t, r)
    ensures var a := CalledAll(s, cb.before, now);
      n < |a.lists| && n < |a.drivers| && ExpiryDone(a, t.finished, n, now) &&
      Inv(t.finished) && PersistOk(t.finished) && CallsOk(t.finished, cb.after) &&
      r == CalledAll(t.finished, cb.after, now)
  {
    var ev, a := s.drivers[n], CalledAll(s, cb.before, now);
    assert !ev.persistClosure && t.added == s && t.called == a && a.drivers == s.drivers;
    CommonCallbackDoes(a, n, now);
    assert !IsUser(a, ev);
  }

  method Readd(b: Base, ev: Event, now: int)
    requires b.Valid() && ev in b.s.events
    modifies b`eventCount, b`eventCountActive, b`eventqueue, b`activequeues, b`timeheap, b`lists, b`s
    modifies b`eventContinue, b.s.events
    ensures b.Valid() && SameBase(old(b.s), b.s) && Readded(old(b.s), ev, now, b.s)
  {
    if ev.persistClosure {
      PersistClosure(b, ev, now);
    }
  }

  /** The callback of a chosen event, with what else happens while the lock is released
      (libevent/event.c:1344-1358). */
  method RunCallback(b: Base, ev: Event, cb: Callback, now: int) returns (ghost trail: Trail)
    requires b.Valid() && ev in b.s.events && CallsOk(b.s, cb.before) && CallsOk(b.s, cb.after)
    modifies b`eventCount, b`eventCountActive, b`eventqueue, b`activequeues, b`timeheap, b`lists, b`s
    modifies b`eventContinue, b.s.events
    ensures b.Valid() && SameBase(Stopped(old(b.s), ev), b.s) && Ran(old(b.s), ev, cb, now, trail, b.s)
  {
    hide CallsLead, Readded, Finished, Inv, Structure, PersistOk, Base.Valid;
    ghost var s0 := b.s;
    Readd(b, ev, now);
    CallsStayOk(s0, b.s, cb.before);
    ghost var s1 := b.s;
    PerformAll(b, cb.before, now);
    SameTrans(s0, s1, b.s);
    ghost var s2 := b.s;
    FinishDriver(b, ev, now);
    StoppedTrans(s0, s2, b.s, ev);
    CallsStayOk(Stopped(s0, ev), b.s, cb.after);
    ghost var s3 := b.s;
    PerformAll(b, cb.after, now);
    SameTrans(Stopped(s0, ev), s3, b.s);
    trail := Trail(s1, s2, s3);
  }

  lemma {:induction false} DriverFinished(s: State, n: nat, now: int)
    requires Inv(s) && n < |s.lists| && n < |s.drivers|
    ensures Finished(s, s.drivers[n], now, CommonCallback(s, n, now))
  {
    hide CommonCallback;
    assert NoDup(s.drivers);
    forall m | 0 <= m < |s.drivers| && s.drivers[m] == s.drivers[n] ensures m == n {
      assert !(m < n) && !(n < m);
    }
  }

  /** The callback of a common timeout does its work under the lock; other callbacks touch the
      base only by their calls. */
  method FinishDriver(b: Base, ev: Event, now: int)
    requires b.Valid() && ev in b.s.events
    modifies b`eventCount, b`eventCountActive, b`eventqueue, b`activequeues, b`timeheap, b`lists, b`s
    modifies b`eventContinue, b.s.events
    ensures b.Valid() && SameBase(Stopped(old(b.s), ev), b.s) && Finished(old(b.s), ev, now, b.s)
  {
    var n := DriverIndex(b, ev);
    if n >= 0 {
      HandledSame(b.s, n, now);
      DriverFinished(b.s, n, now);
      b.CommonTimeoutCallback(n, ev, now);
    } else {
      StoppedKeeps(b.s, ev);
      b.s := Stopped(b.s, ev);
    }
  }

  // ---------------------------------------------------------------- processing by priority

  /** No event more urgent than `p` is active. */
  ghost predicate NoneMoreUrgent(s: State, p: int) {
    forall q :: 0 <= q < p && q < |s.activequeues| ==> s.activequeues[q] == []
  }

  lemma {:induction false} FirstActive(s: State, p: nat)
    requires Structure(s) && p < |s.activequeues| && s.activequeues[p] != []
    ensures var e := s.activequeues[p][0]; e in s.active && e in s.events && e.pri == p
  {
    assert QueueOf(s.activequeues[p], OfPriority(s.active, p));
    assert s.activequeues[p][0] in Elems(s.activequeues[p]);
  }

  /** An active event is taken out of the queues (libevent/event.c:1327-1330). */
  method TakeOut(b: Base, ev: Event)
    requires b.Repr() && Structure(b.s) && ev in b.s.events
    modifies b`eventCount, b`eventCountActive, b`eventqueue, b`activequeues, b`timeheap, b`lists, b`s
    modifies ev`inserted, ev`active, ev`timed
    ensures b.Repr() && b.s == Chosen(old(b.s), ev)
  {
    hide Structure, WithoutActive, DelEvent;
    if ev.persist {
      b.DropActive(ev);
    } else {
      b.EventDelete(ev);
    }
    b.s := b.s.(running := b.s.running + {ev});
  }

  method Choose(b: Base, ev: Event)
    requires b.Valid() && ev in b.s.events
    modifies b`eventCount, b`eventCountActive, b`eventqueue, b`activequeues, b`timeheap, b`lists, b`s
    modifies ev`inserted, ev`active, ev`timed
    ensures b.Valid() && b.s == Chosen(old(b.s), ev) && SameBase(Running(old(b.s), ev), b.s)
    ensures !ev.active
  {
    ChosenKeeps(b.s, ev);
    ChosenDoes(b.s, ev);
    TakeOut(b, ev);
  }

  /** One turn of event_process_active_single_queue is right: no more urgent event is active, the
      event is the first of its queue, it leaves the queue, and its callback runs. */
  ghost predicate StepOk(c: Choice, cb: Callback, now: int) {
    NoneMoreUrgent(c.before, c.p) && Structure(c.before) && c.ev in c.before.events &&
    c.p < |c.before.activequeues| && c.before.activequeues[c.p] != [] && c.ev == c.before.activequeues[c.p][0] &&
    c.chosen == Chosen(c.before, c.ev) && Ran(c.chosen, c.ev, cb, now, c.trail, c.after)
  }

  /** While event_continue is not set, no event is active that is more urgent than the one running. */
  lemma {:induction false} PriorityHolds(s: State)
    requires Inv(s)
    ensures !s.eventContinue ==> NoneMoreUrgent(s, s.runningPriority)
    ensures forall e :: e in s.events && e.internal ==> e.pri == 0
  {
  }

  /** That turn: the first event of the queue is chosen and its callback run; `count` is 1 unless it
      is internal (libevent/event.c:1326-1358). */
  method ProcessOne(b: Base, p: nat, cb: Callback, now: int) returns (count: nat, ghost choice: Choice)
    requires b.Valid() && p < |b.activequeues| && b.activequeues[p] != [] && b.runningPriority == p && b.s.running == {}
    requires CallsOk(b.s, cb.before) && CallsOk(b.s, cb.after) && NoneMoreUrgent(b.s, p)
    modifies b`eventCount, b`eventCountActive, b`eventqueue, b`activequeues, b`timeheap, b`lists, b`s
    modifies b`eventContinue, b.s.events
    ensures b.Valid() && SameBase(old(b.s), b.s)
    ensures StepOk(choice, cb, now) && choice.p == p && choice.before == old(b.s) && choice.after == b.s
    ensures choice.ev == old(b.activequeues[p][0])
    ensures !b.eventContinue ==> NoneMoreUrgent(b.s, p)
    ensures (p > 0 ==> count > 0) && count == if choice.ev.internal then 0 else 1
  {
    hide Structure, PersistOk, Ran, Chosen, InsertedFlags, ActiveFlags, TimedFlags, ResFlags, Times, IoTimes;
    FirstActive(b.s, p);
    PriorityHolds(b.s);
    var ev := b.activequeues[p][0];
    ghost var s0 := b.s;
    Choose(b, ev);
    count := if ev.internal then 0 else 1;
    ghost var s1 := b.s;
    CallsStayOk(Running(s0, ev), s1, cb.before);
    CallsStayOk(Running(s0, ev), s1, cb.after);
    ghost var trail := RunCallback(b, ev, cb, now);
    PriorityHolds(b.s);
    StoppedTrans(Running(s0, ev), s1, b.s, ev);
    assert Stopped(Running(s0, ev), ev) == s0;
    choice := Choice(p, ev, s0, s1, trail, b.s);
  }

  /** event_base_loopbreak, and the callback of event_base_loopexit (libevent/event.c:1446-1490). */
  method MayEnd(b: Base, stop: bool, term: bool)
    requires b.Valid()
    modifies b`eventBreak, b`eventGotterm
    ensures b.Valid() && b.eventBreak == (old(b.eventBreak) || stop) && b.eventGotterm == (old(b.eventGotterm) || term)
  {
    b.eventBreak, b.eventGotterm := b.eventBreak || stop, b.eventGotterm || term;
  }

  /** No choice was made while a more urgent event was active. */
  ghost predicate Fair(choices: seq<Choice>) {
    forall i :: 0 <= i < |choices| ==> NoneMoreUrgent(choices[i].before, choices[i].p)
  }

  /** All of them are of the priority `p`, and the first event of the queue was chosen first. */
  ghost predicate FairAt(choices: seq<Choice>, p: nat, queue: seq<Event>) {
    Fair(choices) && (forall i :: 0 <= i < |choices| ==> choices[i].p == p) &&
    (choices != [] ==> queue != [] && choices[0].ev == queue[0])
  }

  /** A callback was run that is not internal. */
  ghost predicate AnyReal(choices: seq<Choice>) {
    exists i :: 0 <= i < |choices| && !choices[i].ev.internal
  }

  lemma {:induction false} RealAppend(a: seq<Choice>, b: seq<Choice>)
    ensures AnyReal(a + b) <==> AnyReal(a) || AnyReal(b)
  {
    if i :| 0 <= i < |a| && !a[i].ev.internal { assert !(a + b)[i].ev.internal; }
    if i :| 0 <= i < |b| && !b[i].ev.internal { assert !(a + b)[|a| + i].ev.internal; }
  }

  lemma {:induction false} RealOne(choice: Choice)
    ensures AnyReal([choice]) <==> !choice.ev.internal
  {
    assert [choice][0] == choice;
  }

  /** From one callback to the next the loop sets only the priority it is at. */
  ghost predicate Linked(s: State, r: State) {
    r == s.(runningPriority := r.runningPriority, eventContinue := r.eventContinue)
  }

  /** The run from `s` to `r`: the choices follow one another, each with the next of the callbacks, and
      none comes after one that has stopped the loop or made a more urgent event active. */
  ghost predicate Chain(s: State, choices: seq<Choice>, cbs: seq<Callback>, from: nat, now: int, r: State)
    decreases |choices|
  {
    if choices == [] then Linked(s, r)
    else
      from < |cbs| && Linked(s, choices[0].before) && StepOk(choices[0], cbs[from], now) &&
      (|choices| > 1 ==> !cbs[from].stop && !choices[0].after.eventContinue) &&
      Chain(choices[0].after, choices[1..], cbs, from + 1, now, r)
  }

  /** The last of them did not stop the loop. */
  ghost predicate MayFollow(choices: seq<Choice>, cbs: seq<Callback>, from: nat) {
    choices == [] ||
    (from + |choices| <= |cbs| && !cbs[from + |choices| - 1].stop && !choices[|choices| - 1].after.eventContinue)
  }

  lemma {:induction false} ChainAppend(s: State, a: seq<Choice>, m: State, b: seq<Choice>, r: State,
                                       cbs: seq<Callback>, from: nat, now: int)
    requires Chain(s, a, cbs, from, now, m) && Chain(m, b, cbs, from + |a|, now, r)
    requires b != [] ==> MayFollow(a, cbs, from)
    ensures Chain(s, a + b, cbs, from, now, r)
    decreases |a|
  {
    hide StepOk;
    if a == [] {
      assert a + b == b;
    } else {
      ChainAppend(a[0].after, a[1..], m, b, r, cbs, from + 1, now);
      assert (a + b)[1..] == a[1..] + b;
    }
  }

  /** Any callback of a run: it is the right one, it is run with the state that the one before has left,
      and that one has not stopped the loop. */
  lemma {:induction false} ChainAt(s: State, choices: seq<Choice>, cbs: seq<Callback>, from: nat, now: int, r: State,
                                   i: nat)
    requires Chain(s, choices, cbs, from, now, r) && i < |choices|
    ensures from + i < |cbs| && StepOk(choices[i], cbs[from + i], now)
    ensures Linked(if i == 0 then s else choices[i - 1].after, choices[i].before)
    ensures i > 0 ==> !cbs[from + i - 1].stop && !choices[i - 1].after.eventContinue
    ensures i == |choices| - 1 ==> Linked(choices[i].after, r)
    decreases i
  {
    hide StepOk;
    if i > 0 { ChainAt(choices[0].after, choices[1..], cbs, from + 1, now, r, i - 1); }
  }

  lemma {:induction false} ChainNone(s: State, cbs: seq<Callback>, from: nat, now: int)
    ensures Chain(s, [], cbs, from, now, s)
  {
  }

  lemma {:induction false} ChainOne(m: State, c: Choice, cbs: seq<Callback>, from: nat, now: int)
    requires from < |cbs| && StepOk(c, cbs[from], now) && Linked(m, c.before)
    ensures Chain(m, [c], cbs, from, now, c.after)
  {
    hide StepOk;
  }

  /** One of the callbacks sets event_break; one sets event_gotterm. */
  ghost predicate Stops(cbs: seq<Callback>, from: nat, to: nat) {
    exists i :: from <= i < to && i < |cbs| && cbs[i].stop
  }

  ghost predicate Terms(cbs: seq<Callback>, from: nat, to: nat) {
    exists i :: from <= i < to && i < |cbs| && cbs[i].term
  }

  /** event_break and event_gotterm after these callbacks. */
  ghost predicate EndSet(stop0: bool, term0: bool, cbs: seq<Callback>, from: nat, to: nat, stop: bool, term: bool) {
    (stop <==> stop0 || Stops(cbs, from, to)) && (term <==> term0 || Terms(cbs, from, to))
  }

  lemma {:induction false} EndSetOne(stop0: bool, term0: bool, cbs: seq<Callback>, from: nat, to: nat,
                                     stop: bool, term: bool)
    requires EndSet(stop0, term0, cbs, from, to, stop, term) && from <= to < |cbs|
    ensures EndSet(stop0, term0, cbs, from, to + 1, stop || cbs[to].stop, term || cbs[to].term)
  {
  }

  lemma {:induction false} EndSetTrans(stop0: bool, term0: bool, cbs: seq<Callback>, from: nat, mid: nat, to: nat,
                                       stop1: bool, term1: bool, stop: bool, term: bool)
    requires EndSet(stop0, term0, cbs, from, mid, stop1, term1) && EndSet(stop1, term1, cbs, mid, to, stop, term)
    requires from <= mid <= to
    ensures EndSet(stop0, term0, cbs, from, to, stop, term)
  {
  }

  lemma {:induction false} NotStopped(stop0: bool, term0: bool, cbs: seq<Callback>, choices: seq<Choice>, from: nat,
                                      term: bool)
    requires EndSet(stop0, term0, cbs, from, from + |choices|, false, term) && from + |choices| <= |cbs|
    requires choices != [] ==> !choices[|choices| - 1].after.eventContinue
    ensures MayFollow(choices, cbs, from)
  {
  }

  /** Where the loop of event_process_active_single_queue is. */
  ghost predicate InQueue(s0: State, s: State, p: nat, choices: seq<Choice>, count: int) {
    SameBase(s0, s) && p < |s0.activequeues| && FairAt(choices, p, s0.activequeues[p]) &&
    (count > 0 <==> AnyReal(choices)) && count >= 0 && (choices != [] && p > 0 ==> count > 0) &&
    if choices == [] then s == s0 else s == choices[|choices| - 1].after
  }

  /** One turn of that loop (libevent/event.c:1326-1366). */
  method QueueTurn(b: Base, p: nat, cbs: seq<Callback>, from: nat, next: nat, now: int, count0: int, ghost s0: State,
                   ghost choices0: seq<Choice>)
    returns (count: int, ghost choices: seq<Choice>)
    requires b.Valid() && InQueue(s0, b.s, p, choices0, count0) && CallbacksOk(s0, cbs) &&
             from + |choices0| == next < |cbs|
    requires b.runningPriority == p && NoneMoreUrgent(b.s, p) && b.s.running == {} && b.activequeues[p] != []
    requires Chain(s0, choices0, cbs, from, now, b.s) && MayFollow(choices0, cbs, from)
    modifies b`eventCount, b`eventCountActive, b`eventqueue, b`activequeues, b`timeheap, b`lists, b`s
    modifies b`eventContinue, b.s.events
    ensures b.Valid() && InQueue(s0, b.s, p, choices, count) && |choices| == |choices0| + 1
    ensures Chain(s0, choices, cbs, from, now, b.s)
    ensures !b.eventContinue ==> NoneMoreUrgent(b.s, p)
  {
    hide CallsOk, Inv, Structure, PersistOk, StepOk, Chain, InsertedFlags, ActiveFlags, TimedFlags, ResFlags, Times,
      IoTimes;
    ghost var s1, choice := b.s, Choice(p, b.activequeues[p][0], s0, s0, Trail(s0, s0, s0), s0);
    CallsStayOk(s0, s1, cbs[next].before);
    CallsStayOk(s0, s1, cbs[next].after);
    var one;
    one, choice := ProcessOne(b, p, cbs[next], now);
    SameTrans(s0, s1, b.s);
    choices := choices0 + [choice];
    RealAppend(choices0, [choice]);
    RealOne(choice);
    ChainOne(s1, choice, cbs, next, now);
    ChainAppend(s0, choices0, s1, [choice], b.s, cbs, from, now);
    count := count0 + one;
  }

  /** How event_process_active_single_queue ends: every event of the queue has had its turn, or
      event_break or event_continue is set, or the callbacks are used up. */
  ghost predicate QueueDone(p: nat, choices: seq<Choice>, cbs: seq<Callback>, from: nat, count: int, cut: bool,
                            stop: bool, r: State)
  {
    (count < 0 <==> choices != [] && stop) && (count >= 0 ==> (count > 0 <==> AnyReal(choices))) &&
    (cut ==> from + |choices| == |cbs| && count >= 0) &&
    (!cut && count >= 0 ==> r.eventContinue || (p < |r.activequeues| && r.activequeues[p] == [])) &&
    (choices != [] ==> r == choices[|choices| - 1].after)
  }

  /** event_process_active_single_queue (libevent/event.c:1317-1370).  `cbs` says, from the place
      `from` on, what happens during each callback; the run is cut off when it is used up.  `choices`
      records the choice of each callback. */
  method ProcessQueue(b: Base, p: nat, cbs: seq<Callback>, from: nat, now: int)
    returns (count: int, cut: bool, next: nat, ghost choices: seq<Choice>)
    requires b.Valid() && p < |b.activequeues| && CallbacksOk(b.s, cbs) && from <= |cbs|
    requires b.runningPriority == p && NoneMoreUrgent(b.s, p) && !b.eventContinue && b.s.running == {}
    modifies b`eventCount, b`eventCountActive, b`eventqueue, b`activequeues, b`timeheap, b`lists, b`s
    modifies b`eventContinue, b`runningPriority, b`eventBreak, b`eventGotterm, b.s.events
    ensures b.Valid() && SameBase(old(b.s), b.s) && FairAt(choices, p, old(b.activequeues[p]))
    ensures Chain(old(b.s), choices, cbs, from, now, b.s) && next == from + |choices| <= |cbs|
    ensures QueueDone(p, choices, cbs, from, count, cut, b.eventBreak, b.s)
    ensures EndSet(old(b.eventBreak), old(b.eventGotterm), cbs, from, next, b.eventBreak, b.eventGotterm)
    ensures old(b.activequeues[p]) != [] ==> choices != [] || (cut && from == |cbs|)
    ensures count == 0 && !cut ==> NoneMoreUrgent(b.s, p + 1) && !b.eventContinue
  {
    hide Inv, Structure, PersistOk, StepOk, Chain, InsertedFlags, ActiveFlags, TimedFlags, ResFlags, Times, IoTimes;
    count, cut, next, choices := 0, false, from, [];
    ghost var s0, stop0, term0 := b.s, b.eventBreak, b.eventGotterm;
    ChainNone(s0, cbs, from, now);
    while b.activequeues[p] != []
      invariant from <= next <= |cbs| && b.Valid() && InQueue(s0, b.s, p, choices, count) && from + |choices| == next
      invariant Chain(s0, choices, cbs, from, now, b.s) && MayFollow(choices, cbs, from)
      invariant EndSet(stop0, term0, cbs, from, next, b.eventBreak, b.eventGotterm) && (choices != [] ==> !b.eventBreak)
      invariant NoneMoreUrgent(b.s, p) && !b.eventContinue
      decreases |cbs| - next
    {
      if next == |cbs| {
        cut := true;
        return;
      }
      count, choices := QueueTurn(b, p, cbs, from, next, now, count, s0, choices);
      EndSetOne(stop0, term0, cbs, from, next, b.eventBreak, b.eventGotterm);
      MayEnd(b, cbs[next].stop, cbs[next].term);
      next := next + 1;
      if b.eventBreak {
        count := -1;
        return;
      }
      if b.eventContinue {
        break;
      }
      NotStopped(stop0, term0, cbs, choices, from, b.eventGotterm);
    }
  }

  lemma {:induction false} PriorityKeeps(s: State, p: int, more: bool)
    requires Inv(s) && PersistOk(s) && (more || NoneMoreUrgent(s, p))
    ensures var r := s.(runningPriority := p, eventContinue := more); Inv(r) && PersistOk(r)
  {
    var r := s.(runningPriority := p, eventContinue := more);
    forall n | 0 <= n < |r.lists| ensures Driven(r, n) { assert Driven(s, n); }
  }

  method SetPriority(b: Base, p: int, more: bool)
    requires b.Valid() && (more || NoneMoreUrgent(b.s, p))
    modifies b`runningPriority, b`eventContinue, b`s
    ensures b.Valid() && b.s == old(b.s).(runningPriority := p, eventContinue := more)
  {
    PriorityKeeps(b.s, p, more);
    b.runningPriority, b.eventContinue := p, more;
    b.s := b.s.(runningPriority := p, eventContinue := more);
  }

  /** The base as before, but for the queues and flags. */
  ghost predicate SameEvents(s: State, r: State) {
    r.events == s.events && r.drivers == s.drivers && |r.lists| == |s.lists| && |r.activequeues| == |s.activequeues| &&
    r.running == s.running
  }

  lemma {:induction false} SameEventsTrans(s: State, a: State, r: State)
    requires SameEvents(s, a) && SameEvents(a, r)
    ensures SameEvents(s, r)
  {
  }

  lemma {:induction false} ChainFrom(s: State, a: State, choices: seq<Choice>, cbs: seq<Callback>, from: nat, now: int,
                                     r: State)
    requires Linked(s, a) && Chain(a, choices, cbs, from, now, r)
    ensures Chain(s, choices, cbs, from, now, r)
  {
    hide StepOk;
  }

  /** The active queue of priority `i`, if it is not empty (libevent/event.c:1412-1418). */
  method ProcessLevel(b: Base, i: nat, cbs: seq<Callback>, from: nat, now: int)
    returns (c: int, cut: bool, next: nat, ghost choices: seq<Choice>)
    requires b.Valid() && i < |b.activequeues| && CallbacksOk(b.s, cbs) && NoneMoreUrgent(b.s, i) && !b.eventContinue
    requires b.s.running == {} && from <= |cbs|
    modifies b`eventCount, b`eventCountActive, b`eventqueue, b`activequeues, b`timeheap, b`lists, b`s
    modifies b`eventContinue, b`runningPriority, b`eventBreak, b`eventGotterm, b.s.events
    ensures b.Valid() && SameEvents(old(b.s), b.s) && FairAt(choices, i, old(b.activequeues[i]))
    ensures Chain(old(b.s), choices, cbs, from, now, b.s) && next == from + |choices| <= |cbs|
    ensures QueueDone(i, choices, cbs, from, c, cut, b.eventBreak, b.s)
    ensures EndSet(old(b.eventBreak), old(b.eventGotterm), cbs, from, next, b.eventBreak, b.eventGotterm)
    ensures c == 0 && !cut ==> NoneMoreUrgent(b.s, i + 1) && !b.eventContinue
    ensures if old(b.activequeues[i]) == [] then choices == [] && b.s == old(b.s) && c == 0 && !cut
            else choices != [] || (cut && from == |cbs|)
  {
    hide Inv, Structure, PersistOk, Chain, CallsOk, InsertedFlags, ActiveFlags, TimedFlags, ResFlags, Times, IoTimes;
    c, cut, next, choices := 0, false, from, [];
    ChainNone(b.s, cbs, from, now);
    if b.activequeues[i] != [] {
      ghost var s0 := b.s;
      SetPriority(b, i, false);
      CallbacksStayOk(s0, b.s, cbs);
      ghost var s1 := b.s;
      c, cut, next, choices := ProcessQueue(b, i, cbs, from, now);
      ChainFrom(s0, s1, choices, cbs, from, now, b.s);
    }
  }

  /** The first callback is that of the first event of the most urgent queue that is not empty. */
  ghost predicate StartsUrgent(s: State, choices: seq<Choice>) {
    if choices == [] then NoneMoreUrgent(s, |s.activequeues|)
    else
      var p := choices[0].p;
      p < |s.activequeues| && s.activequeues[p] != [] && choices[0].ev == s.activequeues[p][0] && NoneMoreUrgent(s, p)
  }

  /** How the loop of event_process_active ends: `stop` says whether event_break is set. */
  ghost predicate LevelsDone(choices: seq<Choice>, cbs: seq<Callback>, c: int, stop: bool, r: State) {
    (c < 0 <==> choices != [] && stop) && (c >= 0 ==> (c > 0 <==> AnyReal(choices))) &&
    (|choices| < |cbs| && c == 0 ==> NoneMoreUrgent(r, |r.activequeues|)) &&
    (|choices| < |cbs| && c > 0 ==>
       r.eventContinue ||
       (choices != [] && var p := choices[|choices| - 1].p; p < |r.activequeues| && r.activequeues[p] == []))
  }

  /** Where that loop is. */
  ghost predicate AtLevel(s0: State, s: State, i: nat, choices: seq<Choice>, cbs: seq<Callback>, c: int, cut: bool,
                          stop: bool)
  {
    Fair(choices) && (c < 0 <==> choices != [] && stop) && (c >= 0 ==> (c > 0 <==> AnyReal(choices))) &&
    (c == 0 && !cut ==> NoneMoreUrgent(s, i) && !s.eventContinue) && (cut ==> |choices| == |cbs|) &&
    |choices| <= |cbs| &&
    (c == 0 && !cut && choices != [] ==> s == choices[|choices| - 1].after) &&
    (c > 0 && !cut ==>
       s.eventContinue ||
       (choices != [] && var p := choices[|choices| - 1].p; p < |s.activequeues| && s.activequeues[p] == [])) &&
    (cbs != [] ==> if choices == [] then s == s0 && c == 0 && !cut else StartsUrgent(s0, choices))
  }

  lemma {:induction false} LevelStep(s0: State, s1: State, s: State, i: nat, a: seq<Choice>, more: seq<Choice>,
                                     cbs: seq<Callback>, c: int, cut: bool, stop1: bool, stop: bool)
    requires AtLevel(s0, s1, i, a, cbs, 0, false, stop1) && i < |s1.activequeues| == |s.activequeues|
    requires FairAt(more, i, s1.activequeues[i]) && QueueDone(i, more, cbs, |a|, c, cut, stop, s)
    requires c == 0 && !cut ==> NoneMoreUrgent(s, i + 1) && !s.eventContinue
    requires if s1.activequeues[i] == [] then more == [] && s == s1 && c == 0 && !cut
             else more != [] || (cut && |a| == |cbs|)
    requires |a| + |more| <= |cbs| && (more == [] ==> stop == stop1)
    ensures AtLevel(s0, s, i + 1, a + more, cbs, c, cut, stop)
  {
    hide AnyReal;
    RealAppend(a, more);
    if more != [] {
      assert (a + more)[|a + more| - 1] == more[|more| - 1];
      assert (a + more)[0] == if a == [] then more[0] else a[0];
    } else {
      assert a + more == a;
    }
  }

  /** One turn of the loop of event_process_active (libevent/event.c:1411-1425). */
  method LevelTurn(b: Base, i: nat, cbs: seq<Callback>, from: nat, now: int, ghost s0: State,
                   ghost choices0: seq<Choice>, ghost stop0: bool, ghost term0: bool)
    returns (c: int, cut: bool, next: nat, ghost choices: seq<Choice>)
    requires b.Valid() && i < |b.activequeues| && CallbacksOk(s0, cbs) && SameEvents(s0, b.s) && b.s.running == {}
    requires from == |choices0| && AtLevel(s0, b.s, i, choices0, cbs, 0, false, b.eventBreak)
    requires Chain(s0, choices0, cbs, 0, now, b.s)
    requires EndSet(stop0, term0, cbs, 0, from, b.eventBreak, b.eventGotterm)
    modifies b`eventCount, b`eventCountActive, b`eventqueue, b`activequeues, b`timeheap, b`lists, b`s
    modifies b`eventContinue, b`runningPriority, b`eventBreak, b`eventGotterm, b.s.events
    ensures b.Valid() && SameEvents(s0, b.s) && next == |choices|
    ensures AtLevel(s0, b.s, i + 1, choices, cbs, c, cut, b.eventBreak)
    ensures Chain(s0, choices, cbs, 0, now, b.s)
    ensures EndSet(stop0, term0, cbs, 0, next, b.eventBreak, b.eventGotterm)
  {
    hide Inv, Structure, PersistOk, Chain, AnyReal, FairAt, QueueDone, CallsOk, InsertedFlags, ActiveFlags, TimedFlags,
      ResFlags, Times, IoTimes;
    ghost var s1, stop1, term1, more := b.s, b.eventBreak, b.eventGotterm, [];
    CallbacksStayOk(s0, s1, cbs);
    if choices0 != [] { NotStopped(stop0, term0, cbs, choices0, 0, term1); }
    c, cut, next, more := ProcessLevel(b, i, cbs, from, now);
    SameEventsTrans(s0, s1, b.s);
    LevelStep(s0, s1, b.s, i, choices0, more, cbs, c, cut, stop1, b.eventBreak);
    ChainAppend(s0, choices0, s1, more, b.s, cbs, 0, now);
    EndSetTrans(stop0, term0, cbs, 0, from, next, stop1, term1, b.eventBreak, b.eventGotterm);
    choices := choices0 + more;
  }

  /** The loop of event_process_active: the queues in turn, until one has had an event that is
      not internal (libevent/event.c:1411-1430). */
  method ProcessLevels(b: Base, cbs: seq<Callback>, now: int) returns (c: int, ghost choices: seq<Choice>)
    requires b.Valid() && CallbacksOk(b.s, cbs) && !b.eventContinue && b.s.running == {}
    modifies b`eventCount, b`eventCountActive, b`eventqueue, b`activequeues, b`timeheap, b`lists, b`s
    modifies b`eventContinue, b`runningPriority, b`eventBreak, b`eventGotterm, b.s.events
    ensures b.Valid() && SameEvents(old(b.s), b.s) && Fair(choices)
    ensures Chain(old(b.s), choices, cbs, 0, now, b.s) && LevelsDone(choices, cbs, c, b.eventBreak, b.s)
    ensures EndSet(old(b.eventBreak), old(b.eventGotterm), cbs, 0, |choices|, b.eventBreak, b.eventGotterm)
    ensures cbs != [] ==> StartsUrgent(old(b.s), choices)
  {
    hide Inv, Structure, PersistOk, Chain, CallsOk, InsertedFlags, ActiveFlags, TimedFlags, ResFlags, Times, IoTimes;
    ghost var s0, stop0, term0 := b.s, b.eventBreak, b.eventGotterm;
    choices, c := [], 0;
    ChainNone(s0, cbs, 0, now);
    var i, cut, next := 0, false, 0;
    while i < |b.activequeues| && c == 0 && !cut
      invariant 0 <= i && b.Valid() && SameEvents(s0, b.s) && next == |choices|
      invariant AtLevel(s0, b.s, i, choices, cbs, c, cut, b.eventBreak) && Chain(s0, choices, cbs, 0, now, b.s)
      invariant EndSet(stop0, term0, cbs, 0, next, b.eventBreak, b.eventGotterm)
      decreases |s0.activequeues| - i
    {
      c, cut, next, choices := LevelTurn(b, i, cbs, next, now, s0, choices, stop0, term0);
      i := i + 1;
    }
  }

  /** event_process_deferred_callbacks, as far as the base sees it (libevent/event.c:1380-1401). */
  method RunDeferred(b: Base, calls: seq<Call>, left: nat, stop: bool, now: int)
    requires b.Valid() && CallsOk(b.s, calls)
    modifies b`eventCount, b`eventCountActive, b`eventqueue, b`activequeues, b`timeheap, b`lists, b`s
    modifies b`eventContinue, b`deferredCount, b`eventBreak, b`eventGotterm, b.s.events
    ensures b.Valid() && SameBase(old(b.s), b.s) && CallsLead(old(b.s), calls, now, b.s) && b.deferredCount == left
    ensures b.eventBreak == (old(b.eventBreak) || stop) && b.eventGotterm == old(b.eventGotterm)
  {
    hide CallsLead, Inv, Structure, PersistOk, CallsOk, InsertedFlags, ActiveFlags, TimedFlags, ResFlags, Times,
      IoTimes;
    b.deferredCount := left;
    PerformAll(b, calls, now);
    MayEnd(b, stop, false);
  }

  /** After the queues the deferred callbacks run, unless event_break is set, and no priority is
      running any more. */
  ghost predicate DeferredDone(s: State, skipped: bool, deferred: seq<Call>, now: int, r: State) {
    if skipped then r == s.(runningPriority := -1)
    else r.runningPriority == -1 && CallsLead(s, deferred, now, r.(runningPriority := s.runningPriority))
  }

  /** event_process_active (libevent/event.c:1403-1435); `deferred` are the calls of the deferred
      callbacks, of which `left` remain, and `stop` says whether one of them breaks the loop. */
  method ProcessActive(b: Base, cbs: seq<Callback>, deferred: seq<Call>, left: nat, stop: bool, now: int)
    returns (c: int, ghost choices: seq<Choice>, ghost levels: State)
    requires b.Valid() && CallbacksOk(b.s, cbs) && CallsOk(b.s, deferred) && !b.eventContinue && b.s.running == {}
    modifies b`eventCount, b`eventCountActive, b`eventqueue, b`activequeues, b`timeheap, b`lists, b`s
    modifies b`eventContinue, b`runningPriority, b`eventBreak, b`eventGotterm, b`deferredCount, b.s.events
    ensures b.Valid() && SameEvents(old(b.s), b.s) && b.runningPriority == -1 && Fair(choices)
    ensures cbs != [] ==> StartsUrgent(old(b.s), choices)
    ensures Chain(old(b.s), choices, cbs, 0, now, levels)
    ensures LevelsDone(choices, cbs, c, old(b.eventBreak) || Stops(cbs, 0, |choices|), levels)
    ensures DeferredDone(levels, c < 0, deferred, now, b.s)
    ensures b.deferredCount == if c < 0 then old(b.deferredCount) else left
    ensures b.eventBreak == (old(b.eventBreak) || Stops(cbs, 0, |choices|) || (c >= 0 && stop))
    ensures b.eventGotterm == (old(b.eventGotterm) || Terms(cbs, 0, |choices|))
    ensures unchanged(b`virtualEventCount, b`eventTv)
  {
    hide Chain, LevelsDone, StartsUrgent, CallsLead, Inv, Structure, PersistOk, CallsOk, InsertedFlags, ActiveFlags,
      TimedFlags, ResFlags, Times, IoTimes;
    ghost var s0 := b.s;
    c, choices := ProcessLevels(b, cbs, now);
    levels := b.s;
    CallsStayOk'(s0, levels, deferred);
    if c >= 0 {
      RunDeferred(b, deferred, left, stop, now);
      SameEventsTrans(s0, levels, b.s);
    }
    ghost var s2 := b.s;
    SetPriority(b, -1, b.eventContinue);
    SameEventsTrans(s0, s2, b.s);
  }

  lemma {:induction false} CallsStayOk'(s: State, r: State, calls: seq<Call>)
    requires CallsOk(s, calls) && SameEvents(s, r)
    ensures CallsOk(r, calls)
  {
    forall i | 0 <= i < |calls| ensures IsUser(r, calls[i].ev) { assert IsUser(s, calls[i].ev); }
  }

  lemma {:induction false} CallbacksStayOk(s: State, r: State, cbs: seq<Callback>)
    requires CallbacksOk(s, cbs) && SameEvents(s, r)
    ensures CallbacksOk(r, cbs)
  {
    forall i | 0 <= i < |cbs| ensures CallsOk(r, cbs[i].before) && CallsOk(r, cbs[i].after) {
      CallsStayOk'(s, r, cbs[i].before);
      CallsStayOk'(s, r, cbs[i].after);
    }
  }

  // ---------------------------------------------------------------- the loop

  /** What happens around one turn of the loop: the clock readings, what the backend and other
      threads do during the dispatch, which may fail, the callbacks, and the deferred callbacks;
      `stop` and `deferredStop` say whether event_break is set in the dispatch and by a deferred
      callback. */
  datatype Turn = Turn(clock: int, asked: int, polled: int, dispatch: seq<Call>, fails: bool, stop: bool, now: int,
                       cbs: seq<Callback>, deferred: seq<Call>, left: nat, deferredStop: bool)

  /** Whether the loop goes on after a turn, and why not: it was told to end, nothing was left, the
      backend failed, or the flags asked for no more. */
  datatype End = Going | Told | Nothing | Failed | Enough

  ghost predicate TurnOk(s: State, turn: Turn) {
    CallsOk(s, turn.dispatch) && CallbacksOk(s, turn.cbs) && CallsOk(s, turn.deferred)
  }

  /** What the loop sees of the base. */
  datatype Look = Look(s: State, tv: int, virtualEvents: nat, deferred: nat, stop: bool, term: bool)

  ghost function LookOf(b: Base): Look
    reads b
  {
    Look(b.s, b.eventTv, b.virtualEventCount, b.deferredCount, b.eventBreak, b.eventGotterm)
  }

  /** Nothing is left that could ever run. */
  ghost predicate Idle(s: State, virtualEvents: nat, deferred: nat) {
    virtualEvents == 0 && deferred == 0 && s.active == {} && forall e :: e in s.inserted + s.timed ==> e.internal
  }

  ghost predicate NothingToRun(b: Base)
    reads b
  {
    Idle(b.s, b.virtualEventCount, b.deferredCount)
  }

  /** The wait is no longer than any timer allows, and none at all when something is active or the
      loop may not block. */
  ghost predicate RightWait(s: State, deferred: nat, clock: int, nonblock: bool, wait: Option<int>) {
    if nonblock || s.active != {} || deferred != 0 then wait == Some(0)
    else
      (wait == None <==> s.timed == {}) &&
      (wait.Some? ==>
         0 <= wait.value && (exists e :: e in s.timed && e in s.tv && s.tv[e].at <= clock + wait.value) &&
         forall e :: e in s.timed && e in s.tv ==> wait.value == 0 || clock + wait.value <= s.tv[e].at)
  }

  /** What the loop passes to the backend (libevent/event.c:1586-1595). */
  method NextWait(b: Base, clock: int, nonblock: bool) returns (wait: Option<int>)
    requires b.Valid() && b.s.running == {}
    ensures b.Valid() && RightWait(b.s, b.deferredCount, clock, nonblock, wait)
  {
    NoActive(b.s);
    wait := Some(0);
    if b.eventCountActive + b.deferredCount == 0 && !nonblock {
      wait := b.TimeoutNext(clock);
    }
  }

  /** When the clock has gone back since the last turn, every timer has moved by as much; no priority
      is running, and event_continue is not set. */
  ghost predicate IsReady(s: State, tv: int, clock: int, r: State) {
    r == (if clock >= tv then s else Corrected(s, tv - clock)).(runningPriority := -1, eventContinue := false)
  }

  /** The turn up to the dispatch (libevent/event.c:1576-1602): how long the backend may wait.
      `clock` and `asked` are the readings of timeout_correct and timeout_next. */
  method Prepare(b: Base, clock: int, asked: int, nonblock: bool) returns (wait: Option<int>, nothing: bool)
    requires b.Valid() && b.runningPriority == -1 && b.s.running == {}
    modifies b`runningPriority, b`eventContinue, b`eventTv, b`s, b.s.events`timeout
    ensures b.Valid() && b.runningPriority == -1 && !b.eventContinue && SameEvents(old(b.s), b.s)
    ensures nothing <==> NothingToRun(b)
    ensures RightWait(b.s, b.deferredCount, asked, nonblock, wait)
    ensures IsReady(old(b.s), old(b.eventTv), clock, b.s) && b.eventTv == clock && b.s.active == old(b.s.active)
    ensures unchanged(b`virtualEventCount, b`deferredCount, b`eventBreak, b`eventGotterm)
  {
    SetPriority(b, -1, false);
    b.TimeoutCorrect(clock);
    wait := NextWait(b, asked, nonblock);
    NothingLeftIsRight(b.s, b.virtualEventCount, b.deferredCount);
    nothing := !(b.virtualEventCount > 0 || b.eventCount > 0) && b.eventCountActive + b.deferredCount == 0;
  }

  /** The calls of the dispatch have been made, and exactly the due timers of the heap have timed out. */
  ghost predicate Polled(s: State, turn: Turn, r: State) {
    Inv(s) && PersistOk(s) && CallsOk(s, turn.dispatch) &&
    var called := CalledAll(s, turn.dispatch, turn.polled);
    if turn.fails then r == called
    else TimedOutAll(called, r, DueTimers(called, turn.now)) && DueTimers(r, turn.now) == {}
  }

  /** The backend waits and makes events active, other threads call, and the timers that are due
      time out (libevent/event.c:1604-1622). */
  method Dispatch(b: Base, turn: Turn)
    requires b.Valid() && b.runningPriority == -1 && !b.eventContinue && CallsOk(b.s, turn.dispatch)
    modifies b`eventCount, b`eventCountActive, b`eventqueue, b`activequeues, b`timeheap, b`lists, b`s
    modifies b`eventContinue, b`eventTv, b`eventBreak, b`eventGotterm, b.s.events
    ensures b.Valid() && b.runningPriority == -1 && !b.eventContinue && SameEvents(old(b.s), b.s)
    ensures Polled(old(b.s), turn, b.s) && b.eventTv == turn.polled
    ensures b.eventBreak == (old(b.eventBreak) || turn.stop) && b.eventGotterm == old(b.eventGotterm)
    ensures unchanged(b`virtualEventCount, b`deferredCount, b`eventGotterm)
  {
    hide Inv, Structure, PersistOk, CallsOk, InsertedFlags, ActiveFlags, TimedFlags, ResFlags, Times, IoTimes;
    b.eventTv := turn.polled;
    PerformAll(b, turn.dispatch, turn.polled);
    MayEnd(b, turn.stop, false);
    if !turn.fails {
      b.TimeoutProcess(turn.now);
    }
  }

  /** One turn of the loop: the base before and after it; when the backend may wait, and for how
      long; after the dispatch; the callbacks that were chosen; after the queues; and whether the loop
      goes on. */
  datatype Record = Record(before: Look, ready: State, wait: Option<int>, mid: State, choices: seq<Choice>,
                           levels: State, after: Look, end: End)

  /** The last of the callbacks has set event_break, or it was set before. */
  ghost predicate Broken(l: Record, turn: Turn) {
    l.choices != [] && (turn.stop || Stops(turn.cbs, 0, |l.choices|))
  }

  /** What event_process_active has done in a turn. */
  ghost predicate RunRight(l: Record, turn: Turn, once: bool) {
    (turn.cbs != [] ==> StartsUrgent(l.mid, l.choices)) &&
    Chain(l.mid, l.choices, turn.cbs, 0, turn.now, l.levels) &&
    LevelsDone(l.choices, turn.cbs, if Broken(l, turn) then -1 else if AnyReal(l.choices) then 1 else 0,
               turn.stop || Stops(turn.cbs, 0, |l.choices|), l.levels) &&
    DeferredDone(l.levels, Broken(l, turn), turn.deferred, turn.now, l.after.s) &&
    l.after.deferred == (if Broken(l, turn) then l.before.deferred else turn.left) &&
    l.after.stop == (turn.stop || Stops(turn.cbs, 0, |l.choices|) || (!Broken(l, turn) && turn.deferredStop)) &&
    l.after.term == Terms(turn.cbs, 0, |l.choices|) &&
    l.end == if once && l.after.s.active == {} && l.after.deferred == 0 && (Broken(l, turn) || AnyReal(l.choices))
             then Enough else Going
  }

  /** What a turn does, from the dispatch on. */
  ghost predicate DispatchRight(l: Record, turn: Turn, once: bool, nonblock: bool) {
    Polled(l.ready, turn, l.mid) && l.after.tv == turn.polled && l.after.virtualEvents == l.before.virtualEvents &&
    if turn.fails then
      l.end == Failed && l.choices == [] && l.after == l.before.(s := l.mid, tv := turn.polled, stop := turn.stop)
    else if l.mid.active == {} && l.before.deferred == 0 then
      l.end == (if nonblock then Enough else Going) && l.choices == [] &&
      l.after == l.before.(s := l.mid, tv := turn.polled, stop := turn.stop)
    else RunRight(l, turn, once)
  }

  /** What a turn does. */
  ghost predicate TurnRight(l: Record, turn: Turn, once: bool, nonblock: bool) {
    if l.before.stop || l.before.term then l.end == Told && l.choices == [] && l.after == l.before
    else
      IsReady(l.before.s, l.before.tv, turn.clock, l.ready) &&
      RightWait(l.ready, l.before.deferred, turn.asked, nonblock, l.wait) &&
      if Idle(l.ready, l.before.virtualEvents, l.before.deferred) then
        l.end == Nothing && l.choices == [] && l.after == l.before.(s := l.ready, tv := turn.clock)
      else DispatchRight(l, turn, once, nonblock)
  }

  /** Without an active event all queues are empty, and the other way round. */
  lemma {:induction false} IdleQueues(s: State)
    requires Structure(s)
    ensures s.active == {} <==> NoneMoreUrgent(s, |s.activequeues|)
  {
    if s.active == {} {
      forall p | 0 <= p < |s.activequeues| ensures s.activequeues[p] == [] {
        QueueHas(s, p);
        if s.activequeues[p] != [] { SomeElem(s.activequeues[p]); }
      }
    } else {
      var e :| e in s.active;
      QueueHas(s, e.pri);
    }
  }

  lemma {:induction false} CountIsRight(b: Base)
    requires b.Valid()
    ensures Structure(b.s) && (b.eventCountActive == 0 <==> b.s.active == {}) && b.eventCountActive >= 0
    ensures b.s.active == {} <==> NoneMoreUrgent(b.s, |b.s.activequeues|)
  {
    NoActive(b.s);
    IdleQueues(b.s);
  }

  /** With EVLOOP_ONCE the loop ends when a callback has run that is not internal, and nothing else
      is active. */
  ghost predicate EnoughDone(b: Base, choices: seq<Choice>)
    reads b
  {
    b.s.active == {} && b.deferredCount == 0 && (choices == [] || AnyReal(choices) || b.eventBreak)
  }

  /** The end of a turn in which something is active (libevent/event.c:1624-1630). */
  method RunTurn(b: Base, turn: Turn, once: bool, ghost l0: Record) returns (end: End, ghost l: Record)
    requires b.Valid() && b.runningPriority == -1 && !b.eventContinue && b.s.running == {}
    requires CallbacksOk(b.s, turn.cbs) && CallsOk(b.s, turn.deferred)
    requires !l0.before.term && LookOf(b) == l0.before.(s := l0.mid, tv := turn.polled, stop := turn.stop)
    modifies b, b.s.events
    ensures b.Valid() && b.runningPriority == -1 && SameEvents(old(b.s), b.s) && Fair(l.choices)
    ensures l == l0.(choices := l.choices, levels := l.levels, after := LookOf(b), end := end)
    ensures RunRight(l, turn, once) && l.after.tv == turn.polled && l.after.virtualEvents == l0.before.virtualEvents
    ensures turn.cbs != [] ==> StartsUrgent(old(b.s), l.choices)
    ensures end.Going? || end.Enough?
    ensures end.Enough? ==> once && EnoughDone(b, l.choices) && l.choices != []
  {
    hide Chain, StartsUrgent, DeferredDone, StepOk, Inv, Structure, PersistOk, CallsOk, InsertedFlags, ActiveFlags,
      TimedFlags, ResFlags, Times, IoTimes;
    var n;
    ghost var choices, levels := [], b.s;
    n, choices, levels := ProcessActive(b, turn.cbs, turn.deferred, turn.left, turn.deferredStop, turn.now);
    CountIsRight(b);
    end := if once && b.eventCountActive + b.deferredCount == 0 && n != 0 then Enough else Going;
    l := l0.(choices := choices, levels := levels, after := LookOf(b), end := end);
  }

  lemma {:induction false} CorrectedReady(s: State, off: int, p: int, more: bool)
    ensures Corrected(s.(runningPriority := p, eventContinue := more), off) ==
            Corrected(s, off).(runningPriority := p, eventContinue := more)
  {
    assert Corrected(s.(runningPriority := p, eventContinue := more), off).tv == Corrected(s, off).tv;
  }

  /** What was active stays active when nobody calls during the dispatch. */
  ghost predicate Urged(l: Record, turn: Turn) {
    l.before.s.active != {} && turn.dispatch == [] && turn.cbs != [] && !turn.fails && !l.end.Told?
  }

  lemma {:induction false} UrgedRuns(l: Record, turn: Turn, once: bool, nonblock: bool)
    requires TurnRight(l, turn, once, nonblock) && Urged(l, turn) && !l.end.Nothing? && Structure(l.mid)
    ensures l.choices != []
  {
    assert l.ready.active == l.before.s.active;
    assert l.mid.active != {};
    IdleQueues(l.mid);
  }

  /** One turn of event_base_loop (libevent/event.c:1570-1632). */
  method LoopTurn(b: Base, turn: Turn, once: bool, nonblock: bool) returns (end: End, ghost l: Record)
    requires b.Valid() && b.runningPriority == -1 && b.s.running == {} && TurnOk(b.s, turn)
    modifies b, b.s.events
    ensures b.Valid() && b.runningPriority == -1 && SameEvents(old(b.s), b.s) && Fair(l.choices)
    ensures l.before == old(LookOf(b)) && l.after == LookOf(b) && l.end == end && TurnRight(l, turn, once, nonblock)
    ensures old(b.eventGotterm || b.eventBreak) <==> end.Told?
    ensures end.Nothing? ==> NothingToRun(b)
    ensures turn.cbs != [] && (end.Going? || end.Enough?) ==> StartsUrgent(l.mid, l.choices)
    ensures end.Enough? ==> EnoughDone(b, l.choices) && if l.choices == [] then nonblock else once
    ensures old(b.s.active) != {} && turn.dispatch == [] && turn.cbs != [] && !turn.fails && !end.Told? ==>
              l.choices != []
  {
    hide RunRight, DispatchRight, IsReady, RightWait, SameBase, Inv, Structure, PersistOk, CallsOk, InsertedFlags,
      ActiveFlags, TimedFlags, ResFlags, Times, IoTimes;
    ghost var s0 := b.s;
    l := Record(LookOf(b), s0, None, s0, [], s0, LookOf(b), Told);
    if b.eventGotterm || b.eventBreak {
      return Told, l;
    }
    var wait, nothing := Prepare(b, turn.clock, turn.asked, nonblock);
    ghost var s1 := b.s;
    l := l.(ready := s1, wait := wait, mid := s1, levels := s1, after := LookOf(b), end := Nothing);
    if nothing {
      return Nothing, l;
    }
    TurnStaysOk(s0, s1, turn);
    end, l := FromDispatch(b, turn, once, nonblock, l);
    SameEventsTrans(s0, s1, b.s);
    if Urged(l, turn) { UrgedRuns(l, turn, once, nonblock); }
  }

  /** The turn from the dispatch on (libevent/event.c:1604-1632). */
  method FromDispatch(b: Base, turn: Turn, once: bool, nonblock: bool, ghost l0: Record)
    returns (end: End, ghost l: Record)
    requires b.Valid() && b.runningPriority == -1 && !b.eventContinue && b.s.running == {} && TurnOk(b.s, turn)
    requires LookOf(b) == l0.before.(s := l0.ready, tv := turn.clock) && !l0.before.stop && !l0.before.term
    modifies b, b.s.events
    ensures b.Valid() && b.runningPriority == -1 && SameEvents(old(b.s), b.s) && Fair(l.choices)
    ensures l == l0.(mid := l.mid, choices := l.choices, levels := l.levels, after := LookOf(b), end := end)
    ensures DispatchRight(l, turn, once, nonblock) && Structure(l.mid)
    ensures turn.cbs != [] && !turn.fails ==> StartsUrgent(l.mid, l.choices)
    ensures !end.Told? && !end.Nothing? && (end.Failed? <==> turn.fails)
    ensures end.Enough? ==> EnoughDone(b, l.choices) && if l.choices == [] then nonblock else once
  {
    hide RunRight, Polled, StepOk, Inv, Structure, PersistOk, CallsOk, InsertedFlags, ActiveFlags, TimedFlags, ResFlags,
      Times, IoTimes;
    ghost var s1 := b.s;
    Dispatch(b, turn);
    l := l0.(mid := b.s, choices := [], levels := b.s, after := LookOf(b), end := Failed);
    CountIsRight(b);
    if turn.fails {
      return Failed, l;
    }
    ghost var s2 := b.s;
    TurnStaysOk(s1, s2, turn);
    if b.eventCountActive + b.deferredCount > 0 {
      end, l := RunTurn(b, turn, once, l);
      SameEventsTrans(s1, s2, b.s);
    } else {
      end := if nonblock then Enough else Going;
      l := l.(end := end);
    }
  }

  /** The turns of a run, each from where the last one has ended, as long as the loop goes on. */
  ghost predicate Turns(l0: Look, log: seq<Record>, turns: seq<Turn>, once: bool, nonblock: bool, l1: Look)
    decreases |log|
  {
    if log == [] then l1 == l0
    else
      var n := |log| - 1;
      n < |turns| && TurnRight(log[n], turns[n], once, nonblock) && log[n].after == l1 &&
      (n > 0 ==> log[n - 1].end == Going) && Turns(l0, log[..n], turns, once, nonblock, log[n].before)
  }

  /** The callbacks that were chosen in all the turns. */
  ghost function AllChoices(log: seq<Record>): seq<Choice> {
    if log == [] then [] else AllChoices(log[..|log| - 1]) + log[|log| - 1].choices
  }

  /** Every turn of a run is right, and adds its callbacks to those of the run. */
  lemma {:induction false} TurnAdds(l0: Look, log: seq<Record>, turns: seq<Turn>, once: bool, nonblock: bool, l1: Look,
                                    i: nat)
    returns (first: seq<Choice>, last: seq<Choice>)
    requires Turns(l0, log, turns, once, nonblock, l1) && i < |log|
    ensures i < |turns| && TurnRight(log[i], turns[i], once, nonblock)
    ensures AllChoices(log) == first + log[i].choices + last
    decreases |log|
  {
    var n := |log| - 1;
    hide TurnRight;
    if i == n {
      first, last := AllChoices(log[..n]), [];
    } else {
      ghost var before := log[..n];
      assert before[i] == log[i];
      first, last := TurnAdds(l0, before, turns, once, nonblock, log[n].before, i);
      last := last + log[n].choices;
    }
  }

  /** What is known when the loop ends. */
  ghost predicate Ended(b: Base, end: End, once: bool, nonblock: bool, choices: seq<Choice>)
    reads b
  {
    (end.Told? ==> b.eventGotterm || b.eventBreak) && (end.Nothing? ==> NothingToRun(b)) &&
    (end.Enough? ==> (once || nonblock) && b.s.active == {} && b.deferredCount == 0) &&
    (end.Enough? && once && !nonblock && !b.eventBreak ==> AnyReal(choices))
  }

  lemma {:induction false} NoTurns(l0: Look, turns: seq<Turn>, once: bool, nonblock: bool)
    ensures Turns(l0, [], turns, once, nonblock, l0) && Fair(AllChoices([]))
  {
  }

  method AnotherTurn(b: Base, turns: seq<Turn>, i: nat, once: bool, nonblock: bool, ghost s0: State, ghost l0: Look,
                     ghost log0: seq<Record>)
    returns (end: End, ghost log: seq<Record>)
    requires i == |log0| < |turns| && TurnOk(s0, turns[i]) && b.Valid() && b.runningPriority == -1 && s0.running == {}
    requires SameEvents(s0, b.s) && Fair(AllChoices(log0)) && Turns(l0, log0, turns, once, nonblock, LookOf(b))
    requires log0 != [] ==> log0[|log0| - 1].end == Going
    modifies b, b.s.events
    ensures b.Valid() && b.runningPriority == -1 && SameEvents(s0, b.s) && |log| == i + 1 && log[..i] == log0
    ensures log[i].end == end && (Urged(log[i], turns[i]) ==> log[i].choices != [])
    ensures Fair(AllChoices(log)) && Turns(l0, log, turns, once, nonblock, LookOf(b))
    ensures Ended(b, end, once, nonblock, AllChoices(log))
  {
    hide DispatchRight, IsReady, RightWait, Inv, Structure, PersistOk, CallsOk, InsertedFlags, ActiveFlags, TimedFlags,
      ResFlags, Times, IoTimes;
    ghost var s1, l := b.s, Record(LookOf(b), s0, None, s0, [], s0, LookOf(b), Told);
    TurnStaysOk(s0, s1, turns[i]);
    end, l := LoopTurn(b, turns[i], once, nonblock);
    SameEventsTrans(s0, s1, b.s);
    log := log0 + [l];
    assert log[..|log| - 1] == log0;
    RealAppend(AllChoices(log0), l.choices);
  }

  /** event_base_loop for any number of turns: every callback is chosen from the most urgent queue
      that is not empty; a turn that begins with an active event runs a callback; the loop returns 1
      only when nothing is left that could ever run, and otherwise because it was told to, because
      the backend failed, or because the flags ask for no more and nothing is active
      (libevent/event.c:1536-1646).  `cut` says that the turns were used up. */
  method Loop(b: Base, turns: seq<Turn>, once: bool, nonblock: bool)
    returns (result: int, cut: bool, ghost log: seq<Record>)
    requires b.Valid() && b.runningPriority == -1 && b.s.running == {} &&
             forall i :: 0 <= i < |turns| ==> TurnOk(b.s, turns[i])
    modifies b, b.s.events
    ensures b.Valid() && b.s.running == {} && Fair(AllChoices(log)) && -1 <= result <= 1
    ensures |log| <= |turns| &&
            Turns(old(LookOf(b)).(stop := false, term := false), log, turns, once, nonblock, LookOf(b))
    ensures forall i :: 0 <= i < |log| && Urged(log[i], turns[i]) ==> log[i].choices != []
    ensures cut <==> |log| == |turns| && (log == [] || log[|log| - 1].end == Going)
    ensures !cut ==> log != [] && result == match log[|log| - 1].end case Nothing => 1 case Failed => -1 case _ => 0
    ensures result == 1 ==> NothingToRun(b)
    ensures result == 0 && !cut ==>
              b.eventGotterm || b.eventBreak || ((once || nonblock) && b.s.active == {} && b.deferredCount == 0)
    ensures result == 0 && !cut && once && !nonblock && !b.eventGotterm && !b.eventBreak ==> AnyReal(AllChoices(log))
  {
    hide Turns, Fair, Urged, TurnOk, AnyReal, Base.Valid;
    ghost var s0 := b.s;
    b.eventGotterm, b.eventBreak := false, false;
    ghost var l0 := LookOf(b);
    NoTurns(l0, turns, once, nonblock);
    log := [];
    var i, end := 0, Going;
    while i < |turns| && end == Going
      invariant i == |log| <= |turns| && b.Valid() && b.runningPriority == -1 && SameEvents(s0, b.s)
      invariant Fair(AllChoices(log)) && Turns(l0, log, turns, once, nonblock, LookOf(b))
      invariant forall k :: 0 <= k < |log| && Urged(log[k], turns[k]) ==> log[k].choices != []
      invariant if log == [] then end == Going else end == log[|log| - 1].end
      invariant Ended(b, end, once, nonblock, AllChoices(log))
      decreases |turns| - i
    {
      end, log := AnotherTurn(b, turns, i, once, nonblock, s0, l0, log);
      i := i + 1;
    }
    result := if end == Nothing then 1 else if end == Failed then -1 else 0;
    cut := end == Going;
  }

  lemma {:induction false} TurnStaysOk(s: State, r: State, turn: Turn)
    requires TurnOk(s, turn) && SameEvents(s, r)
    ensures TurnOk(r, turn)
  {
    CallsStayOk'(s, r, turn.dispatch);
    CallbacksStayOk(s, r, turn.cbs);
    CallsStayOk'(s, r, turn.deferred);
  }
}
