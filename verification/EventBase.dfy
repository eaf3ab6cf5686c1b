/** The event base of libevent/event.c: its queues and counters, and the calls that update them. */
module EventBase {
  import opened EventShape
  import opened EventState
  import opened EventLaws

  // The fields of the events.

  ghost predicate InsertedFlags(events: set<Event>, inserted: set<Event>)
    reads events`inserted
  {
    forall e {:trigger e.inserted} :: e in events ==> e.inserted == (e in inserted)
  }

  ghost predicate ActiveFlags(events: set<Event>, active: set<Event>)
    reads events`active
  {
    forall e {:trigger e.active} :: e in events ==> e.active == (e in active)
  }

  ghost predicate TimedFlags(events: set<Event>, timed: set<Event>)
    reads events`timed
  {
    forall e {:trigger e.timed} :: e in events ==> e.timed == (e in timed)
  }

  ghost predicate ResFlags(events: set<Event>, resTimeout: set<Event>)
    reads events`resTimeout
  {
    forall e {:trigger e.resTimeout} :: e in events ==> e.resTimeout == (e in resTimeout)
  }

  ghost predicate Times(events: set<Event>, tv: map<Event, Timeval>)
    reads events`timeout
  {
    forall e {:trigger e.timeout} :: e in events && e in tv ==> e.timeout == tv[e]
  }

  ghost predicate IoTimes(events: set<Event>, ioTv: map<Event, Timeval>)
    reads events`ioTimeout
  {
    forall e {:trigger e.ioTimeout} :: e in events && e in ioTv ==> e.ioTimeout == ioTv[e]
  }

  const MAX_COMMON_TIMEOUTS := 256

  class Base {
    /** The queues.  The heap of timeouts is its set of events here; the module MinHeap has the
        heap itself.  The common timeouts are `lists`, with their internal events `drivers`. */
    var eventqueue: seq<Event>
    var activequeues: seq<seq<Event>>
    var timeheap: set<Event>
    var lists: seq<seq<Event>>
    var drivers: seq<Event>
    var durations: seq<int>
    var eventCount: int
    var eventCountActive: int
    var virtualEventCount: nat
    var deferredCount: nat
    var runningPriority: int
    var eventContinue: bool
    var eventTv: int
    /** event_break and event_gotterm: event_base_loopbreak and event_base_loopexit. */
    var eventBreak: bool
    var eventGotterm: bool
    ghost var s: State

    /** The fields of the base. */
    ghost predicate FieldsOk()
      reads this`s, this`eventqueue, this`activequeues, this`timeheap, this`lists, this`drivers,
            this`eventCount, this`eventCountActive, this`runningPriority, this`eventContinue
    {
      eventqueue == s.eventqueue && activequeues == s.activequeues && timeheap == s.timeheap && lists == s.lists &&
      drivers == s.drivers && eventCount == s.eventCount && eventCountActive == s.eventCountActive &&
      runningPriority == s.runningPriority && eventContinue == s.eventContinue
    }

    ghost predicate Repr()
      reads this`s, this`eventqueue, this`activequeues, this`timeheap, this`lists, this`drivers,
            this`eventCount, this`eventCountActive, this`runningPriority, this`eventContinue, s.events
    {
      FieldsOk() &&
      InsertedFlags(s.events, s.inserted) && ActiveFlags(s.events, s.active) && TimedFlags(s.events, s.timed) &&
      ResFlags(s.events, s.resTimeout) && Times(s.events, s.tv) && IoTimes(s.events, s.ioTv)
    }

    ghost predicate Valid()
      reads this`s, this`eventqueue, this`activequeues, this`timeheap, this`lists, this`drivers,
            this`eventCount, this`eventCountActive, this`runningPriority, this`eventContinue, s.events
    {
      Repr() && Inv(s) && PersistOk(s)
    }

    /** event_base_new, with `priorities` active queues (libevent/event.c:550-661). */
    constructor (priorities: nat, now: int)
      ensures Valid() && s.events == {} && lists == [] && |activequeues| == priorities && runningPriority == -1
      ensures eventCount == 0 && eventCountActive == 0
    {
      eventqueue, timeheap, lists, drivers, durations := [], {}, [], [], [];
      activequeues := seq(priorities, i => []);
      eventCount, eventCountActive, virtualEventCount, deferredCount := 0, 0, 0, 0;
      runningPriority, eventContinue, eventTv := -1, false, now;
      eventBreak, eventGotterm := false, false;
      s := State({}, {}, {}, {}, map[], map[], {}, [], seq(priorities, i => []), {}, [], [], 0, 0, {}, -1, false);
      new;
      AllEmpty(s.activequeues);
    }

    /** event_assign: `ev` becomes an event of this base (libevent/event.c:1717-1781). */
    method Assign(ev: Event)
      requires Valid() && ev !in s.events && ev.pri < |activequeues| && (ev.internal ==> ev.pri == 0)
      requires !ev.inserted && !ev.active && !ev.timed && !ev.resTimeout
      requires ev.timeout.queue == -1 && !Runs(ev.ioTimeout)
      modifies this`s
      ensures Valid() && s == Assigned(old(s), ev, ev.timeout, ev.ioTimeout)
      ensures s.events == old(s.events) + {ev} && OthersKept(old(s), s, ev)
      ensures s.inserted == old(s.inserted) && s.active == old(s.active) && s.timed == old(s.timed)
    {
      hide OthersKept, Inv, PersistOk;
      AssignedDoes(s, ev, ev.timeout, ev.ioTimeout);
      AssignedKeeps(s, ev, ev.timeout, ev.ioTimeout);
      s := Assigned(s, ev, ev.timeout, ev.ioTimeout);
    }

    /** event_base_init_common_timeout (libevent/event.c:1182-1259): the queue for the duration,
        a new one unless there is one, or -1 when there are too many. */
    method InitCommonTimeout(duration: int) returns (n: int)
      requires Valid() && |durations| == |lists| && |activequeues| > 0
      modifies this`s, this`lists, this`drivers, this`durations
      ensures Valid() && |durations| == |lists| && old(durations) <= durations
      ensures if n < 0 then n == -1 && duration !in durations && |durations| == MAX_COMMON_TIMEOUTS && s == old(s)
              else n < |durations| && durations[n] == duration
      ensures duration in old(durations) ==> s == old(s)
      ensures n >= 0 && duration !in old(durations) ==>
                n == |old(durations)| && lists == old(lists) + [[]] && |drivers| == |old(drivers)| + 1
    {
      n := 0;
      while n < |durations|
        invariant n <= |durations| && duration !in durations[..n]
      {
        if durations[n] == duration {
          return;
        }
        n := n + 1;
      }
      if |durations| == MAX_COMMON_TIMEOUTS {
        n := -1;
        return;
      }
      NewList();
      durations := durations + [duration];
    }

    /** The new list and its driver (libevent/event.c:1231-1249). */
    method NewList()
      requires Valid() && |activequeues| > 0
      modifies this`s, this`lists, this`drivers
      ensures Valid() && lists == old(lists) + [[]] && |drivers| == |old(drivers)| + 1
    {
      var driver := new Event(true, false, false, false, 0);
      Assign(driver);
      AddList(driver);
    }

    /** The new list (libevent/event.c:1231-1249). */
    method AddList(driver: Event)
      requires Valid() && IsUser(s, driver) && driver.timeout.queue == -1
      requires driver.internal && !driver.io && !driver.persist && !driver.persistClosure && driver.pri == 0
      modifies this`s, this`lists, this`drivers
      ensures Valid() && s == WithList(old(s), driver)
    {
      WithListKeeps(s, driver);
      lists := lists + [[]];
      drivers := drivers + [driver];
      s := WithList(s, driver);
    }

    // ------------------------------------------------------------ queues

    /** event_queue_insert into the queue of inserted events (libevent/event.c:2573-2597). */
    method QueueInserted(ev: Event)
      requires Repr() && ev in s.events && !ev.inserted
      modifies this`eventCount, this`eventqueue, this`s, ev`inserted
      ensures Repr() && s == InsertInserted(old(s), ev)
    {
      eventCount := eventCount + Weight(ev);
      ev.inserted := true;
      eventqueue := eventqueue + [ev];
      s := InsertInserted(s, ev);
    }

    /** event_queue_remove from the queue of inserted events (libevent/event.c:2503-2524). */
    method DequeueInserted(ev: Event)
      requires Repr() && ev in s.events && ev.inserted
      modifies this`eventCount, this`eventqueue, this`s, ev`inserted
      ensures Repr() && s == RemoveInserted(old(s), ev)
    {
      eventCount := eventCount - Weight(ev);
      ev.inserted := false;
      eventqueue := Removed(eventqueue, ev);
      s := RemoveInserted(s, ev);
    }

    /** event_queue_insert into the active queue of its priority (libevent/event.c:2573-2602),
        with the check for a more urgent event before it (libevent/event.c:2308-2309). */
    method QueueActive(ev: Event)
      requires Repr() && ev in s.events && !ev.active && ev.pri < |activequeues|
      modifies this`eventCount, this`eventCountActive, this`activequeues, this`eventContinue, this`s, ev`active
      ensures Repr() && s == InsertActive(old(s), ev)
    {
      eventContinue := eventContinue || ev.pri < runningPriority;
      eventCount := eventCount + Weight(ev);
      ev.active := true;
      eventCountActive := eventCountActive + 1;
      activequeues := activequeues[ev.pri := activequeues[ev.pri] + [ev]];
      s := InsertActive(s, ev);
    }

    /** event_queue_remove from its active queue (libevent/event.c:2503-2529). */
    method DequeueActive(ev: Event)
      requires Repr() && ev in s.events && ev.active && ev.pri < |activequeues|
      modifies this`eventCount, this`eventCountActive, this`activequeues, this`s, ev`active
      ensures Repr() && s == RemoveActive(old(s), ev)
    {
      eventCount := eventCount - Weight(ev);
      ev.active := false;
      eventCountActive := eventCountActive - 1;
      activequeues := activequeues[ev.pri := Removed(activequeues[ev.pri], ev)];
      s := RemoveActive(s, ev);
    }

    /** event_queue_remove of a timer (libevent/event.c:2503-2539). */
    method DequeueTimeout(ev: Event)
      requires Repr() && ev in s.events && ev.timed && ev.timeout.queue < |lists| && ev in s.tv
      modifies this`eventCount, this`timeheap, this`lists, this`s, ev`timed
      ensures Repr() && s == RemoveTimeout(old(s), ev)
    {
      eventCount := eventCount - Weight(ev);
      ev.timed := false;
      var n := ev.timeout.queue;
      if n >= 0 {
        lists := lists[n := Removed(lists[n], ev)];
      } else {
        timeheap := timeheap - {ev};
      }
      s := RemoveTimeout(s, ev);
    }

    /** The search of insert_common_timeout_inorder, from the end of the list
        (libevent/event.c:2543-2571). */
    method FindPlace(n: nat, at: int) returns (k: nat)
      requires Repr() && n < |lists| && forall e :: e in lists[n] ==> e in s.events && e in s.tv
      ensures Repr() && k == Place(lists[n], s.tv, at)
    {
      ghost var q := lists[n];
      k := |lists[n]|;
      assert q[..k] == q;
      while k > 0 && !(at >= lists[n][k - 1].timeout.at)
        invariant k <= |q| && (forall e :: e in q[..k] ==> e in s.tv) && Place(q, s.tv, at) == Place(q[..k], s.tv, at)
      {
        assert q[..k][..k - 1] == q[..k - 1] && lists[n][k - 1] in q;
        k := k - 1;
      }
    }

    /** The time of `ev` is set and the timer inserted (libevent/event.c:2142-2156 and 2573-2613). */
    method QueueTimeout(ev: Event, t: Timeval)
      requires Repr() && ev in s.events && !ev.timed && -1 <= t.queue < |lists|
      requires t.queue >= 0 ==> forall e :: e in lists[t.queue] ==> e in s.events && e in s.tv
      modifies this`eventCount, this`timeheap, this`lists, this`s, ev`timed, ev`timeout
      ensures Repr() && s == InsertTimeout(old(s), ev, t)
    {
      var n, k := t.queue, 0;
      if n >= 0 {
        k := FindPlace(n, t.at);
      }
      ev.timeout := t;
      eventCount := eventCount + Weight(ev);
      ev.timed := true;
      if n >= 0 {
        lists := lists[n := lists[n][..k] + [ev] + lists[n][k..]];
      } else {
        timeheap := timeheap + {ev};
      }
      s := InsertTimeout(s, ev, t);
    }

    // ------------------------------------------------------------ calls

    /** The timer of `ev` goes, if there is one (libevent/event.c:2115-2120 and 2229-2238). */
    method DropTimer(ev: Event)
      requires Repr() && Structure(s) && ev in s.events
      modifies this`eventCount, this`timeheap, this`lists, this`s, ev`timed
      ensures Repr() && s == WithoutTimer(old(s), ev)
    {
      InRange(s, ev);
      if ev.timed {
        DequeueTimeout(ev);
      }
    }

    /** `ev` leaves its active queue, if it is in one (libevent/event.c:2125-2140 and 2240-2241). */
    method DropActive(ev: Event)
      requires Repr() && Structure(s) && ev in s.events
      modifies this`eventCount, this`eventCountActive, this`activequeues, this`s, ev`active
      ensures Repr() && s == WithoutActive(old(s), ev)
    {
      InRange(s, ev);
      if ev.active {
        DequeueActive(ev);
      }
    }

    /** The part of event_add_internal that sets a timer (libevent/event.c:2115-2156). */
    method SetTimer(ev: Event, t: Timeval)
      requires Repr() && Structure(s) && ev in s.events && -1 <= t.queue < |lists|
      modifies this`eventCount, this`eventCountActive, this`activequeues, this`timeheap, this`lists, this`s
      modifies ev`active, ev`timed, ev`timeout
      ensures Repr() && s == AddTimer(old(s), ev, t)
    {
      DropTimer(ev);
      if ev.resTimeout {
        DropActive(ev);
      }
      if t.queue >= 0 { ListedTimed(s, t.queue); }
      QueueTimeout(ev, t);
    }

    /** common_timeout_schedule (libevent/event.c:1141-1152).  The driver waits for no input, so
        event_add_internal comes down to its timer. */
    method CommonTimeoutSchedule(n: nat, driver: Event)
      requires Repr() && Structure(s) && n < |lists| && lists[n] != [] && n < |drivers| && driver == drivers[n]
      modifies this`eventCount, this`eventCountActive, this`activequeues, this`timeheap, this`lists, this`s
      modifies driver`active, driver`timed, driver`timeout
      ensures Repr() && s == Scheduled(old(s), n)
    {
      FirstTimed(s, n);
      SetTimer(driver, Timeval(lists[n][0].timeout.at, -1));
    }

    /** ev_io_timeout is remembered (libevent/event.c:2107-2113). */
    method KeepInterval(ev: Event, t: Timeval)
      requires Repr() && ev in s.events
      modifies this`s, ev`ioTimeout
      ensures Repr() && s == WithInterval(old(s), ev, t)
    {
      ev.ioTimeout := t;
      s := WithInterval(s, ev, t);
    }

    /** The timer part of event_add_internal, and the schedule of the common timeout if `ev` is
        now the first of its list (libevent/event.c:2115-2163). */
    method SetTimerAndSchedule(ev: Event, t: Timeval)
      requires Repr() && Inv(s) && IsUser(s, ev) && -1 <= t.queue < |lists|
      modifies this`eventCount, this`eventCountActive, this`activequeues, this`timeheap, this`lists, this`s, s.events
      ensures Repr()
      ensures var b, n := AddTimer(old(s), ev, t), t.queue;
        n < |b.lists| && Structure(b) && (n >= 0 ==> b.lists[n] != []) &&
        s == if n >= 0 && b.lists[n][0] == ev then Scheduled(b, n) else b
    {
      AddTimerKeeps(s, ev, t, -1);
      SetTimer(ev, t);
      var n := t.queue;
      if n >= 0 && lists[n][0] == ev {
        FirstTimed(s, n);
        CommonTimeoutSchedule(n, drivers[n]);
      }
    }

    /** The queue operations of event_add_internal (libevent/event.c:2079-2163); the call into
        evmap is assumed to succeed. */
    method EventAddAt(ev: Event, at: Option<Timeval>)
      requires Repr() && Inv(s) && IsUser(s, ev) && (at.Some? ==> -1 <= at.value.queue < |lists|)
      modifies this`eventCount, this`eventCountActive, this`eventqueue, this`activequeues, this`timeheap, this`lists,
               this`s
      modifies s.events
      ensures Repr() && s == AddEvent(old(s), ev, at)
    {
      WithInsertedKeeps(s, ev, -1);
      if ev.io && !ev.inserted && !ev.active {
        QueueInserted(ev);
      }
      if at.Some? {
        SetTimerAndSchedule(ev, at.value);
      }
    }

    /** event_add_internal (libevent/event.c:2024-2171). */
    method EventAdd(ev: Event, tv: Option<Timeval>, absolute: bool, now: int)
      requires Valid() && IsUser(s, ev) && (tv.Some? ==> -1 <= tv.value.queue < |lists|)
      requires tv.Some? && absolute && ev.persistClosure && Runs(s.ioTv[ev]) ==> s.ioTv[ev].queue == tv.value.queue
      modifies this`eventCount, this`eventCountActive, this`eventqueue, this`activequeues, this`timeheap, this`lists,
               this`s
      modifies s.events
      ensures Valid() && s == Added(old(s), ev, tv, absolute, now)
      ensures tv.Some? ==>
                ev.timed && ev.timeout == if absolute then tv.value else Timeval(now + tv.value.at, tv.value.queue)
      ensures tv.None? ==> ev.timed == old(ev.timed) && ev.timeout == old(ev.timeout)
      ensures ev.ioTimeout == if tv.Some? && ev.persistClosure && !absolute then tv.value else old(ev.ioTimeout)
      ensures ev.inserted == (old(ev.inserted) || (ev.io && !old(ev.active)))
      ensures ev.active == (old(ev.active) && !(tv.Some? && old(ev.resTimeout)))
      ensures OthersKept(old(s), s, ev) && OnlyKept(old(s), s)
    {
      AddedKeeps(s, ev, tv, absolute, now);
      AddedDoes(s, ev, tv, absolute, now);
      AddedInOrder(s, ev, tv, absolute, now);
      RememberedKeeps(s, ev, tv, absolute);
      EventAddInternal(ev, tv, absolute, now);
    }

    method EventAddInternal(ev: Event, tv: Option<Timeval>, absolute: bool, now: int)
      requires Repr() && Inv(s) && IsUser(s, ev) && (tv.Some? ==> -1 <= tv.value.queue < |lists|)
      modifies this`eventCount, this`eventCountActive, this`eventqueue, this`activequeues, this`timeheap, this`lists,
               this`s
      modifies s.events
      ensures Repr() && s == Added(old(s), ev, tv, absolute, now)
    {
      RememberedKeeps(s, ev, tv, absolute);
      if tv.Some? && ev.persistClosure && !absolute {
        KeepInterval(ev, tv.value);
      }
      EventAddAt(ev, TimeSet(tv, absolute, now));
    }

    /** The queue operations of event_del_internal (libevent/event.c:2229-2252). */
    method EventDelete(ev: Event)
      requires Repr() && Structure(s) && ev in s.events
      modifies this`eventCount, this`eventCountActive, this`eventqueue, this`activequeues, this`timeheap, this`lists,
               this`s
      modifies ev`inserted, ev`active, ev`timed
      ensures Repr() && s == DelEvent(old(s), ev)
    {
      DropTimer(ev);
      DropActive(ev);
      if ev.inserted {
        DequeueInserted(ev);
      }
    }

    /** event_del_internal (libevent/event.c:2191-2259). */
    method EventDel(ev: Event)
      requires Valid() && IsUser(s, ev)
      modifies this`eventCount, this`eventCountActive, this`eventqueue, this`activequeues, this`timeheap, this`lists,
               this`s
      modifies ev`inserted, ev`active, ev`timed
      ensures Valid() && s == DelEvent(old(s), ev)
      ensures !ev.inserted && !ev.active && !ev.timed && OthersKept(old(s), s, ev) && OnlyKept(old(s), s)
    {
      DelEventKeeps(s, ev, -1);
      DeletedDoes(s, ev);
      DeletedInOrder(s, ev);
      EventDelete(ev);
    }

    /** The queue operations of event_active_nolock (libevent/event.c:2291-2324). */
    method EventActivate(ev: Event, timeout: bool)
      requires Repr() && Structure(s) && ev in s.events
      modifies this`eventCount, this`eventCountActive, this`activequeues, this`eventContinue, this`s
      modifies ev`active, ev`resTimeout
      ensures Repr() && s == Activate(old(s), ev, timeout)
    {
      InRange(s, ev);
      if ev.active {
        SetRes(ev, ev.resTimeout || timeout);
        return;
      }
      SetRes(ev, timeout);
      QueueActive(ev);
    }

    /** Whether ev_res has EV_TIMEOUT. */
    method SetRes(ev: Event, timeout: bool)
      requires Repr() && ev in s.events
      modifies this`s, ev`resTimeout
      ensures Repr() && s == old(s).(resTimeout := if timeout then old(s).resTimeout + {ev}
              else old(s).resTimeout - {ev})
    {
      ev.resTimeout := timeout;
      s := s.(resTimeout := if timeout then s.resTimeout + {ev} else s.resTimeout - {ev});
    }

    /** event_active_nolock (libevent/event.c:2283-2328). */
    method EventActive(ev: Event, timeout: bool)
      requires Valid() && IsUser(s, ev)
      modifies this`eventCount, this`eventCountActive, this`activequeues, this`eventContinue, this`s
      modifies ev`active, ev`resTimeout
      ensures Valid() && s == Activate(old(s), ev, timeout)
      ensures ev.active && ev.resTimeout == (timeout || (old(ev.active) && old(ev.resTimeout)))
      ensures ev.inserted == old(ev.inserted) && ev.timed == old(ev.timed) && OthersKept(old(s), s, ev)
      ensures InOrder(old(s), s) && |activequeues| == |old(activequeues)| && ev.pri < |activequeues|
      ensures !old(ev.active) ==> activequeues[ev.pri] == old(activequeues)[ev.pri] + [ev]
    {
      ActivateKeeps(s, ev, timeout, -1);
      ActivatedDoes(s, ev, timeout);
      ActivatedInOrder(s, ev, timeout);
      EventActivate(ev, timeout);
    }

    // ------------------------------------------------------------ timeouts

    /** A timer has expired: the event is deleted and made active (libevent/event.c:1171-1172
        and 2491-2495). */
    method TimeOut(ev: Event)
      requires Repr() && Structure(s) && ev in s.events
      modifies this`eventCount, this`eventCountActive, this`eventqueue, this`activequeues, this`timeheap, this`lists,
               this`s
      modifies this`eventContinue, ev`inserted, ev`active, ev`timed, ev`resTimeout
      ensures Repr() && s == TimedOut(old(s), ev)
    {
      EventDelete(ev);
      EventActivate(ev, true);
    }

    /** One turn of the loop of common_timeout_callback. */
    method ExpireFirst(n: nat, ghost now: int)
      requires Repr() && Structure(s) && n < |lists| && lists[n] != []
      requires lists[n][0] in s.tv && s.tv[lists[n][0]].at <= now
      modifies this`eventCount, this`eventCountActive, this`eventqueue, this`activequeues, this`timeheap, this`lists,
               this`s
      modifies this`eventContinue, s.events
      ensures Repr() && Structure(s) && s.events == old(s.events) && |lists| == old(|lists|)
      ensures Expired(s, n, now) == Expired(old(s), n, now) && |lists[n]| < old(|lists[n]|)
    {
      FirstTimed(s, n);
      DelFirst(s, n);
      TimeOut(lists[n][0]);
    }

    /** The loop of common_timeout_callback (libevent/event.c:1166-1174). */
    method ExpireList(n: nat, now: int)
      requires Repr() && Structure(s) && n < |lists|
      modifies this`eventCount, this`eventCountActive, this`eventqueue, this`activequeues, this`timeheap, this`lists,
               this`s
      modifies this`eventContinue, s.events
      ensures Repr() && s == Expired(old(s), n, now)
    {
      ghost var s0 := s;
      while lists[n] != [] && lists[n][0].timeout.at <= now
        invariant Repr() && Structure(s) && s.events == s0.events && n < |lists|
        invariant Expired(s, n, now) == Expired(s0, n, now)
        decreases |lists[n]|
      {
        FirstTimed(s, n);
        ExpireFirst(n, now);
      }
      if lists[n] != [] { FirstTimed(s, n); }
    }

    /** The due events of the list at `n` become active, and its driver is set to the first of
        the others (libevent/event.c:1166-1176). */
    method HandleCommonTimeout(n: nat, driver: Event, now: int)
      requires Repr() && Structure(s) && n < |lists| && driver == drivers[n]
      modifies this`eventCount, this`eventCountActive, this`eventqueue, this`activequeues, this`timeheap, this`lists,
               this`s
      modifies this`eventContinue, s.events
      ensures Repr() && s == Handled(old(s), n, now)
    {
      ExpireList(n, now);
      if lists[n] != [] {
        FirstTimed(s, n);
        CommonTimeoutSchedule(n, driver);
      }
    }

    /** common_timeout_callback (libevent/event.c:1157-1178) for the list at `n`. */
    method CommonTimeoutCallback(n: nat, driver: Event, now: int)
      requires Valid() && n < |lists| && driver == drivers[n]
      modifies this`eventCount, this`eventCountActive, this`eventqueue, this`activequeues, this`timeheap, this`lists,
               this`s
      modifies this`eventContinue, s.events
      ensures Valid() && s == CommonCallback(old(s), n, now) && ExpiryDone(old(s), s, n, now)
    {
      CommonCallbackDoes(s, n, now);
      CommonCallbackKeeps(s, n, now);
      CommonCallbackPersists(s, n, now);
      HandleCommonTimeout(n, driver, now);
      MarkStopped(driver);
    }

    /** The callback of `ev` is no longer running. */
    ghost method MarkStopped(ev: Event)
      requires Repr()
      modifies this`s
      ensures Repr() && s == Stopped(old(s), ev)
    {
      s := Stopped(s, ev);
    }

    /** min_heap_top: a least event of the heap, any one of them. */
    method HeapTop() returns (ev: Event?)
      requires Repr() && Structure(s)
      ensures Repr() && (ev == null <==> timeheap == {})
      ensures ev != null ==> ev in timeheap && ev in s.events && forall x :: x in timeheap ==> s.tv[ev].at <= s.tv[x].at
    {
      ev := null;
      var rest := timeheap;
      while rest != {}
        invariant Repr() && rest <= timeheap && (ev == null <==> rest == timeheap)
        invariant ev != null ==> ev in timeheap && ev in s.events
        invariant ev != null ==> forall x :: x in timeheap && x !in rest ==> s.tv[ev].at <= s.tv[x].at
        decreases |rest|
      {
        var x :| x in rest;
        HeapTimed(s, x);
        rest := rest - {x};
        if ev == null || x.timeout.at < ev.timeout.at {
          ev := x;
        }
      }
    }

    /** timeout_next (libevent/event.c:2380-2415): how long the backend may wait, not at all longer
        than any timer of the base, in the heap or in a common timeout; nothing when there is no
        timer. */
    method TimeoutNext(now: int) returns (wait: Option<int>)
      requires Valid() && s.running == {} && s.active == {}
      ensures Valid() && (wait == None <==> s.timed == {})
      ensures wait.Some? ==> 0 <= wait.value
      ensures wait.Some? ==> forall e :: e in s.timed ==> wait.value == 0 || now + wait.value <= s.tv[e].at
      ensures wait.Some? ==> exists e :: e in s.timed && s.tv[e].at <= now + wait.value
    {
      var ev := HeapTop();
      forall e | e in s.timed ensures ev != null && s.tv[ev].at <= s.tv[e].at {
        var d := EarliestInHeap(s, e);
      }
      if ev == null {
        return None;
      }
      HeapTimed(s, ev);
      wait := Some(if ev.timeout.at <= now then 0 else ev.timeout.at - now);
    }

    /** timeout_process (libevent/event.c:2477-2500): exactly the timers of the heap that are due
        have timed out. */
    method TimeoutProcess(now: int)
      requires Valid()
      modifies this`eventCount, this`eventCountActive, this`eventqueue, this`activequeues, this`timeheap, this`lists,
               this`s
      modifies this`eventContinue, s.events
      ensures Valid() && TimedOutAll(old(s), s, DueTimers(old(s), now)) && DueTimers(s, now) == {}
      ensures forall e :: e in s.timeheap ==> s.tv[e].at > now
      ensures forall e :: e in old(s.timeheap) && old(s.tv)[e].at <= now ==> e.active && e.resTimeout && !e.timed
      ensures forall e :: e in old(s.timed) && !e.timed ==> e in old(s.timeheap) && old(s.tv)[e].at <= now
    {
      ghost var s0 := s;
      AllTimed(s);
      ghost var due := ProcessAll(now);
      AllTimed(s);
      ProcessingDone(s0, s, due, now);
    }

    /** Its loop. */
    method ProcessAll(now: int) returns (ghost due: set<Event>)
      requires Valid()
      modifies this`eventCount, this`eventCountActive, this`eventqueue, this`activequeues, this`timeheap, this`lists,
               this`s
      modifies this`eventContinue, s.events
      ensures Repr() && Processing(old(s), s, due, now) && DueTimers(s, now) == {}
    {
      hide Inv, PersistOk, Structure, DueTimers, InsertedFlags, ActiveFlags, TimedFlags, ResFlags, Times, IoTimes;
      ghost var s0 := s;
      due := {};
      var more := true;
      while more
        invariant Repr() && Processing(s0, s, due, now) && (!more ==> DueTimers(s, now) == {})
        decreases more, |timeheap|
      {
        more, due := ProcessTop(now, s0, due);
      }
    }

    /** One turn of the loop of timeout_process. */
    method ProcessTop(now: int, ghost s0: State, ghost due0: set<Event>) returns (more: bool, ghost due: set<Event>)
      requires Repr() && Processing(s0, s, due0, now)
      modifies this`eventCount, this`eventCountActive, this`eventqueue, this`activequeues, this`timeheap, this`lists,
               this`s
      modifies this`eventContinue, s.events
      ensures Repr() && Processing(s0, s, due, now) && s.events == old(s.events)
      ensures if more then |timeheap| < old(|timeheap|) else DueTimers(s, now) == {}
    {
      due := due0;
      var ev := HeapTop();
      if ev == null {
        return false, due;
      }
      more := ev.timeout.at <= now;
      if more {
        ProcessingStep(s0, s, due, now, ev);
        TimedOutSmaller(s, ev);
        TimeOut(ev);
        due := due + {ev};
      } else {
        NoneDue(s, ev, now);
      }
    }

    /** The times of the events, when those of `done` have been moved by `off`. */
    ghost predicate Moved(done: set<Event>, off: int)
      reads this`s, s.events`timeout
    {
      done <= s.timed && s.timed <= s.events == s.tv.Keys &&
      forall e {:trigger e.timeout} :: e in s.events ==>
        e.timeout == if e in done then Timeval(s.tv[e].at - off, s.tv[e].queue) else s.tv[e]
    }

    /** The loop of timeout_correct over the heap (libevent/event.c:2451-2456). */
    method CorrectHeap(off: int) returns (ghost done: set<Event>)
      requires Repr() && Structure(s) && Moved({}, off)
      modifies s.events`timeout
      ensures Moved(done, off) && done == timeheap
    {
      done := {};
      var rest := timeheap;
      while rest != {}
        invariant rest <= timeheap && Moved(done, off) && done == timeheap - rest
        decreases |rest|
      {
        var e :| e in rest;
        HeapTimed(s, e);
        e.timeout := Timeval(e.timeout.at - off, e.timeout.queue);
        rest := rest - {e};
        done := done + {e};
      }
    }

    /** The loop of timeout_correct over the list at `n` (libevent/event.c:2461-2469). */
    method CorrectList(n: nat, off: int, ghost done0: set<Event>) returns (ghost done: set<Event>)
      requires FieldsOk() && Structure(s) && Moved(done0, off) && n < |lists|
      requires forall e :: e in lists[n] ==> e !in done0
      modifies s.events`timeout
      ensures Moved(done, off) && done == done0 + Elems(lists[n])
    {
      done := done0;
      var i := 0;
      assert CommonList(s.lists[n], n, s.timed, s.tv);
      while i < |lists[n]|
        invariant i <= |lists[n]| && Moved(done, off) && done == done0 + Elems(lists[n][..i])
      {
        var e := lists[n][i];
        assert e in Elems(lists[n]) && e !in Elems(lists[n][..i]);
        assert Elems(lists[n][..i + 1]) == Elems(lists[n][..i]) + {e};
        e.timeout := Timeval(e.timeout.at - off, n);
        done := done + {e};
        i := i + 1;
      }
      assert lists[n][..i] == lists[n];
    }

    /** The loop of timeout_correct over the lists (libevent/event.c:2458-2470). */
    method CorrectLists(off: int, ghost done0: set<Event>) returns (ghost done: set<Event>)
      requires FieldsOk() && Structure(s) && Moved(done0, off) && done0 == set e | e in s.timed && s.tv[e].queue < 0
      modifies s.events`timeout
      ensures Moved(done, off) && done == s.timed
    {
      done := done0;
      var i := 0;
      while i < |lists|
        invariant i <= |lists| && Moved(done, off)
        invariant done == set e | e in s.timed && s.tv[e].queue < i
      {
        ListedTimed(s, i);
        done := CorrectList(i, off, done);
        i := i + 1;
      }
    }

    /** The loops of timeout_correct (libevent/event.c:2451-2470): every timer is in the heap or
        in one list, and is moved once. */
    method CorrectTimers(off: int)
      requires Repr() && Structure(s) && Moved({}, off)
      modifies this`s, s.events`timeout
      ensures Repr() && s == Corrected(old(s), off)
    {
      ghost var done := CorrectHeap(off);
      done := CorrectLists(off, done);
      s := Corrected(s, off);
    }

    method MoveBack(off: int)
      requires Valid()
      modifies this`s, s.events`timeout
      ensures Valid() && s == Corrected(old(s), off)
    {
      CorrectedKeeps(s, off);
      CorrectTimers(off);
    }

    /** timeout_correct, without a monotonic clock (libevent/event.c:2424-2475). */
    method TimeoutCorrect(clock: int)
      requires Valid()
      modifies this`eventTv, this`s, s.events`timeout
      ensures Valid() && eventTv == clock
      ensures s == if clock >= old(eventTv) then old(s) else Corrected(old(s), old(eventTv) - clock)
      ensures s == old(s).(tv := s.tv) && s.tv.Keys == old(s.tv.Keys)
      ensures forall e :: e in s.tv ==>
                s.tv[e].queue == old(s.tv)[e].queue &&
                s.tv[e].at == old(s.tv)[e].at - (if e in s.timed &&
                  clock < old(eventTv) then old(eventTv) - clock else 0)
    {
      hide Inv, PersistOk, Structure;
      CorrectedDoes(s, eventTv - clock);
      if clock >= eventTv {
        eventTv := clock;
        return;
      }
      MoveBack(eventTv - clock);
      eventTv := clock;
    }
  }
}
