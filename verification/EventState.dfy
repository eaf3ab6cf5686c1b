/** The state of an event base (libevent/event.c) and what each operation makes of it: the flags,
    the queues and the counters agree after every call, and no common timeout is lost. */
module EventState {
  import opened EventShape

  datatype Option<T> = None | Some(value: T)

  // ---------------------------------------------------------------- the state

  /** The state of an event base, with the fields of its events as sets and maps: the flags
      EVLIST_INSERTED, EVLIST_ACTIVE and EVLIST_TIMEOUT, ev_timeout, ev_io_timeout, and EV_TIMEOUT
      in ev_res.  `drivers` are the internal events of the common timeouts, `running` the ones
      whose callback has been called and has not taken the lock yet. */
  datatype State = State(
    events: set<Event>, inserted: set<Event>, active: set<Event>, timed: set<Event>, tv: map<Event, Timeval>,
    ioTv: map<Event, Timeval>, resTimeout: set<Event>, eventqueue: seq<Event>, activequeues: seq<seq<Event>>,
    timeheap: set<Event>, lists: seq<seq<Event>>, drivers: seq<Event>, eventCount: int, eventCountActive: int,
    running: set<Event>, runningPriority: int, eventContinue: bool)

  /** Every flag is membership in the queue it stands for. */
  ghost predicate Queued(s: State) {
    s.inserted <= s.events && QueueOf(s.eventqueue, s.inserted) &&
    s.active <= s.events && ActiveQueues(s.activequeues, s.active) &&
    s.timed <= s.events && Timers(s.timeheap, s.lists, s.timed, s.tv) && s.tv.Keys == s.events &&
    forall e :: e in s.events ==> e.pri < |s.activequeues|
  }

  /** event_count counts the memberships of events that are not internal, event_count_active
      the active events. */
  ghost predicate Counts(s: State) {
    s.eventCount == |Counted(s.inserted)| + |Counted(s.active)| + |Counted(s.timed)| &&
    s.eventCountActive == TotalLength(s.activequeues)
  }

  /** The drivers of the common timeouts are plain internal timers of priority 0. */
  ghost predicate DriversPlain(s: State) {
    |s.drivers| == |s.lists| && NoDup(s.drivers) &&
    forall n :: 0 <= n < |s.drivers| ==>
      var d := s.drivers[n];
      d in s.events && d in s.tv && s.tv[d].queue == -1 && d.internal && !d.io && !d.persist && !d.persistClosure &&
      d.pri == 0
  }

  /** Internal events have priority 0; every time is a plain one or names a common timeout. */
  ghost predicate EventsOk(s: State) {
    s.ioTv.Keys == s.events && s.tv.Keys == s.events && (forall e :: e in s.events && e.internal ==> e.pri == 0) &&
    forall e :: e in s.tv ==> -1 <= s.tv[e].queue < |s.lists|
  }

  /** The interval of a persistent timer names the same common timeout as its time
      (libevent/event.c:1267-1268). */
  ghost predicate PersistOk(s: State) {
    forall e :: e in s.ioTv && e in s.tv && e.persistClosure && Runs(s.ioTv[e]) ==> s.ioTv[e].queue == s.tv[e].queue
  }

  /** ev_io_timeout.tv_sec || ev_io_timeout.tv_usec. */
  predicate Runs(t: Timeval) {
    t.at != 0 || t.queue >= 0
  }

  /** While a callback of some priority runs, an event of a more urgent one is not active
      without event_continue being set. */
  ghost predicate Watched(s: State) {
    s.eventContinue ||
    forall p :: 0 <= p < s.runningPriority && p < |s.activequeues| ==> s.activequeues[p] == []
  }

  ghost predicate Structure(s: State) {
    Queued(s) && Counts(s) && DriversPlain(s) && EventsOk(s) && Watched(s)
  }

  /** The timeout of the list at `n` is not lost: the event that drives it is about to run, is
      active, or is in the heap for no later a time. */
  ghost predicate Driven(s: State, n: nat)
    requires n < |s.lists| && n < |s.drivers|
  {
    var q, d := s.lists[n], s.drivers[n];
    q == [] || d in s.running || d in s.active ||
    (d in s.timeheap && d in s.tv && q[0] in s.tv && s.tv[d].at <= s.tv[q[0]].at)
  }

  /** No common timeout is lost, leaving aside that of the list at `except`. */
  ghost predicate AllDriven(s: State, except: int) {
    |s.drivers| == |s.lists| && forall n :: 0 <= n < |s.lists| && n != except ==> Driven(s, n)
  }

  ghost predicate Inv(s: State) {
    Structure(s) && AllDriven(s, -1)
  }

  // ---------------------------------------------------------------- queue operations

  function Weight(e: Event): int {
    if e.internal then 0 else 1
  }

  ghost function InsertInserted(s: State, e: Event): State {
    s.(eventCount := s.eventCount + Weight(e), inserted := s.inserted + {e}, eventqueue := s.eventqueue + [e])
  }

  ghost function RemoveInserted(s: State, e: Event): State {
    s.(eventCount := s.eventCount - Weight(e), inserted := s.inserted - {e}, eventqueue := Removed(s.eventqueue, e))
  }

  ghost function InsertActive(s: State, e: Event): State
    requires e.pri < |s.activequeues|
  {
    s.(eventCount := s.eventCount + Weight(e), eventCountActive := s.eventCountActive + 1, active := s.active + {e},
       activequeues := s.activequeues[e.pri := s.activequeues[e.pri] + [e]],
       eventContinue := s.eventContinue || e.pri < s.runningPriority)
  }

  ghost function RemoveActive(s: State, e: Event): State
    requires e.pri < |s.activequeues|
  {
    s.(eventCount := s.eventCount - Weight(e), eventCountActive := s.eventCountActive - 1, active := s.active - {e},
       activequeues := s.activequeues[e.pri := Removed(s.activequeues[e.pri], e)])
  }

  ghost function RemoveTimeout(s: State, e: Event): State
    requires e in s.tv && s.tv[e].queue < |s.lists|
  {
    var n := s.tv[e].queue;
    var r := s.(eventCount := s.eventCount - Weight(e), timed := s.timed - {e});
    if n < 0 then r.(timeheap := s.timeheap - {e}) else r.(lists := s.lists[n := Removed(s.lists[n], e)])
  }

  ghost function InsertTimeout(s: State, e: Event, t: Timeval): State
    requires t.queue < |s.lists| && (t.queue >= 0 ==> forall x :: x in s.lists[t.queue] ==> x in s.tv)
  {
    var n := t.queue;
    var r := s.(eventCount := s.eventCount + Weight(e), timed := s.timed + {e}, tv := s.tv[e := t]);
    if n < 0 then r.(timeheap := s.timeheap + {e})
    else
      var q := s.lists[n];
      var k := Place(q, s.tv, t.at);
      r.(lists := s.lists[n := q[..k] + [e] + q[k..]])
  }

  /** `e` is no driver, or the one of the list at `except`. */
  ghost predicate Apart(s: State, e: Event, except: int) {
    forall n :: 0 <= n < |s.drivers| && s.drivers[n] == e ==> n == except
  }

  lemma {:induction false} InsertInsertedStructure(s: State, e: Event)
    requires Structure(s) && e in s.events && e !in s.inserted
    ensures Structure(InsertInserted(s, e))
  {
    CountedPlus(s.inserted, e);
    QueueAppended(s.eventqueue, s.inserted, e);
  }

  lemma {:induction false} InsertInsertedKeeps(s: State, e: Event, except: int)
    requires Structure(s) && AllDriven(s, except) && e in s.events && e !in s.inserted
    ensures Structure(InsertInserted(s, e)) && AllDriven(InsertInserted(s, e), except)
  {
    InsertInsertedStructure(s, e);
    var r := InsertInserted(s, e);
    forall n | 0 <= n < |r.lists| && n != except ensures Driven(r, n) { assert Driven(s, n); }
  }

  lemma {:induction false} RemoveInsertedStructure(s: State, e: Event)
    requires Structure(s) && e in s.inserted
    ensures Structure(RemoveInserted(s, e))
  {
    CountedMinus(s.inserted, e);
    QueueRemoved(s.eventqueue, s.inserted, e);
  }

  lemma {:induction false} RemoveInsertedKeeps(s: State, e: Event, except: int)
    requires Structure(s) && AllDriven(s, except) && e in s.inserted
    ensures Structure(RemoveInserted(s, e)) && AllDriven(RemoveInserted(s, e), except)
  {
    RemoveInsertedStructure(s, e);
    var r := RemoveInserted(s, e);
    forall n | 0 <= n < |r.lists| && n != except ensures Driven(r, n) { assert Driven(s, n); }
  }

  lemma {:induction false} RemoveActiveStructure(s: State, e: Event)
    requires Structure(s) && e in s.active
    ensures Structure(RemoveActive(s, e))
  {
    CountedMinus(s.active, e);
    ActiveMinus(s.activequeues, s.active, e);
  }

  lemma {:induction false} RemoveActiveKeeps(s: State, e: Event, except: int)
    requires Structure(s) && AllDriven(s, except) && e in s.active && Apart(s, e, except)
    ensures Structure(RemoveActive(s, e)) && AllDriven(RemoveActive(s, e), except)
  {
    RemoveActiveStructure(s, e);
    var r := RemoveActive(s, e);
    forall n | 0 <= n < |r.lists| && n != except ensures Driven(r, n) { assert Driven(s, n); }
  }

  lemma {:induction false} RemoveTimeoutStructure(s: State, e: Event)
    requires Structure(s) && e in s.timed
    ensures Structure(RemoveTimeout(s, e))
  {
    CountedMinus(s.timed, e);
    TimersMinus(s.timeheap, s.lists, s.timed, s.tv, e);
  }

  lemma {:induction false} RemoveTimeoutKeeps(s: State, e: Event, except: int)
    requires Structure(s) && AllDriven(s, except) && e in s.timed && Apart(s, e, except)
    ensures Structure(RemoveTimeout(s, e)) && AllDriven(RemoveTimeout(s, e), except)
  {
    RemoveTimeoutStructure(s, e);
    var r := RemoveTimeout(s, e);
    forall n | 0 <= n < |r.lists| && n != except ensures Driven(r, n) {
      assert Driven(s, n);
      assert CommonList(s.lists[n], n, s.timed, s.tv) && CommonList(r.lists[n], n, r.timed, r.tv);
      if n == s.tv[e].queue && r.lists[n] != [] {
        assert e in Elems(s.lists[n]);
        HeadRemoved(s.lists[n], e);
      }
    }
  }

  lemma {:induction false} HeadRemoved(q: seq<Event>, e: Event)
    requires e in q && Removed(q, e) != []
    ensures |q| > 1 && Removed(q, e)[0] == if q[0] == e then q[1] else q[0]
  {
    var k := RemovedParts(q, e);
  }

  lemma {:induction false} InsertTimeoutStructure(s: State, e: Event, t: Timeval)
    requires Structure(s) && e in s.events && e !in s.timed && -1 <= t.queue < |s.lists|
    requires e in s.drivers ==> t.queue < 0
    ensures Structure(InsertTimeout(s, e, t))
  {
    var k := if t.queue < 0 then 0 else Place(s.lists[t.queue], s.tv, t.at);
    CountedPlus(s.timed, e);
    TimersPlus(s.timeheap, s.lists, s.timed, s.tv, e, t, k);
  }

  lemma {:induction false} InsertTimeoutDriven(s: State, e: Event, t: Timeval, except: int)
    requires Structure(s) && AllDriven(s, except) && e in s.events && e !in s.timed
    requires -1 <= t.queue < |s.lists| && Apart(s, e, if t.queue < 0 then except else -1)
    ensures var r := InsertTimeout(s, e, t);
      if t.queue < 0 then AllDriven(r, except)
      else except < 0 ==> AllDriven(r, if r.lists[t.queue][0] == e then t.queue else -1)
  {
    var k := if t.queue < 0 then 0 else Place(s.lists[t.queue], s.tv, t.at);
    var r := InsertTimeout(s, e, t);
    forall n | 0 <= n < |r.lists| && n != except && !(n == t.queue && k == 0) ensures Driven(r, n) {
      assert Driven(s, n);
      assert CommonList(s.lists[n], n, s.timed, s.tv);
    }
  }

  // ---------------------------------------------------------------- calls

  /** What an operation on a timer or an active event leaves alone. */
  ghost predicate SameOtherwise(s: State, r: State) {
    r.events == s.events && r.inserted == s.inserted && r.eventqueue == s.eventqueue &&
    r.tv == s.tv && r.ioTv == s.ioTv && r.resTimeout == s.resTimeout && r.drivers == s.drivers &&
    r.running == s.running &&
    r.runningPriority == s.runningPriority && r.eventContinue == s.eventContinue && |r.lists| == |s.lists| &&
    |r.activequeues| == |s.activequeues|
  }

  /** An old timer of `e` goes (libevent/event.c:2115-2120 and 2229-2238). */
  ghost function WithoutTimer(s: State, e: Event): (r: State)
    requires Structure(s) && e in s.events
    ensures Structure(r) && SameOtherwise(s, r) && r.timed == s.timed - {e} && r.active == s.active
    ensures s.tv[e].queue < 0 ==> r.lists == s.lists
    ensures r.activequeues == s.activequeues
  {
    if e in s.timed then
      RemoveTimeoutStructure(s, e);
      RemoveTimeout(s, e)
    else s
  }

  /** The active queues without `e`. */
  ghost function TakenOut(s: State, e: Event): seq<seq<Event>>
    requires Structure(s) && e in s.events
  {
    if e in s.active then s.activequeues[e.pri := Removed(s.activequeues[e.pri], e)] else s.activequeues
  }

  /** `e` is not active any more (libevent/event.c:2127-2140 and 2240-2241). */
  ghost function WithoutActive(s: State, e: Event): (r: State)
    requires Structure(s) && e in s.events
    ensures Structure(r) && SameOtherwise(s, r) && r.timed == s.timed && r.active == s.active - {e}
    ensures r.lists == s.lists && r.timeheap == s.timeheap
    ensures r.activequeues == TakenOut(s, e)
  {
    if e in s.active then
      RemoveActiveStructure(s, e);
      RemoveActive(s, e)
    else s
  }

  /** An old timer of `e` goes, and an activation by it is taken back (libevent/event.c:2115-2140). */
  ghost function Cleared(s: State, e: Event): (r: State)
    requires Structure(s) && e in s.events
    ensures Structure(r) && SameOtherwise(s, r) && r.timed == s.timed - {e}
    ensures s.tv[e].queue < 0 ==> r.lists == s.lists
    ensures r.active == if e in s.resTimeout then s.active - {e} else s.active
    ensures r.activequeues == if e in s.resTimeout then TakenOut(s, e) else s.activequeues
  {
    if e in s.resTimeout then WithoutActive(WithoutTimer(s, e), e) else WithoutTimer(s, e)
  }

  lemma {:induction false} WithoutTimerKeeps(s: State, e: Event, except: int)
    requires Structure(s) && AllDriven(s, except) && e in s.events && Apart(s, e, except)
    ensures AllDriven(WithoutTimer(s, e), except)
  {
    if e in s.timed { RemoveTimeoutKeeps(s, e, except); }
  }

  lemma {:induction false} WithoutActiveKeeps(s: State, e: Event, except: int)
    requires Structure(s) && AllDriven(s, except) && e in s.events && Apart(s, e, except)
    ensures AllDriven(WithoutActive(s, e), except)
  {
    if e in s.active { RemoveActiveKeeps(s, e, except); }
  }

  lemma {:induction false} ClearedKeeps(s: State, e: Event, except: int)
    requires Structure(s) && AllDriven(s, except) && e in s.events && Apart(s, e, except)
    ensures AllDriven(Cleared(s, e), except)
  {
    WithoutTimerKeeps(s, e, except);
    if e in s.resTimeout { WithoutActiveKeeps(WithoutTimer(s, e), e, except); }
  }

  lemma {:induction false} InRange(s: State, e: Event)
    requires Structure(s) && e in s.events
    ensures e in s.tv && e in s.ioTv && e.pri < |s.activequeues|
    ensures e in s.timed ==> -1 <= s.tv[e].queue < |s.lists|
  {
  }

  lemma {:induction false} ListedTimed(s: State, n: nat)
    requires Structure(s) && n < |s.lists|
    ensures forall e :: e in s.lists[n] ==> e in s.events && e in s.tv && e in s.timed && s.tv[e].queue == n
    ensures Elems(s.lists[n]) == OfTimer(s.timed, s.tv, n)
  {
    assert CommonList(s.lists[n], n, s.timed, s.tv);
    forall e | e in s.lists[n] ensures s.tv[e].queue == n { assert e in Elems(s.lists[n]); }
  }

  /** The timer of `e` is set to the time `t` (libevent/event.c:2115-2156). */
  ghost function AddTimer(s: State, e: Event, t: Timeval): State
    requires Structure(s) && e in s.events && -1 <= t.queue < |s.lists|
  {
    InsertTimeout(Cleared(s, e), e, t)
  }

  /** The structure is kept.  Every driver is as before, but that of a list whose first event
      is now `e`. */
  lemma {:induction false} AddTimerKeeps(s: State, e: Event, t: Timeval, except: int)
    requires Structure(s) && AllDriven(s, except) && e in s.events && -1 <= t.queue < |s.lists|
    requires Apart(s, e, if t.queue < 0 then except else -1) && (t.queue >= 0 ==> except < 0)
    ensures var r := AddTimer(s, e, t);
      Structure(r) &&
      AllDriven(r, if t.queue < 0 then except else if r.lists[t.queue][0] == e then t.queue else -1)
  {
    ClearedKeeps(s, e, except);
    var b := Cleared(s, e);
    assert e in s.drivers ==> t.queue < 0;
    InsertTimeoutStructure(b, e, t);
    InsertTimeoutDriven(b, e, t, except);
  }

  // ---------------------------------------------------------------- event_add

  /** An event of the user: not the driver of a common timeout. */
  ghost predicate IsUser(s: State, e: Event) {
    e in s.events && forall n :: 0 <= n < |s.drivers| ==> s.drivers[n] != e
  }

  /** An event with a file descriptor or signal is inserted unless it is already, or is active
      (libevent/event.c:2079-2094). */
  ghost function WithInserted(s: State, e: Event): (r: State)
    requires Structure(s) && e in s.events
    ensures Structure(r) && r.timed == s.timed && r.active == s.active && r.tv == s.tv && r.ioTv == s.ioTv
    ensures r.lists == s.lists && r.drivers == s.drivers && r.events == s.events
    ensures r.inserted == if e.io && e !in s.active then s.inserted + {e} else s.inserted
    ensures r.resTimeout == s.resTimeout && r.activequeues == s.activequeues && r.running == s.running
  {
    if e.io && e !in s.inserted && e !in s.active then
      InsertInsertedStructure(s, e);
      InsertInserted(s, e)
    else s
  }

  lemma {:induction false} WithInsertedKeeps(s: State, e: Event, except: int)
    requires Structure(s) && AllDriven(s, except) && e in s.events
    ensures AllDriven(WithInserted(s, e), except)
  {
    if e.io && e !in s.inserted && e !in s.active { InsertInsertedKeeps(s, e, except); }
  }

  /** common_timeout_schedule (libevent/event.c:1141-1152): the driver of the list at `n` is set
      to the time of its first event. */
  ghost function Scheduled(s: State, n: nat): State
    requires Structure(s) && n < |s.lists| && s.lists[n] != []
  {
    FirstTimed(s, n);
    AddTimer(s, s.drivers[n], Timeval(s.tv[s.lists[n][0]].at, -1))
  }

  lemma {:induction false} FirstTimed(s: State, n: nat)
    requires Structure(s) && n < |s.lists| && s.lists[n] != []
    ensures s.lists[n][0] in s.timed && s.lists[n][0] in s.tv && s.tv[s.lists[n][0]].queue == n
    ensures s.drivers[n] in s.events
  {
    assert CommonList(s.lists[n], n, s.timed, s.tv);
    assert s.lists[n][0] in Elems(s.lists[n]);
  }

  /** What scheduling leaves alone: all but the driver. */
  ghost predicate IsScheduled(s: State, r: State, n: nat)
    requires n < |s.drivers|
  {
    var d := s.drivers[n];
    r.events == s.events && r.inserted == s.inserted && r.lists == s.lists && r.drivers == s.drivers &&
    r.running == s.running &&
    r.ioTv == s.ioTv && r.timed == s.timed + {d} && r.active - {d} == s.active - {d} && r.active <= s.active &&
    r.resTimeout == s.resTimeout && r.runningPriority == s.runningPriority && r.eventContinue == s.eventContinue &&
    r.tv.Keys == s.tv.Keys && forall e :: e in s.tv && e != d ==> r.tv[e] == s.tv[e]
  }

  lemma {:induction false} ScheduledEffect(s: State, n: nat)
    requires Structure(s) && n < |s.lists| && s.lists[n] != []
    ensures IsScheduled(s, Scheduled(s, n), n)
    ensures s.drivers[n] in Scheduled(s, n).timeheap
    ensures Scheduled(s, n).tv[s.drivers[n]].at == s.tv[s.lists[n][0]].at
  {
    FirstTimed(s, n);
  }

  /** Scheduling makes up for the one driver that was left out. */
  lemma {:induction false} ScheduledKeeps(s: State, n: nat)
    requires Structure(s) && AllDriven(s, n) && n < |s.lists| && s.lists[n] != []
    ensures Inv(Scheduled(s, n))
  {
    FirstTimed(s, n);
    AddTimerKeeps(s, s.drivers[n], Timeval(s.tv[s.lists[n][0]].at, -1), n);
    ScheduledEffect(s, n);
    assert Driven(Scheduled(s, n), n);
  }

  /** event_add_internal (libevent/event.c:2024-2171), with the time already made absolute. */
  ghost function AddEvent(s: State, e: Event, t: Option<Timeval>): State
    requires Structure(s) && AllDriven(s, -1) && IsUser(s, e)
    requires t.Some? ==> -1 <= t.value.queue < |s.lists|
  {
    var a := WithInserted(s, e);
    if t.None? then a
    else
      WithInsertedKeeps(s, e, -1);
      AddTimerKeeps(a, e, t.value, -1);
      var b, n := AddTimer(a, e, t.value), t.value.queue;
      if n >= 0 && b.lists[n][0] == e then Scheduled(b, n) else b
  }

  /** Adding an event keeps everything right; in particular, no common timeout is lost. */
  lemma {:induction false} AddEventKeeps(s: State, e: Event, t: Option<Timeval>)
    requires Inv(s) && IsUser(s, e)
    requires t.Some? ==> -1 <= t.value.queue < |s.lists|
    ensures Inv(AddEvent(s, e, t))
  {
    WithInsertedKeeps(s, e, -1);
    var a := WithInserted(s, e);
    if t.Some? {
      AddTimerKeeps(a, e, t.value, -1);
      var b, n := AddTimer(a, e, t.value), t.value.queue;
      if n >= 0 && b.lists[n][0] == e {
        ScheduledKeeps(b, n);
      }
    }
  }

  lemma {:induction false} AddTimerEffect(s: State, e: Event, t: Timeval)
    requires Structure(s) && e in s.events && -1 <= t.queue < |s.lists|
    ensures var r := AddTimer(s, e, t);
      r.drivers == s.drivers && r.events == s.events && r.running == s.running && r.inserted == s.inserted &&
      r.ioTv == s.ioTv && r.resTimeout == s.resTimeout &&
      r.timed == s.timed + {e} && r.active == (if e in s.resTimeout then s.active - {e} else s.active) &&
      r.tv == s.tv[e := t]
  {
  }

  /** The fields of the user's events, with `d` the drivers: the timer of `e` is set to `t`. */
  ghost predicate TimerSet(s: State, r: State, e: Event, t: Timeval, d: set<Event>) {
    r.drivers == s.drivers && r.events == s.events && r.running == s.running && r.inserted == s.inserted &&
    r.ioTv == s.ioTv && r.resTimeout == s.resTimeout &&
    r.timed - d == s.timed - d + {e} &&
    r.active - d == (if e in s.resTimeout then s.active - d - {e} else s.active - d) &&
    r.tv.Keys == s.tv.Keys && e in r.tv && r.tv[e] == t &&
    forall x :: x in s.tv && x !in d && x != e ==> r.tv[x] == s.tv[x]
  }

  lemma {:induction false} AddTimerSet(s: State, e: Event, t: Timeval)
    requires Structure(s) && IsUser(s, e) && -1 <= t.queue < |s.lists|
    ensures TimerSet(s, AddTimer(s, e, t), e, t, Elems(s.drivers))
  {
    AddTimerEffect(s, e, t);
    assert e !in Elems(s.drivers);
  }

  lemma {:induction false} SchedulingKeepsTimer(s: State, b: State, r: State, e: Event, t: Timeval, n: nat)
    requires TimerSet(s, b, e, t, Elems(s.drivers)) && n < |b.drivers| && IsScheduled(b, r, n) && e !in Elems(s.drivers)
    ensures TimerSet(s, r, e, t, Elems(s.drivers))
  {
    var d, mine := Elems(s.drivers), {s.drivers[n]};
    assert s.drivers[n] in d;
    assert r.timed - d == b.timed - d;
    assert r.active - d == r.active - mine - d && b.active - d == b.active - mine - d;
  }

  /** What event_add does for the user: an event that waits for input is inserted unless it is
      active; with a time it has exactly that timer, and an earlier timer's activation is taken
      back.  No other event of the user changes. */
  lemma {:induction false} AddEventEffect(s: State, e: Event, t: Option<Timeval>)
    requires Inv(s) && IsUser(s, e)
    requires t.Some? ==> -1 <= t.value.queue < |s.lists|
    ensures var a := if e.io && e !in s.active && e !in s.inserted then InsertInserted(s, e) else s;
      if t.None? then AddEvent(s, e, t) == a else TimerSet(a, AddEvent(s, e, t), e, t.value, Elems(s.drivers))
  {
    if t.Some? {
      var a := WithInserted(s, e);
      WithInsertedKeeps(s, e, -1);
      AddTimerKeeps(a, e, t.value, -1);
      AddTimerSet(a, e, t.value);
      var b, n := AddTimer(a, e, t.value), t.value.queue;
      if n >= 0 && b.lists[n][0] == e {
        ScheduledEffect(b, n);
        SchedulingKeepsTimer(a, b, Scheduled(b, n), e, t.value, n);
      }
    }
  }

  /** event_add keeps the intervals of persistent timers in step with their times. */
  lemma {:induction false} AddEventPersists(s: State, e: Event, t: Option<Timeval>)
    requires Inv(s) && IsUser(s, e) && (t.Some? ==> -1 <= t.value.queue < |s.lists|)
    requires PersistOk(s.(ioTv := s.ioTv[e := Timeval(0, -1)]))
    requires e.persistClosure && Runs(s.ioTv[e]) ==> s.ioTv[e].queue == (if t.Some? then t.value else s.tv[e]).queue
    ensures PersistOk(AddEvent(s, e, t)) && AddEvent(s, e, t).ioTv == s.ioTv
  {
    AddEventEffect(s, e, t);
    var r, d := AddEvent(s, e, t), Elems(s.drivers);
    assert forall x :: x in d ==> !x.persistClosure;
    forall x | x in r.ioTv && x in r.tv && x.persistClosure && Runs(r.ioTv[x])
      ensures r.ioTv[x].queue == r.tv[x].queue
    {
      assert s.ioTv[e := Timeval(0, -1)][x] == if x == e then Timeval(0, -1) else s.ioTv[x];
    }
  }

  /** The interval of a persistent timer is remembered (libevent/event.c:2107-2113). */
  ghost function WithInterval(s: State, e: Event, t: Timeval): State {
    s.(ioTv := s.ioTv[e := t])
  }

  lemma {:induction false} WithIntervalKeeps(s: State, e: Event, t: Timeval)
    requires Inv(s) && e in s.events
    ensures Inv(WithInterval(s, e, t))
  {
    var r := WithInterval(s, e, t);
    forall n | 0 <= n < |r.lists| ensures Driven(r, n) { assert Driven(s, n); }
  }

  /** Whether event_add remembers an interval, and then which state it goes on from. */
  ghost function Remembered(s: State, e: Event, t: Option<Timeval>, absolute: bool): State {
    if t.Some? && e.persistClosure && !absolute then WithInterval(s, e, t.value) else s
  }

  /** The time that event_add sets: relative to `now` unless it is absolute (libevent/event.c:2144-2156). */
  function TimeSet(t: Option<Timeval>, absolute: bool, now: int): Option<Timeval> {
    if t.None? || absolute then t else Some(Timeval(now + t.value.at, t.value.queue))
  }

  lemma {:induction false} RememberedKeeps(s: State, e: Event, t: Option<Timeval>, absolute: bool)
    requires Inv(s) && e in s.events
    ensures Inv(Remembered(s, e, t, absolute))
  {
    if t.Some? { WithIntervalKeeps(s, e, t.value); }
  }

  /** event_add (libevent/event.c:1949-1970). */
  ghost function Added(s: State, e: Event, t: Option<Timeval>, absolute: bool, now: int): State
    requires Inv(s) && IsUser(s, e) && (t.Some? ==> -1 <= t.value.queue < |s.lists|)
  {
    RememberedKeeps(s, e, t, absolute);
    AddEvent(Remembered(s, e, t, absolute), e, TimeSet(t, absolute, now))
  }

  lemma {:induction false} WithIntervalPersists(s: State, e: Event, t: Timeval)
    requires PersistOk(s)
    ensures PersistOk(WithInterval(s, e, Timeval(0, -1)))
    ensures PersistOk(WithInterval(WithInterval(s, e, t), e, Timeval(0, -1)))
  {
    forall x | x in s.tv && x in s.ioTv && x != e && x.persistClosure && Runs(s.ioTv[x])
      ensures s.ioTv[x].queue == s.tv[x].queue
    {
    }
  }

  lemma {:induction false} AddEventRight(s: State, e: Event, t: Option<Timeval>)
    requires Inv(s) && IsUser(s, e) && (t.Some? ==> -1 <= t.value.queue < |s.lists|)
    requires PersistOk(WithInterval(s, e, Timeval(0, -1)))
    requires e.persistClosure && Runs(s.ioTv[e]) ==> s.ioTv[e].queue == (if t.Some? then t.value else s.tv[e]).queue
    ensures Inv(AddEvent(s, e, t)) && PersistOk(AddEvent(s, e, t))
  {
    AddEventKeeps(s, e, t);
    AddEventPersists(s, e, t);
  }

  lemma {:induction false} RememberedPersists(s: State, e: Event, t: Option<Timeval>, absolute: bool)
    requires PersistOk(s)
    ensures PersistOk(WithInterval(Remembered(s, e, t, absolute), e, Timeval(0, -1)))
  {
    WithIntervalPersists(s, e, if t.Some? then t.value else Timeval(0, -1));
  }

  /** event_add keeps the base right; an absolute time for a persistent timer has to name the
      common timeout of its interval. */
  lemma {:induction false} AddedKeeps(s: State, e: Event, t: Option<Timeval>, absolute: bool, now: int)
    requires Inv(s) && PersistOk(s) && IsUser(s, e) && (t.Some? ==> -1 <= t.value.queue < |s.lists|)
    requires t.Some? && absolute && e.persistClosure && Runs(s.ioTv[e]) ==> s.ioTv[e].queue == t.value.queue
    ensures Inv(Added(s, e, t, absolute, now)) && PersistOk(Added(s, e, t, absolute, now))
  {
    RememberedKeeps(s, e, t, absolute);
    RememberedPersists(s, e, t, absolute);
    AddEventRight(Remembered(s, e, t, absolute), e, TimeSet(t, absolute, now));
  }

  // ---------------------------------------------------------------- event_del and event_active

  /** event_del_internal (libevent/event.c:2191-2259). */
  ghost function DelEvent(s: State, e: Event): (r: State)
    requires Structure(s) && e in s.events
    ensures Structure(r) && r.inserted == s.inserted - {e} && r.active == s.active - {e} && r.timed == s.timed - {e}
    ensures r.tv == s.tv && r.ioTv == s.ioTv && r.drivers == s.drivers && r.events == s.events && r.running == s.running
    ensures |r.lists| == |s.lists| && r.runningPriority == s.runningPriority && r.eventContinue == s.eventContinue
    ensures r.resTimeout == s.resTimeout && r.activequeues == TakenOut(s, e)
  {
    var a := WithoutActive(WithoutTimer(s, e), e);
    if e in a.inserted then
      RemoveInsertedStructure(a, e);
      RemoveInserted(a, e)
    else a
  }

  lemma {:induction false} DelEventKeeps(s: State, e: Event, except: int)
    requires Structure(s) && AllDriven(s, except) && e in s.events && Apart(s, e, except)
    ensures AllDriven(DelEvent(s, e), except)
  {
    WithoutTimerKeeps(s, e, except);
    var a := WithoutTimer(s, e);
    WithoutActiveKeeps(a, e, except);
    var b := WithoutActive(a, e);
    if e in b.inserted { RemoveInsertedKeeps(b, e, except); }
  }

  /** event_active_nolock (libevent/event.c:2283-2328); `timeout` is EV_TIMEOUT in `res`. */
  ghost function Activate(s: State, e: Event, timeout: bool): (r: State)
    requires Structure(s) && e in s.events
    ensures Structure(r) && r.inserted == s.inserted && r.active == s.active + {e} && r.timed == s.timed
    ensures r.tv == s.tv && r.ioTv == s.ioTv && r.drivers == s.drivers && r.events == s.events && r.running == s.running
    ensures r.lists == s.lists && r.timeheap == s.timeheap && r.runningPriority == s.runningPriority
    ensures r.eventContinue == (s.eventContinue || (e !in s.active && e.pri < s.runningPriority))
    ensures r.resTimeout == if timeout then s.resTimeout + {e} else if e in s.active then s.resTimeout
            else s.resTimeout - {e}
    ensures r.activequeues == if e in s.active then s.activequeues
                              else s.activequeues[e.pri := s.activequeues[e.pri] + [e]]
  {
    if e in s.active then s.(resTimeout := if timeout then s.resTimeout + {e} else s.resTimeout)
    else
      CountedPlus(s.active, e);
      ActivePlus(s.activequeues, s.active, e);
      InsertActive(s.(resTimeout := if timeout then s.resTimeout + {e} else s.resTimeout - {e}), e)
  }

  lemma {:induction false} ActivateKeeps(s: State, e: Event, timeout: bool, except: int)
    requires Structure(s) && AllDriven(s, except) && e in s.events
    ensures AllDriven(Activate(s, e, timeout), except)
  {
    var r := Activate(s, e, timeout);
    forall n | 0 <= n < |r.lists| && n != except ensures Driven(r, n) { assert Driven(s, n); }
  }

  // ---------------------------------------------------------------- timeouts

  /** A timer has expired (libevent/event.c:1171-1172 and 2491-2495). */
  ghost function TimedOut(s: State, e: Event): (r: State)
    requires Structure(s) && e in s.events
    ensures Structure(r) && r.inserted == s.inserted - {e} && r.active == s.active + {e} && r.timed == s.timed - {e}
    ensures r.tv == s.tv && r.ioTv == s.ioTv && r.drivers == s.drivers && r.events == s.events && r.running == s.running
    ensures r.lists == DelEvent(s, e).lists && |r.lists| == |s.lists| && r.runningPriority == s.runningPriority
    ensures r.eventContinue == (s.eventContinue || e.pri < s.runningPriority)
    ensures r.resTimeout == s.resTimeout + {e}
    ensures e.pri < |s.activequeues| == |TakenOut(s, e)|
    ensures r.activequeues == TakenOut(s, e)[e.pri := TakenOut(s, e)[e.pri] + [e]]
  {
    Activate(DelEvent(s, e), e, true)
  }

  /** The loop of common_timeout_callback (libevent/event.c:1166-1174): the events of the list
      at `n` that are due become active. */
  ghost function Expired(s: State, n: nat, now: int): (r: State)
    requires Structure(s) && n < |s.lists|
    ensures Structure(r) && r.drivers == s.drivers && r.events == s.events && r.running == s.running &&
            |r.lists| == |s.lists|
    ensures r.lists[n] != [] ==> r.lists[n][0] in r.tv && r.tv[r.lists[n][0]].at > now
    ensures r.runningPriority == s.runningPriority && r.tv == s.tv && r.ioTv == s.ioTv
    ensures r.eventContinue ==> s.eventContinue || s.runningPriority > 0
    decreases |s.lists[n]|
  {
    if s.lists[n] == [] then s
    else
      FirstTimed(s, n);
      var e := s.lists[n][0];
      if s.tv[e].at > now then s
      else
        DelFirst(s, n);
        Expired(TimedOut(s, e), n, now)
  }

  lemma {:induction false} DelFirst(s: State, n: nat)
    requires Structure(s) && n < |s.lists| && s.lists[n] != [] && s.lists[n][0] in s.events
    ensures DelEvent(s, s.lists[n][0]).lists == s.lists[n := s.lists[n][1..]]
  {
    FirstTimed(s, n);
  }

  lemma {:induction false} FirstOutKeeps(s: State, n: nat, e: Event)
    requires Structure(s) && AllDriven(s, n) && n < |s.lists| && s.lists[n] != [] && e == s.lists[n][0] && e in s.events
    ensures AllDriven(TimedOut(s, e), n)
  {
    FirstTimed(s, n);
    DelFirst(s, n);
    DelEventKeeps(s, e, n);
    ActivateKeeps(DelEvent(s, e), e, true, n);
  }

  /** A list keeps its first events off the drivers, so the drivers stay as they are. */
  lemma {:induction false} ExpiredKeeps(s: State, n: nat, now: int)
    requires Structure(s) && AllDriven(s, n) && n < |s.lists|
    ensures AllDriven(Expired(s, n, now), n)
    decreases |s.lists[n]|
  {
    if s.lists[n] != [] {
      FirstTimed(s, n);
      var e := s.lists[n][0];
      if s.tv[e].at <= now {
        DelFirst(s, n);
        FirstOutKeeps(s, n, e);
        ExpiredKeeps(TimedOut(s, e), n, now);
      }
    }
  }

  /** The events of a list that are due. */
  ghost function Due(q: seq<Event>, tv: map<Event, Timeval>, now: int): set<Event> {
    set e | e in q && e in tv && tv[e].at <= now
  }

  lemma {:induction false} DueFirst(q: seq<Event>, tv: map<Event, Timeval>, now: int)
    requires q != [] && (forall e :: e in q ==> e in tv) && Sorted(q, tv)
    ensures Due(q, tv, now) == if tv[q[0]].at <= now then Due(q[1..], tv, now) + {q[0]} else {}
  {
    assert forall x :: x in q <==> x == q[0] || x in q[1..];
    forall x | x in q ensures tv[q[0]].at <= tv[x].at {
      var i :| 0 <= i < |q| && q[i] == x;
      assert i == 0 || tv[q[0]].at <= tv[q[i]].at;
    }
  }

  lemma {:induction false} SetsInTurn(a: set<Event>, t: set<Event>, i: set<Event>, e: Event, later: set<Event>)
    ensures a + {e} + later == a + (later + {e}) && t - {e} - later == t - (later + {e})
    ensures i - {e} - later == i - (later + {e})
  {
  }

  /** The callback of a common timeout makes exactly its due events active. */
  lemma {:induction false} ExpiredEffect(s: State, n: nat, now: int)
    requires Structure(s) && n < |s.lists|
    ensures var r, due := Expired(s, n, now), Due(s.lists[n], s.tv, now);
      r.active == s.active + due && r.timed == s.timed - due && r.inserted == s.inserted - due &&
      r.resTimeout == s.resTimeout + due
    decreases |s.lists[n]|
  {
    var q := s.lists[n];
    assert CommonList(q, n, s.timed, s.tv);
    if q != [] {
      FirstTimed(s, n);
      DueFirst(q, s.tv, now);
      if s.tv[q[0]].at <= now {
        DelFirst(s, n);
        var a, later := TimedOut(s, q[0]), Due(q[1..], s.tv, now);
        ExpiredEffect(a, n, now);
        SetsInTurn(s.active, s.timed, s.inserted, q[0], later);
        SetsInTurn(s.resTimeout, s.timed, s.inserted, q[0], later);
      }
    }
  }

  /** The due events of the list at `n` become active, and its driver is set to the first of
      the others (libevent/event.c:1166-1176). */
  ghost function Handled(s: State, n: nat, now: int): (r: State)
    requires Structure(s) && n < |s.lists|
  {
    var a := Expired(s, n, now);
    if a.lists[n] != [] then Scheduled(a, n) else a
  }

  /** The callback of a driver is no longer running. */
  ghost function Stopped(s: State, driver: Event): State {
    s.(running := s.running - {driver})
  }

  /** common_timeout_callback, once it has the lock (libevent/event.c:1165-1178). */
  ghost function CommonCallback(s: State, n: nat, now: int): (r: State)
    requires Structure(s) && n < |s.lists|
  {
    Stopped(Handled(s, n, now), s.drivers[n])
  }

  /** The driver of the list at `n` is in the heap in time, if the list needs it. */
  ghost predicate InTime(s: State, n: nat)
    requires n < |s.lists| && n < |s.drivers|
  {
    s.lists[n] != [] ==>
      s.drivers[n] in s.timeheap && s.drivers[n] in s.tv && s.lists[n][0] in s.tv &&
      s.tv[s.drivers[n]].at <= s.tv[s.lists[n][0]].at
  }

  lemma {:induction false} StopRunning(s: State, n: nat)
    requires Inv(s) && n < |s.lists| && InTime(s, n)
    ensures Inv(Stopped(s, s.drivers[n]))
  {
    var r := Stopped(s, s.drivers[n]);
    forall m | 0 <= m < |r.lists| ensures Driven(r, m) {
      assert Driven(s, m);
    }
  }

  lemma {:induction false} ScheduledInTime(s: State, n: nat)
    requires Structure(s) && AllDriven(s, n) && n < |s.lists| && s.lists[n] != []
    ensures var r := Scheduled(s, n); Inv(r) && r.drivers == s.drivers && |r.lists| == |s.lists| && InTime(r, n)
  {
    ScheduledKeeps(s, n);
    ScheduledEffect(s, n);
  }

  lemma {:induction false} HandledKeeps(s: State, n: nat, now: int)
    requires Inv(s) && n < |s.lists|
    ensures var r := Handled(s, n, now); Inv(r) && r.drivers == s.drivers && |r.lists| == |s.lists| && InTime(r, n)
  {
    var a := Expired(s, n, now);
    ExpiredKeeps(s, n, now);
    if a.lists[n] != [] {
      ScheduledInTime(a, n);
    } else {
      assert Driven(a, n);
    }
  }

  /** The callback of the driver leaves no common timeout lost: it can stop running. */
  lemma {:induction false} CommonCallbackKeeps(s: State, n: nat, now: int)
    requires Inv(s) && n < |s.lists|
    ensures Inv(CommonCallback(s, n, now))
  {
    HandledKeeps(s, n, now);
    StopRunning(Handled(s, n, now), n);
  }

  lemma {:induction false} TimedOutKeeps(s: State, e: Event)
    requires Inv(s) && e in s.timeheap && e in s.events
    ensures Inv(TimedOut(s, e))
  {
    var n := if exists n :: 0 <= n < |s.drivers| && s.drivers[n] == e
             then var n :| 0 <= n < |s.drivers| && s.drivers[n] == e; n else -1;
    DelEventKeeps(s, e, n);
    ActivateKeeps(DelEvent(s, e), e, true, n);
    var r := TimedOut(s, e);
    if n >= 0 { assert Driven(r, n); }
  }

  /** The clock has jumped back by `off`: every timer is moved (libevent/event.c:2424-2475). */
  ghost function Corrected(s: State, off: int): State {
    s.(tv := map e | e in s.tv :: if e in s.timed then Timeval(s.tv[e].at - off, s.tv[e].queue) else s.tv[e])
  }

  /** Moving every timer by the same amount keeps the lists in order and their drivers in time. */
  lemma {:induction false} CorrectedKeeps(s: State, off: int)
    requires Inv(s) && PersistOk(s)
    ensures Inv(Corrected(s, off)) && PersistOk(Corrected(s, off))
  {
    var r := Corrected(s, off);
    forall n | 0 <= n < |r.lists| ensures CommonList(r.lists[n], n, r.timed, r.tv) {
      assert CommonList(s.lists[n], n, s.timed, s.tv);
      assert OfTimer(r.timed, r.tv, n) == OfTimer(s.timed, s.tv, n);
    }
    assert OfTimer(r.timed, r.tv, -1) == OfTimer(s.timed, s.tv, -1);
    forall n | 0 <= n < |r.lists| ensures Driven(r, n) {
      assert Driven(s, n) && CommonList(s.lists[n], n, s.timed, s.tv);
    }
  }

  lemma {:induction false} ScheduledPersists(s: State, n: nat)
    requires Structure(s) && PersistOk(s) && n < |s.lists| && s.lists[n] != []
    ensures PersistOk(Scheduled(s, n))
  {
    ScheduledEffect(s, n);
  }

  lemma {:induction false} CommonCallbackPersists(s: State, n: nat, now: int)
    requires Structure(s) && PersistOk(s) && n < |s.lists|
    ensures PersistOk(CommonCallback(s, n, now))
  {
    var a := Expired(s, n, now);
    if a.lists[n] != [] { ScheduledPersists(a, n); }
  }

  lemma {:induction false} HeapTimed(s: State, e: Event)
    requires Structure(s) && e in s.timeheap
    ensures e in s.timed && e in s.events && e in s.tv && s.tv[e].queue == -1
  {
    assert e in OfTimer(s.timed, s.tv, -1);
  }

  lemma {:induction false} AllTimed(s: State)
    requires Structure(s)
    ensures forall e :: e in s.timeheap ==> e in s.timed && e in s.tv && e in s.events
    ensures forall e :: e in s.timed ==> e in s.tv && e in s.events
  {
    forall e | e in s.timeheap ensures e in s.timed && e in s.tv && e in s.events { HeapTimed(s, e); }
  }

  /** The timers of the heap that are due. */
  ghost function DueTimers(s: State, now: int): set<Event> {
    set e | e in s.timeheap && e in s.tv && s.tv[e].at <= now
  }

  /** From `s` to `r`, exactly the events `due` have timed out. */
  ghost predicate TimedOutAll(s: State, r: State, due: set<Event>) {
    r.resTimeout == s.resTimeout + due && r.active == s.active + due && r.timed == s.timed - due &&
    r.inserted == s.inserted - due && r.tv == s.tv &&
    r.timeheap == s.timeheap - due && r.lists == s.lists && r.drivers == s.drivers && r.events == s.events &&
    r.runningPriority == s.runningPriority && r.ioTv == s.ioTv && r.running == s.running &&
    |r.activequeues| == |s.activequeues| && (r.eventContinue ==> s.eventContinue || s.runningPriority > 0)
  }

  lemma {:induction false} TimedOutOne(s: State, e: Event)
    requires Structure(s) && e in s.timeheap && e in s.events
    ensures TimedOutAll(s, TimedOut(s, e), {e})
  {
    assert e in OfTimer(s.timed, s.tv, -1);
  }

  lemma {:induction false} TimedOutMore(s: State, a: State, r: State, due: set<Event>, e: Event)
    requires TimedOutAll(s, a, due) && TimedOutAll(a, r, {e})
    ensures TimedOutAll(s, r, due + {e})
  {
    SetsInTurn(s.active, s.timed, s.inserted, e, due);
    assert r.timeheap == s.timeheap - (due + {e}) && r.resTimeout == s.resTimeout + (due + {e});
  }

  /** The loop of timeout_process: so far the events `due` have timed out. */
  ghost predicate Processing(s0: State, s: State, due: set<Event>, now: int) {
    Inv(s) && PersistOk(s) && TimedOutAll(s0, s, due) && due <= DueTimers(s0, now)
  }

  lemma {:induction false} ProcessingStep(s0: State, s: State, due: set<Event>, now: int, e: Event)
    requires Processing(s0, s, due, now) && e in s.timeheap && s0.events == s.events
    requires e in s.tv && s.tv[e].at <= now
    ensures e in s.events && Processing(s0, TimedOut(s, e), due + {e}, now)
  {
    HeapTimed(s, e);
    TimedOutOne(s, e);
    TimedOutMore(s0, s, TimedOut(s, e), due, e);
    TimedOutKeeps(s, e);
  }

  lemma {:induction false} TimedOutSmaller(s: State, e: Event)
    requires Structure(s) && e in s.timeheap && e in s.events
    ensures |TimedOut(s, e).timeheap| < |s.timeheap|
  {
    TimedOutOne(s, e);
    assert TimedOut(s, e).timeheap == s.timeheap - {e};
  }

  lemma {:induction false} NoneDue(s: State, e: Event, now: int)
    requires e in s.tv && s.tv[e].at > now && forall x :: x in s.timeheap && x in s.tv ==> s.tv[e].at <= s.tv[x].at
    ensures DueTimers(s, now) == {}
  {
  }

  lemma {:induction false} ProcessingDone(s0: State, s: State, due: set<Event>, now: int)
    requires Processing(s0, s, due, now) && DueTimers(s, now) == {}
    ensures due == DueTimers(s0, now)
  {
    forall e | e in DueTimers(s0, now) ensures e in due {
      assert e in due || e in DueTimers(s, now);
    }
  }

  // ---------------------------------------------------------------- new events and new lists

  /** event_assign (libevent/event.c:1717-1781): a new event, in no queue. */
  ghost function Assigned(s: State, e: Event, t: Timeval, io: Timeval): State {
    s.(events := s.events + {e}, tv := s.tv[e := t], ioTv := s.ioTv[e := io], resTimeout := s.resTimeout - {e})
  }

  lemma {:induction false} AssignedKeeps(s: State, e: Event, t: Timeval, io: Timeval)
    requires Inv(s) && PersistOk(s) && e !in s.events && e.pri < |s.activequeues| && (e.internal ==> e.pri == 0)
    requires t.queue == -1 && !Runs(io)
    ensures Inv(Assigned(s, e, t, io)) && PersistOk(Assigned(s, e, t, io))
  {
    var r := Assigned(s, e, t, io);
    assert OfTimer(r.timed, r.tv, -1) == OfTimer(s.timed, s.tv, -1);
    forall n | 0 <= n < |r.lists| ensures CommonList(r.lists[n], n, r.timed, r.tv) && Driven(r, n) {
      assert CommonList(s.lists[n], n, s.timed, s.tv) && Driven(s, n);
      assert OfTimer(r.timed, r.tv, n) == OfTimer(s.timed, s.tv, n);
      assert Elems(s.lists[n]) <= s.timed;
    }
  }

  /** A new common timeout, with the driver `d` (libevent/event.c:1231-1249). */
  ghost function WithList(s: State, d: Event): State {
    s.(lists := s.lists + [[]], drivers := s.drivers + [d])
  }

  lemma {:induction false} WithListKeeps(s: State, d: Event)
    requires Inv(s) && PersistOk(s) && IsUser(s, d) && s.tv[d].queue == -1
    requires d.internal && !d.io && !d.persist && !d.persistClosure && d.pri == 0
    ensures Inv(WithList(s, d)) && PersistOk(WithList(s, d))
  {
    var r := WithList(s, d);
    assert OfTimer(s.timed, s.tv, |s.lists|) == {};
    forall n | 0 <= n < |r.lists| ensures CommonList(r.lists[n], n, r.timed, r.tv) && Driven(r, n) {
      if n < |s.lists| { assert CommonList(s.lists[n], n, s.timed, s.tv) && Driven(s, n); }
    }
  }

  // ---------------------------------------------------------------- when the loop may stop

  /** event_haveevents is false and N_ACTIVE_CALLBACKS is 0 (libevent/event.c:1596-1600 and
      1040-1044). */
  ghost predicate NothingLeft(s: State, virtualEvents: nat, deferred: nat) {
    !(virtualEvents > 0 || s.eventCount > 0) && s.eventCountActive + deferred == 0
  }

  lemma {:induction false} NoneCounted(t: set<Event>)
    requires |Counted(t)| == 0
    ensures forall e :: e in t ==> e.internal
  {
    forall e | e in t ensures e.internal {
      assert (e in Counted(t)) == !e.internal;
    }
  }

  /** The loop ends of itself exactly when no event that is not internal is in any queue, no
      event is active, and there is no virtual event or deferred callback. */
  lemma {:induction false} NothingLeftIsRight(s: State, virtualEvents: nat, deferred: nat)
    requires Structure(s)
    ensures NothingLeft(s, virtualEvents, deferred) <==>
              virtualEvents == 0 && deferred == 0 && s.active == {} &&
              forall e :: e in s.inserted || e in s.timed ==> e.internal
  {
    if s.eventCount <= 0 {
      NoneCounted(s.inserted);
      NoneCounted(s.timed);
    }
    NoActive(s);
    if forall e :: e in s.inserted || e in s.timed ==> e.internal {
      assert Counted(s.inserted) == {} && Counted(s.timed) == {};
    }
    if s.active == {} { assert Counted(s.active) == {}; }
  }

  /** While no callback is running or waiting to run, the earliest timer is in the heap, even when
      it is a common timeout: the driver of its list stands for it. */
  lemma {:induction false} EarliestInHeap(s: State, e: Event) returns (d: Event)
    requires Inv(s) && s.running == {} && s.active == {} && e in s.timed
    ensures d in s.timeheap && d in s.tv && e in s.tv && s.tv[d].at <= s.tv[e].at
  {
    var n := s.tv[e].queue;
    if n < 0 {
      d := e;
      assert e in OfTimer(s.timed, s.tv, -1);
    } else {
      var q := s.lists[n];
      assert CommonList(q, n, s.timed, s.tv) && Driven(s, n);
      assert e in OfTimer(s.timed, s.tv, n);
      assert e in Elems(q);
      var k :| 0 <= k < |q| && q[k] == e;
      d := s.drivers[n];
    }
  }

  lemma {:induction false} NoActive(s: State)
    requires Structure(s)
    ensures s.eventCountActive == 0 <==> s.active == {}
  {
    if s.active != {} {
      var e :| e in s.active;
      assert e in OfPriority(s.active, e.pri);
      assert e in Elems(s.activequeues[e.pri]);
      TotalLengthPart(s.activequeues, e.pri);
    } else {
      forall p | 0 <= p < |s.activequeues| ensures s.activequeues[p] == [] {
        assert QueueOf(s.activequeues[p], OfPriority(s.active, p));
        if s.activequeues[p] != [] { SomeElem(s.activequeues[p]); }
      }
      AllEmpty(s.activequeues);
    }
  }

  lemma {:induction false} SomeElem(q: seq<Event>)
    requires q != []
    ensures Elems(q) != {}
  {
    assert q[0] in Elems(q);
  }

  lemma {:induction false} AllEmpty(qs: seq<seq<Event>>)
    requires forall p :: 0 <= p < |qs| ==> qs[p] == []
    ensures TotalLength(qs) == 0
  {
    if qs != [] { AllEmpty(qs[1..]); }
  }
}
