/** What the calls of libevent/event.c do to the fields of the events, whichever way they do it, and
    the order in which active events wait. */
module EventLaws {
  import opened EventShape
  import opened EventState

  // ---------------------------------------------------------------- the order of active events

  /** The events of `q` that are in `keep`, in the same order. */
  ghost function Kept(q: seq<Event>, keep: set<Event>): seq<Event> {
    if q == [] then [] else (if q[0] in keep then [q[0]] else []) + Kept(q[1..], keep)
  }

  lemma {:induction false} KeptSame(q: seq<Event>, a: set<Event>, b: set<Event>)
    requires forall x :: x in q ==> (x in a <==> x in b)
    ensures Kept(q, a) == Kept(q, b)
  {
    if q != [] { KeptSame(q[1..], a, b); }
  }

  lemma {:induction false} KeptAll(q: seq<Event>, keep: set<Event>)
    requires forall x :: x in q ==> x in keep
    ensures Kept(q, keep) == q
  {
    if q != [] { KeptAll(q[1..], keep); }
  }

  lemma {:induction false} KeptHas(q: seq<Event>, keep: set<Event>)
    ensures forall x :: x in Kept(q, keep) <==> x in q && x in keep
  {
    if q != [] { KeptHas(q[1..], keep); }
  }

  lemma {:induction false} Assoc(a: seq<Event>, b: seq<Event>, c: seq<Event>)
    ensures a + b + c == a + (b + c)
  {
  }

  lemma {:induction false} KeptAppend(q: seq<Event>, r: seq<Event>, keep: set<Event>)
    ensures Kept(q + r, keep) == Kept(q, keep) + Kept(r, keep)
  {
    if q == [] {
      assert q + r == r;
    } else {
      KeptAppend(q[1..], r, keep);
      assert (q + r)[1..] == q[1..] + r && (q + r)[0] == q[0];
      Assoc(if q[0] in keep then [q[0]] else [], Kept(q[1..], keep), Kept(r, keep));
    }
  }

  lemma {:induction false} KeptTwice(q: seq<Event>, a: set<Event>, b: set<Event>)
    requires b <= a
    ensures Kept(Kept(q, a), b) == Kept(q, b)
  {
    if q != [] {
      KeptTwice(q[1..], a, b);
      KeptAppend(if q[0] in a then [q[0]] else [], Kept(q[1..], a), b);
    }
  }

  /** Taking an event out of a queue leaves the others in order. */
  lemma {:induction false} RemovedIsKept(q: seq<Event>, e: Event, keep: set<Event>)
    requires NoDup(q) && e !in keep && forall x :: x in q && x != e ==> x in keep
    ensures Removed(q, e) == Kept(q, keep)
  {
    if q != [] {
      if q[0] == e {
        assert forall i :: 0 <= i < |q[1..]| ==> q[1..][i] == q[i + 1] != e;
        KeptAll(q[1..], keep);
      } else {
        RemovedIsKept(q[1..], e, keep);
      }
    }
  }

  /** What was active before and still is comes first, in the same order. */
  ghost predicate InOrder(s: State, r: State) {
    |r.activequeues| == |s.activequeues| &&
    forall p :: 0 <= p < |s.activequeues| ==> Kept(s.activequeues[p], r.active) <= r.activequeues[p]
  }

  /** Nothing else comes behind it. */
  ghost predicate OnlyKept(s: State, r: State) {
    |r.activequeues| == |s.activequeues| &&
    forall p :: 0 <= p < |s.activequeues| ==> r.activequeues[p] == Kept(s.activequeues[p], r.active)
  }

  lemma {:induction false} QueueHas(s: State, p: nat)
    requires Structure(s) && p < |s.activequeues|
    ensures NoDup(s.activequeues[p]) && forall x :: x in s.activequeues[p] <==> x in s.active && x.pri == p
  {
    assert QueueOf(s.activequeues[p], OfPriority(s.active, p));
    forall x ensures x in s.activequeues[p] <==> x in s.active && x.pri == p {
      assert x in s.activequeues[p] <==> x in Elems(s.activequeues[p]);
    }
  }

  lemma {:induction false} SameIsKept(s: State, r: State)
    requires Structure(s) && r.active == s.active && r.activequeues == s.activequeues
    ensures OnlyKept(s, r)
  {
    forall p | 0 <= p < |s.activequeues| ensures r.activequeues[p] == Kept(s.activequeues[p], r.active) {
      QueueHas(s, p);
      KeptAll(s.activequeues[p], r.active);
    }
  }

  lemma {:induction false} TakenOutIsKept(s: State, r: State, e: Event)
    requires Structure(s) && e in s.events && r.active == s.active - {e} && r.activequeues == TakenOut(s, e)
    ensures OnlyKept(s, r)
  {
    forall p | 0 <= p < |s.activequeues| ensures r.activequeues[p] == Kept(s.activequeues[p], r.active) {
      QueueHas(s, p);
      if e in s.active && p == e.pri {
        RemovedIsKept(s.activequeues[p], e, r.active);
      } else {
        KeptAll(s.activequeues[p], r.active);
      }
    }
  }

  lemma {:induction false} OnlyKeptTrans(s: State, a: State, r: State)
    requires OnlyKept(s, a) && OnlyKept(a, r) && r.active <= a.active
    ensures OnlyKept(s, r)
  {
    forall p | 0 <= p < |s.activequeues| ensures r.activequeues[p] == Kept(s.activequeues[p], r.active) {
      KeptTwice(s.activequeues[p], a.active, r.active);
    }
  }

  lemma {:induction false} AddTimerOrder(s: State, e: Event, t: Timeval)
    requires Structure(s) && e in s.events && -1 <= t.queue < |s.lists|
    ensures OnlyKept(s, AddTimer(s, e, t)) && AddTimer(s, e, t).active <= s.active
  {
    var r := AddTimer(s, e, t);
    if e in s.resTimeout {
      TakenOutIsKept(s, r, e);
    } else {
      SameIsKept(s, r);
    }
  }

  lemma {:induction false} ScheduledOrder(s: State, n: nat)
    requires Structure(s) && n < |s.lists| && s.lists[n] != []
    ensures OnlyKept(s, Scheduled(s, n)) && Scheduled(s, n).active <= s.active
  {
    FirstTimed(s, n);
    AddTimerOrder(s, s.drivers[n], Timeval(s.tv[s.lists[n][0]].at, -1));
  }

  lemma {:induction false} AddEventOrder(s: State, e: Event, t: Option<Timeval>)
    requires Inv(s) && IsUser(s, e) && (t.Some? ==> -1 <= t.value.queue < |s.lists|)
    ensures OnlyKept(s, AddEvent(s, e, t)) && AddEvent(s, e, t).active <= s.active
  {
    var a := WithInserted(s, e);
    SameIsKept(s, a);
    if t.Some? {
      WithInsertedKeeps(s, e, -1);
      AddTimerKeeps(a, e, t.value, -1);
      AddTimerOrder(a, e, t.value);
      var b, n := AddTimer(a, e, t.value), t.value.queue;
      OnlyKeptTrans(s, a, b);
      if n >= 0 && b.lists[n][0] == e {
        ScheduledOrder(b, n);
        OnlyKeptTrans(s, b, Scheduled(b, n));
      }
    }
  }

  lemma {:induction false} KeptIsInOrder(s: State, r: State)
    requires OnlyKept(s, r)
    ensures InOrder(s, r)
  {
  }

  /** event_add lets the active events wait in the same order. */
  lemma {:induction false} AddedInOrder(s: State, e: Event, t: Option<Timeval>, absolute: bool, now: int)
    requires Inv(s) && IsUser(s, e) && (t.Some? ==> -1 <= t.value.queue < |s.lists|)
    ensures OnlyKept(s, Added(s, e, t, absolute, now)) && InOrder(s, Added(s, e, t, absolute, now))
  {
    var a := Remembered(s, e, t, absolute);
    RememberedKeeps(s, e, t, absolute);
    AddEventOrder(a, e, TimeSet(t, absolute, now));
    assert a.active == s.active && a.activequeues == s.activequeues;
    KeptIsInOrder(s, Added(s, e, t, absolute, now));
  }

  /** event_del does too. */
  lemma {:induction false} DeletedInOrder(s: State, e: Event)
    requires Structure(s) && e in s.events
    ensures OnlyKept(s, DelEvent(s, e)) && InOrder(s, DelEvent(s, e))
  {
    TakenOutIsKept(s, DelEvent(s, e), e);
    KeptIsInOrder(s, DelEvent(s, e));
  }

  /** An event that becomes active waits behind all others of its priority. */
  lemma {:induction false} ActivatedInOrder(s: State, e: Event, timeout: bool)
    requires Structure(s) && e in s.events
    ensures var r := Activate(s, e, timeout);
      InOrder(s, r) && e.pri < |s.activequeues| == |r.activequeues| &&
      (e !in s.active ==> r.activequeues[e.pri] == s.activequeues[e.pri] + [e])
  {
    var r := Activate(s, e, timeout);
    forall p | 0 <= p < |s.activequeues| ensures Kept(s.activequeues[p], r.active) <= r.activequeues[p] {
      QueueHas(s, p);
      KeptAll(s.activequeues[p], r.active);
    }
  }

  // ---------------------------------------------------------------- the fields of the events

  /** The fields of `x` are as they were. */
  ghost predicate SameFields(s: State, r: State, x: Event) {
    (x in r.inserted <==> x in s.inserted) && (x in r.active <==> x in s.active) && (x in r.timed <==> x in s.timed) &&
    (x in r.resTimeout <==> x in s.resTimeout) && (x in s.tv ==> x in r.tv && r.tv[x] == s.tv[x]) &&
    (x in s.ioTv ==> x in r.ioTv && r.ioTv[x] == s.ioTv[x])
  }

  /** Those of all other events of the user. */
  ghost predicate OthersKept(s: State, r: State, e: Event) {
    forall x {:trigger SameFields(s, r, x)} :: x in s.events && x !in Elems(s.drivers) && x != e ==> SameFields(s, r, x)
  }

  /** What event_add is for: the event has exactly the timer that was asked for, counted from now
      unless the time is absolute; a persistent timer remembers its interval; it is inserted if it
      waits for input and is not active; and an earlier timer no longer keeps it active. */
  ghost predicate AddDone(s: State, r: State, e: Event, t: Option<Timeval>, absolute: bool, now: int)
    requires e in s.ioTv && e in s.tv
  {
    e in r.tv && e in r.ioTv &&
    (if t.None? then (e in r.timed <==> e in s.timed) && r.tv[e] == s.tv[e]
     else e in r.timed && r.tv[e] == if absolute then t.value else Timeval(now + t.value.at, t.value.queue)) &&
    r.ioTv[e] == (if t.Some? && e.persistClosure && !absolute then t.value else s.ioTv[e]) &&
    (e in r.inserted <==> e in s.inserted || (e.io && e !in s.active)) &&
    (e in r.active <==> e in s.active && !(t.Some? && e in s.resTimeout)) &&
    (e in r.resTimeout <==> e in s.resTimeout)
  }

  lemma {:induction false} InsertedOthers(s: State, a: State, e: Event)
    requires a == s || a == InsertInserted(s, e)
    ensures OthersKept(s, a, e)
  {
  }

  lemma {:induction false} TimerSetOthers(s: State, r: State, e: Event, t: Timeval, x: Event)
    requires TimerSet(s, r, e, t, Elems(s.drivers)) && x in s.events && x !in Elems(s.drivers) && x != e
    ensures SameFields(s, r, x)
  {
    var d := Elems(s.drivers);
    assert x in r.timed - d <==> x in s.timed - d;
    assert x in r.active - d <==> x in s.active - d;
  }

  lemma {:induction false} TimerSetMine(s: State, r: State, e: Event, t: Timeval)
    requires TimerSet(s, r, e, t, Elems(s.drivers)) && e !in Elems(s.drivers)
    ensures e in r.timed && (e in r.active <==> e in s.active && e !in s.resTimeout)
  {
    var d := Elems(s.drivers);
    assert e in r.timed - d;
    assert e in r.active - d <==> e in s.active - d && e !in s.resTimeout;
  }

  lemma {:induction false} AddEventDoes(s: State, e: Event, t: Option<Timeval>)
    requires Inv(s) && IsUser(s, e) && (t.Some? ==> -1 <= t.value.queue < |s.lists|)
    ensures var r := AddEvent(s, e, t);
      r.ioTv == s.ioTv && r.resTimeout == s.resTimeout && e in r.tv &&
      (if t.None? then (e in r.timed <==> e in s.timed) && r.tv[e] == s.tv[e]
       else e in r.timed && r.tv[e] == t.value) &&
      (e in r.inserted <==> e in s.inserted || (e.io && e !in s.active)) &&
      (e in r.active <==> e in s.active && !(t.Some? && e in s.resTimeout))
    ensures OthersKept(s, AddEvent(s, e, t), e)
  {
    var r := AddEvent(s, e, t);
    var a := if e.io && e !in s.active && e !in s.inserted then InsertInserted(s, e) else s;
    AddEventEffect(s, e, t);
    InsertedOthers(s, a, e);
    assert e !in Elems(s.drivers);
    if t.Some? {
      TimerSetMine(a, r, e, t.value);
      forall x | x in s.events && x !in Elems(s.drivers) && x != e ensures SameFields(s, r, x) {
        TimerSetOthers(a, r, e, t.value, x);
        assert SameFields(s, a, x);
      }
    }
  }

  lemma {:induction false} RememberedOthers(s: State, a: State, r: State, e: Event, t: Option<Timeval>, absolute: bool)
    requires a == Remembered(s, e, t, absolute) && OthersKept(a, r, e)
    ensures OthersKept(s, r, e)
  {
    forall x | x in s.events && x !in Elems(s.drivers) && x != e ensures SameFields(s, r, x) {
      assert SameFields(a, r, x);
    }
  }

  lemma {:induction false} AddedDoes(s: State, e: Event, t: Option<Timeval>, absolute: bool, now: int)
    requires Inv(s) && IsUser(s, e) && (t.Some? ==> -1 <= t.value.queue < |s.lists|)
    ensures AddDone(s, Added(s, e, t, absolute, now), e, t, absolute, now)
    ensures OthersKept(s, Added(s, e, t, absolute, now), e)
  {
    var a := Remembered(s, e, t, absolute);
    RememberedKeeps(s, e, t, absolute);
    AddEventDoes(a, e, TimeSet(t, absolute, now));
    RememberedOthers(s, a, Added(s, e, t, absolute, now), e, t, absolute);
  }

  /** event_assign: the events of the user are as before, and the new one is in no queue. */
  lemma {:induction false} AssignedDoes(s: State, e: Event, t: Timeval, io: Timeval)
    requires Inv(s) && e !in s.events
    ensures var r := Assigned(s, e, t, io);
      r.events == s.events + {e} && e !in r.inserted && e !in r.active && e !in r.timed && e !in r.resTimeout &&
      OthersKept(s, r, e) && r.activequeues == s.activequeues && r.lists == s.lists
  {
  }

  /** event_del: the event is in no queue any more. */
  lemma {:induction false} DeletedDoes(s: State, e: Event)
    requires Structure(s) && e in s.events
    ensures var r := DelEvent(s, e);
      e !in r.inserted && e !in r.active && e !in r.timed && OthersKept(s, r, e)
  {
  }

  /** event_active: the event is active, and EV_TIMEOUT is in its result as was asked, or was there. */
  lemma {:induction false} ActivatedDoes(s: State, e: Event, timeout: bool)
    requires Structure(s) && e in s.events
    ensures var r := Activate(s, e, timeout);
      e in r.active && (e in r.inserted <==> e in s.inserted) && (e in r.timed <==> e in s.timed) &&
      (e in r.resTimeout <==> timeout || (e in s.active && e in s.resTimeout)) && OthersKept(s, r, e)
  {
  }

  /** A timer that has expired: the event is active for it, and in no other queue; its timer is gone. */
  lemma {:induction false} TimedOutDoes(s: State, e: Event)
    requires Structure(s) && e in s.events
    ensures var r := TimedOut(s, e);
      e in r.active && e in r.resTimeout && e !in r.timed && e !in r.inserted && OthersKept(s, r, e)
  {
  }

  /** What the callback of a common timeout has done for the events of the user: those of its list
      that are due, and only those, have timed out; and its driver is in the heap for the time of the
      first of the others. */
  ghost predicate ExpiryDone(s: State, r: State, n: nat, now: int)
    requires n < |s.lists| && n < |s.drivers|
  {
    var due := Due(s.lists[n], s.tv, now);
    n < |r.lists| &&
    (forall x :: x in s.events && x !in Elems(s.drivers) ==>
       (x in r.active <==> x in s.active || x in due) && (x in r.timed <==> x in s.timed && x !in due) &&
       (x in r.inserted <==> x in s.inserted && x !in due) && (x in r.resTimeout <==> x in s.resTimeout || x in due) &&
       (x in s.tv ==> x in r.tv && r.tv[x] == s.tv[x])) &&
    r.ioTv == s.ioTv && (forall x :: x in r.lists[n] ==> x in s.lists[n] && x in s.tv && s.tv[x].at > now) &&
    (forall x :: x in s.lists[n] && x in s.tv && s.tv[x].at > now ==> x in r.lists[n]) &&
    (r.lists[n] != [] ==> s.drivers[n] in r.timeheap && s.drivers[n] in r.tv && r.lists[n][0] in s.tv &&
                          r.tv[s.drivers[n]].at == s.tv[r.lists[n][0]].at)
  }

  lemma {:induction false} ExpiredDoes(s: State, n: nat, now: int)
    requires Structure(s) && n < |s.lists|
    ensures var r := Expired(s, n, now);
      (forall x :: x in r.lists[n] <==> x in s.lists[n] && x in s.tv && s.tv[x].at > now)
  {
    var r, due := Expired(s, n, now), Due(s.lists[n], s.tv, now);
    ExpiredEffect(s, n, now);
    ListedTimed(s, n);
    ListedTimed(r, n);
    forall x ensures x in r.lists[n] <==> x in s.lists[n] && x in s.tv && s.tv[x].at > now {
      assert x in r.lists[n] <==> x in Elems(r.lists[n]);
      assert x in s.lists[n] <==> x in Elems(s.lists[n]);
      assert x in OfTimer(r.timed, r.tv, n) <==> x in OfTimer(s.timed, s.tv, n) && x !in due;
    }
  }

  lemma {:induction false} ExpiredIsDone(s: State, n: nat, now: int)
    requires Structure(s) && n < |s.lists| && Expired(s, n, now).lists[n] == []
    ensures ExpiryDone(s, Expired(s, n, now), n, now)
  {
    ExpiredEffect(s, n, now);
    ExpiredDoes(s, n, now);
  }

  lemma {:induction false} ScheduledIsDone(s: State, n: nat, now: int, r: State)
    requires Structure(s) && n < |s.lists| && Expired(s, n, now).lists[n] != []
    requires r == Scheduled(Expired(s, n, now), n)
    ensures ExpiryDone(s, r, n, now)
  {
    var a := Expired(s, n, now);
    ExpiredEffect(s, n, now);
    ExpiredDoes(s, n, now);
    ScheduledEffect(a, n);
    assert s.drivers[n] in Elems(s.drivers);
    ScheduledUsers(a, r, n);
  }

  lemma {:induction false} ScheduledUsers(a: State, r: State, n: nat)
    requires n < |a.drivers| && IsScheduled(a, r, n)
    ensures OthersKept(a, r, a.drivers[n])
  {
    var d := a.drivers[n];
    forall x | x in a.events && x !in Elems(a.drivers) && x != d ensures SameFields(a, r, x) {
      assert x in r.active - {d} <==> x in a.active - {d};
    }
  }

  lemma {:induction false} CommonCallbackDoes(s: State, n: nat, now: int)
    requires Inv(s) && n < |s.lists|
    ensures ExpiryDone(s, CommonCallback(s, n, now), n, now)
  {
    if Expired(s, n, now).lists[n] == [] {
      ExpiredIsDone(s, n, now);
    } else {
      ScheduledIsDone(s, n, now, Handled(s, n, now));
    }
  }

  /** The clock has gone back: every timer moves by as much, and nothing else changes. */
  lemma {:induction false} CorrectedDoes(s: State, off: int)
    ensures var r := Corrected(s, off);
      r == s.(tv := r.tv) && r.tv.Keys == s.tv.Keys &&
      forall x :: x in s.tv ==>
        r.tv[x].queue == s.tv[x].queue && r.tv[x].at == s.tv[x].at - (if x in s.timed then off else 0)
  {
  }
}
