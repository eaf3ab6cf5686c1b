/** The queues of an event base (libevent/event.c), as values: what it means that every event is
    exactly in the queues its flags say, that the counters are right, and that no common timeout
    is lost. */
module EventShape {

  /** A timeval: a time, and the common-timeout queue that the upper bits of tv_usec name
      (libevent/event.c:1080-1112); -1 for a plain one. */
  datatype Timeval = Timeval(at: int, queue: int)

  class Event {
    /** EVLIST_INTERNAL; any of EV_READ, EV_WRITE, EV_PRI, EV_SIGNAL; EV_PERSIST;
        EV_CLOSURE_PERSIST; the priority. */
    const internal: bool
    const io: bool
    const persist: bool
    const persistClosure: bool
    const pri: nat
    /** EVLIST_INSERTED, EVLIST_ACTIVE and EVLIST_TIMEOUT. */
    var inserted: bool
    var active: bool
    var timed: bool
    /** ev_timeout, ev_io_timeout, and EV_TIMEOUT in ev_res. */
    var timeout: Timeval
    var ioTimeout: Timeval
    var resTimeout: bool

    constructor (internal: bool, io: bool, persist: bool, persistClosure: bool, pri: nat)
      ensures this.internal == internal && this.io == io && this.persist == persist
      ensures this.persistClosure == persistClosure && this.pri == pri
      ensures !inserted && !active && !timed && !resTimeout && timeout == ioTimeout == Timeval(0, -1)
    {
      this.internal, this.io, this.persist, this.persistClosure, this.pri := internal, io, persist, persistClosure, pri;
      inserted, active, timed, resTimeout := false, false, false, false;
      timeout, ioTimeout := Timeval(0, -1), Timeval(0, -1);
    }
  }

  // ---------------------------------------------------------------- a queue and its elements

  ghost predicate NoDup(q: seq<Event>) {
    forall i, j :: 0 <= i < j < |q| ==> q[i] != q[j]
  }

  function Elems(q: seq<Event>): set<Event> {
    set x | x in q
  }

  /** The queue `q` has exactly the events `s`, each once. */
  ghost predicate QueueOf(q: seq<Event>, s: set<Event>) {
    NoDup(q) && Elems(q) == s
  }

  /** TAILQ_REMOVE. */
  function Removed(q: seq<Event>, e: Event): (r: seq<Event>) {
    if q == [] then [] else if q[0] == e then q[1..] else [q[0]] + Removed(q[1..], e)
  }

  lemma {:induction false} RemovedParts(q: seq<Event>, e: Event) returns (k: nat)
    requires e in q
    ensures k < |q| && q[k] == e && Removed(q, e) == q[..k] + q[k + 1..]
  {
    if q[0] == e {
      k := 0;
      assert q[..0] + q[1..] == q[1..];
    } else {
      var j := RemovedParts(q[1..], e);
      k := j + 1;
      ConsParts(q, j);
    }
  }

  lemma {:induction false} ConsParts(q: seq<Event>, j: nat)
    requires j + 1 < |q|
    ensures [q[0]] + (q[1..][..j] + q[1..][j + 1..]) == q[..j + 1] + q[j + 2..]
  {
  }

  lemma {:induction false} QueueRemoved(q: seq<Event>, s: set<Event>, e: Event)
    requires QueueOf(q, s) && e in s
    ensures QueueOf(Removed(q, e), s - {e}) && |Removed(q, e)| == |q| - 1
  {
    var k := RemovedParts(q, e);
    var r := q[..k] + q[k + 1..];
    forall x ensures x in Elems(r) <==> x in s - {e} {
      if x in s && x != e {
        var i :| 0 <= i < |q| && q[i] == x;
        assert r[if i < k then i else i - 1] == x;
      }
    }
  }

  lemma {:induction false} QueueAppended(q: seq<Event>, s: set<Event>, e: Event)
    requires QueueOf(q, s) && e !in s
    ensures QueueOf(q + [e], s + {e})
  {
    assert forall x :: x in Elems(q + [e]) <==> x in q || x == e;
  }

  lemma {:induction false} QueueInserted(q: seq<Event>, s: set<Event>, e: Event, k: nat)
    requires QueueOf(q, s) && e !in s && k <= |q|
    ensures QueueOf(q[..k] + [e] + q[k..], s + {e})
  {
    var r := q[..k] + [e] + q[k..];
    forall x ensures x in Elems(r) <==> x in s + {e} {
      if x in s {
        var i :| 0 <= i < |q| && q[i] == x;
        assert r[if i < k then i else i + 1] == x;
      }
      if x == e { assert r[k] == x; }
    }
  }

  // ---------------------------------------------------------------- counting

  /** The events that event_count counts. */
  ghost function Counted(s: set<Event>): set<Event> {
    set e | e in s && !e.internal
  }

  lemma {:induction false} CountedPlus(s: set<Event>, e: Event)
    requires e !in s
    ensures |Counted(s + {e})| == |Counted(s)| + (if e.internal then 0 else 1)
  {
    assert Counted(s + {e}) == if e.internal then Counted(s) else Counted(s) + {e};
  }

  lemma {:induction false} CountedMinus(s: set<Event>, e: Event)
    requires e in s
    ensures |Counted(s - {e})| == |Counted(s)| - (if e.internal then 0 else 1)
  {
    assert Counted(s - {e}) == if e.internal then Counted(s) else Counted(s) - {e};
  }

  /** The length of all queues together. */
  ghost function TotalLength(qs: seq<seq<Event>>): nat {
    if qs == [] then 0 else |qs[0]| + TotalLength(qs[1..])
  }

  lemma {:induction false} TotalLengthUpdate(qs: seq<seq<Event>>, p: nat, q: seq<Event>)
    requires p < |qs|
    ensures TotalLength(qs[p := q]) == TotalLength(qs) - |qs[p]| + |q|
  {
    if p > 0 {
      TotalLengthUpdate(qs[1..], p - 1, q);
      assert qs[p := q][1..] == qs[1..][p - 1 := q];
    } else {
      assert qs[p := q][1..] == qs[1..];
    }
  }

  lemma {:induction false} TotalLengthPart(qs: seq<seq<Event>>, p: nat)
    requires p < |qs|
    ensures |qs[p]| <= TotalLength(qs)
  {
    if p > 0 { TotalLengthPart(qs[1..], p - 1); }
  }

  // ---------------------------------------------------------------- the queues of the base

  ghost function OfPriority(active: set<Event>, p: int): set<Event> {
    set e | e in active && e.pri == p
  }

  ghost function OfTimer(timed: set<Event>, tv: map<Event, Timeval>, n: int): set<Event>
    requires timed <= tv.Keys
  {
    set e | e in timed && tv[e].queue == n
  }

  /** The events of each priority in its queue. */
  ghost predicate ActiveQueues(qs: seq<seq<Event>>, active: set<Event>) {
    (forall e :: e in active ==> e.pri < |qs|) &&
    forall p :: 0 <= p < |qs| ==> QueueOf(qs[p], OfPriority(active, p))
  }

  lemma {:induction false} ActivePlus(qs: seq<seq<Event>>, active: set<Event>, e: Event)
    requires ActiveQueues(qs, active) && e !in active && e.pri < |qs|
    ensures ActiveQueues(qs[e.pri := qs[e.pri] + [e]], active + {e})
    ensures TotalLength(qs[e.pri := qs[e.pri] + [e]]) == TotalLength(qs) + 1
  {
    var after, now := qs[e.pri := qs[e.pri] + [e]], active + {e};
    TotalLengthUpdate(qs, e.pri, qs[e.pri] + [e]);
    QueueAppended(qs[e.pri], OfPriority(active, e.pri), e);
    forall p | 0 <= p < |after| ensures QueueOf(after[p], OfPriority(now, p)) {
      assert OfPriority(now, p) == OfPriority(active, p) + (if p == e.pri then {e} else {});
    }
  }

  lemma {:induction false} ActiveMinus(qs: seq<seq<Event>>, active: set<Event>, e: Event)
    requires ActiveQueues(qs, active) && e in active
    ensures ActiveQueues(qs[e.pri := Removed(qs[e.pri], e)], active - {e})
    ensures TotalLength(qs[e.pri := Removed(qs[e.pri], e)]) == TotalLength(qs) - 1
  {
    var after, now := qs[e.pri := Removed(qs[e.pri], e)], active - {e};
    QueueRemoved(qs[e.pri], OfPriority(active, e.pri), e);
    TotalLengthUpdate(qs, e.pri, Removed(qs[e.pri], e));
    forall p | 0 <= p < |after| ensures QueueOf(after[p], OfPriority(now, p)) {
      assert OfPriority(now, p) == OfPriority(active, p) - (if p == e.pri then {e} else {});
    }
  }

  ghost predicate Sorted(q: seq<Event>, tv: map<Event, Timeval>)
    requires forall e :: e in q ==> e in tv
  {
    forall i, j :: 0 <= i < j < |q| ==> tv[q[i]].at <= tv[q[j]].at
  }

  /** The timed events of the common timeout `n`, in order of their times. */
  ghost predicate CommonList(q: seq<Event>, n: int, timed: set<Event>, tv: map<Event, Timeval>)
    requires timed <= tv.Keys
  {
    QueueOf(q, OfTimer(timed, tv, n)) &&
    (forall e :: e in q ==> e in timed) && Sorted(q, tv)
  }

  /** Every timed event is in the heap or in the list of its common timeout. */
  ghost predicate Timers(heap: set<Event>, lists: seq<seq<Event>>, timed: set<Event>, tv: map<Event, Timeval>) {
    timed <= tv.Keys && (forall e :: e in timed ==> -1 <= tv[e].queue < |lists|) &&
    heap == OfTimer(timed, tv, -1) &&
    forall n :: 0 <= n < |lists| ==> CommonList(lists[n], n, timed, tv)
  }

  lemma {:induction false} ListUnchanged(q: seq<Event>, n: int, timed: set<Event>, tv: map<Event, Timeval>,
                                         timed': set<Event>, tv': map<Event, Timeval>)
    requires timed <= tv.Keys && timed' <= tv'.Keys && CommonList(q, n, timed, tv)
    requires OfTimer(timed, tv, n) == OfTimer(timed', tv', n)
    requires forall e :: e in q ==> e in tv' && tv'[e].at == tv[e].at
    ensures CommonList(q, n, timed', tv')
  {
    forall e | e in q ensures e in timed' {
      assert e in Elems(q);
    }
  }

  /** A timer goes: from the heap, or from its list. */
  lemma {:induction false} TimersMinus(heap: set<Event>, lists: seq<seq<Event>>, timed: set<Event>,
                                       tv: map<Event, Timeval>, e: Event)
    requires Timers(heap, lists, timed, tv) && e in timed
    ensures var n := tv[e].queue;
      if n < 0 then Timers(heap - {e}, lists, timed - {e}, tv)
      else Timers(heap, lists[n := Removed(lists[n], e)], timed - {e}, tv)
  {
    var n := tv[e].queue;
    var lists' := if n < 0 then lists else lists[n := Removed(lists[n], e)];
    forall m | 0 <= m < |lists'| ensures CommonList(lists'[m], m, timed - {e}, tv) {
      var mine := OfTimer(timed, tv, m);
      assert OfTimer(timed - {e}, tv, m) == mine - (if m == n then {e} else {});
      if m == n {
        QueueRemoved(lists[m], mine, e);
        var k := RemovedParts(lists[m], e);
        assert forall x :: x in lists'[m] ==> x in lists[m];
        forall x | x in lists'[m] ensures x in timed - {e} { assert x in Elems(lists'[m]); }
      } else {
        ListUnchanged(lists[m], m, timed, tv, timed - {e}, tv);
      }
    }
  }

  /** A place in the order for the time `at`. */
  ghost predicate PlaceOf(q: seq<Event>, tv: map<Event, Timeval>, at: int, k: int)
    requires forall e :: e in q ==> e in tv
  {
    0 <= k <= |q| && (k > 0 ==> tv[q[k - 1]].at <= at) && forall i :: k <= i < |q| ==> at < tv[q[i]].at
  }

  /** The place of insert_common_timeout_inorder (libevent/event.c:2543-2571): after the last
      event that is not later. */
  ghost function Place(q: seq<Event>, tv: map<Event, Timeval>, at: int): (k: nat)
    requires forall e :: e in q ==> e in tv
    ensures PlaceOf(q, tv, at, k)
  {
    if q == [] then 0
    else if at >= tv[q[|q| - 1]].at then |q|
    else
      var k := Place(q[..|q| - 1], tv, at);
      k
  }

  /** A timer comes: into the heap, or in order into its list. */
  lemma {:induction false} TimersPlus(heap: set<Event>, lists: seq<seq<Event>>, timed: set<Event>,
                                      tv: map<Event, Timeval>, e: Event, t: Timeval, k: nat)
    requires Timers(heap, lists, timed, tv) && e !in timed && -1 <= t.queue < |lists|
    requires t.queue >= 0 ==> PlaceOf(lists[t.queue], tv, t.at, k)
    ensures var n, tv', timed' := t.queue, tv[e := t], timed + {e};
      if n < 0 then Timers(heap + {e}, lists, timed', tv')
      else Timers(heap, lists[n := lists[n][..k] + [e] + lists[n][k..]], timed', tv')
  {
    var n, tv', timed' := t.queue, tv[e := t], timed + {e};
    var lists' := if n < 0 then lists else lists[n := lists[n][..k] + [e] + lists[n][k..]];
    forall m | 0 <= m < |lists'| ensures CommonList(lists'[m], m, timed', tv') {
      var mine := OfTimer(timed, tv, m);
      assert OfTimer(timed', tv', m) == mine + (if m == n then {e} else {});
      if m == n {
        QueueInserted(lists[m], mine, e, k);
        var q := lists[m];
        forall x | x in lists'[m] ensures x in timed' { assert x in Elems(lists'[m]); }
        SortedInserted(q, tv, e, t, k);
      } else {
        ListUnchanged(lists[m], m, timed, tv, timed', tv');
      }
    }
  }

  lemma {:induction false} SortedInserted(q: seq<Event>, tv: map<Event, Timeval>, e: Event, t: Timeval, k: nat)
    requires (forall x :: x in q ==> x in tv) && Sorted(q, tv) && PlaceOf(q, tv, t.at, k) && e !in q
    ensures Sorted(q[..k] + [e] + q[k..], tv[e := t])
  {
    var r, tv' := q[..k] + [e] + q[k..], tv[e := t];
    forall i, j | 0 <= i < j < |r| ensures tv'[r[i]].at <= tv'[r[j]].at {
      if i < k && j == k && i < k - 1 {
        assert tv[q[i]].at <= tv[q[k - 1]].at;
      }
    }
  }
}
