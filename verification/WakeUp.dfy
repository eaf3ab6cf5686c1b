/** Waking the event loop from other threads (libevent/event.c:1977-2020 and 2713-2747,
    libevent/epoll.c:426-433), as a state machine whose steps interleave: the loop thread gives up
    the lock while it waits and while it drains the notify descriptor. */
module WakeUp {

  /** Where the loop thread is.  `mayWait` says whether the dispatch was called with a timeout
      other than zero, `notified` whether it has reported the notify descriptor. */
  datatype LoopPc =
    | Deciding                    // with the lock: event_base_loop before the dispatch
    | Entering(mayWait: bool)     // with the lock: the timeout is chosen, changes are applied
    | Waiting(mayWait: bool)      // without the lock: epoll_wait
    | Returned(notified: bool)    // without the lock: epoll_wait has returned
    | Processing                  // with the lock: active events and deferred callbacks
    | InCallback                  // without the lock: a callback of the user
    | Draining                    // without the lock: the drain callback, before its read
    | Drained                     // without the lock: the drain callback, after its read

  /** Where another thread is. */
  datatype OtherPc =
    | Outside                     // without the lock
    | Inside                      // with the lock
    | Noted                       // with the lock: it has changed something the loop must look at
    | Marked                      // with the lock: is_notify_pending is set, the write is to come

  datatype Owner = Free | Loop | Other(thread: nat)

  /** `active` counts active events and deferred callbacks but for the notify event, whose being
      active is `notifyActive`; `changed` says that the timers or interests have changed since
      the loop looked at them. */
  datatype State = State(
    loop: LoopPc, others: seq<OtherPc>, lock: Owner, isNotifyPending: bool, readable: bool,
    active: nat, notifyActive: bool, changed: bool)

  ghost predicate HoldsLock(pc: LoopPc) {
    pc.Deciding? || pc.Entering? || pc.Processing?
  }

  // ---------------------------------------------------------------- steps of the loop thread

  /** event_base_loop up to the dispatch (libevent/event.c:1583-1611): it waits only if nothing
      is active, and uses the current timers and interests. */
  ghost predicate Decide(s: State, r: State) {
    s.loop.Deciding? && r.loop.Entering? && (r.loop.mayWait ==> s.active == 0 && !s.notifyActive) &&
    r == s.(loop := r.loop, changed := false)
  }

  /** The dispatch gives up the lock (libevent/epoll.c:428). */
  ghost predicate Enter(s: State, r: State) {
    s.loop.Entering? && r == s.(loop := Waiting(s.loop.mayWait), lock := Free)
  }

  /** epoll_wait returns, for any reason; it may report the notify descriptor if it is readable
      (libevent/epoll.c:430). */
  ghost predicate Wake(s: State, r: State) {
    s.loop.Waiting? && r.loop.Returned? && (r.loop.notified ==> s.readable) && r == s.(loop := r.loop)
  }

  /** The dispatch takes the lock again and activates what was reported (libevent/epoll.c:432-466). */
  ghost predicate Return(s: State, r: State) {
    s.loop.Returned? && s.lock.Free? && r.active >= s.active &&
    r == s.(loop := Processing, lock := Loop, active := r.active, notifyActive := s.notifyActive || s.loop.notified)
  }

  /** A callback of the user is called, without the lock (libevent/event.c:1327-1350). */
  ghost predicate CallUser(s: State, r: State) {
    s.loop.Processing? && s.active > 0 && r == s.(loop := InCallback, lock := Free, active := s.active - 1)
  }

  /** The callback is done, after any changes of its own, which need no notification. */
  ghost predicate UserDone(s: State, r: State) {
    s.loop.InCallback? && s.lock.Free? &&
    r == s.(loop := Processing, lock := Loop, active := r.active, changed := r.changed)
  }

  /** The callback of the notify event is called, without the lock (libevent/event.c:2713-2735). */
  ghost predicate CallDrain(s: State, r: State) {
    s.loop.Processing? && s.notifyActive && r == s.(loop := Draining, lock := Free, notifyActive := false)
  }

  /** It reads the descriptor (libevent/event.c:2720 and 2738-2743). */
  ghost predicate Read(s: State, r: State) {
    s.loop.Draining? && r == s.(loop := Drained, readable := false)
  }

  /** It takes the lock and clears the flag (libevent/event.c:2724-2726 and 2745-2747). */
  ghost predicate Clear(s: State, r: State) {
    s.loop.Drained? && s.lock.Free? && r == s.(loop := Processing, lock := Loop, isNotifyPending := false)
  }

  /** The next turn of the loop; events may be left active. */
  ghost predicate NextTurn(s: State, r: State) {
    s.loop.Processing? && r == s.(loop := Deciding)
  }

  ghost predicate LoopStep(s: State, r: State) {
    Decide(s, r) || Enter(s, r) || Wake(s, r) || Return(s, r) || CallUser(s, r) || UserDone(s, r) ||
    CallDrain(s, r) || Read(s, r) || Clear(s, r) || NextTurn(s, r)
  }

  // ---------------------------------------------------------------- steps of another thread

  ghost predicate At(s: State, t: nat, pc: OtherPc) {
    t < |s.others| && s.others[t] == pc
  }

  ghost predicate Acquire(s: State, r: State, t: nat) {
    At(s, t, Outside) && s.lock.Free? && r == s.(others := s.others[t := Inside], lock := Other(t))
  }

  ghost predicate Release(s: State, r: State, t: nat) {
    At(s, t, Inside) && r == s.(others := s.others[t := Outside], lock := Free)
  }

  /** event_active or event_deferred_cb_schedule, before the notification (libevent/event.c:2283-2324
      and 2356-2373). */
  ghost predicate Activate(s: State, r: State, t: nat) {
    At(s, t, Inside) && r == s.(others := s.others[t := Noted], active := s.active + 1)
  }

  /** event_add or event_del when the loop must look again, before the notification
      (libevent/event.c:2165-2167 and 2253-2255). */
  ghost predicate Change(s: State, r: State, t: nat) {
    At(s, t, Inside) && r == s.(others := s.others[t := Noted], changed := true)
  }

  /** An event is deleted, or its activation taken back; there is nothing to notify of. */
  ghost predicate Withdraw(s: State, r: State, t: nat) {
    At(s, t, Inside) && s.active > 0 && r == s.(active := s.active - 1)
  }

  /** evthread_notify_base up to its write (libevent/event.c:2011-2019). */
  ghost predicate Mark(s: State, r: State, t: nat) {
    At(s, t, Noted) &&
    r == if s.isNotifyPending then s.(others := s.others[t := Inside])
         else s.(others := s.others[t := Marked], isNotifyPending := true)
  }

  /** Its write (libevent/event.c:1977-2006). */
  ghost predicate Write(s: State, r: State, t: nat) {
    At(s, t, Marked) && r == s.(others := s.others[t := Inside], readable := true)
  }

  ghost predicate OtherStep(s: State, r: State, t: nat) {
    Acquire(s, r, t) || Release(s, r, t) || Activate(s, r, t) || Change(s, r, t) || Withdraw(s, r, t) ||
    Mark(s, r, t) ||
    Write(s, r, t)
  }

  ghost predicate Next(s: State, r: State) {
    LoopStep(s, r) || exists t: nat :: OtherStep(s, r, t)
  }

  /** The loop thread has just taken the lock; nothing is active yet. */
  ghost predicate Init(s: State) {
    s.loop == Deciding && s.lock == Loop && !s.isNotifyPending && !s.readable && s.active == 0 && !s.notifyActive &&
    forall t :: 0 <= t < |s.others| ==> s.others[t] == Outside
  }

  // ---------------------------------------------------------------- the invariant

  /** The lock is held exactly by the thread that its place says. */
  ghost predicate LockOk(s: State) {
    (HoldsLock(s.loop) <==> s.lock == Loop) &&
    forall t {:trigger s.others[t]} :: 0 <= t < |s.others| ==> (s.others[t] != Outside <==> s.lock == Other(t))
  }

  /** Some other thread is at `pc`. */
  ghost predicate SomeAt(s: State, pc: OtherPc) {
    exists t: nat :: At(s, t, pc)
  }

  /** is_notify_pending means that the descriptor is readable, or that the drain callback has
      read it and not yet cleared the flag, or that the write is about to come. */
  ghost predicate PendingOk(s: State) {
    s.isNotifyPending ==> s.readable || s.loop.Drained? || SomeAt(s, Marked)
  }

  /** While the loop waits, or is about to, anything new to look at has been notified of. */
  ghost predicate NotedOk(s: State) {
    (s.loop.Entering? && s.loop.mayWait ==> s.active == 0 && !s.notifyActive && !s.changed) &&
    (s.loop.Waiting? && (s.changed || (s.loop.mayWait && (s.active > 0 || s.notifyActive))) ==>
       s.isNotifyPending || SomeAt(s, Noted))
  }

  ghost predicate Inv(s: State) {
    LockOk(s) && PendingOk(s) && NotedOk(s) && (s.loop.Entering? ==> !s.changed)
  }

  lemma {:induction false} InitInv(s: State)
    requires Init(s)
    ensures Inv(s)
  {
    assert s.lock != Other(0);
  }

  lemma {:induction false} LoopStepInv(s: State, r: State)
    requires Inv(s) && LoopStep(s, r)
    ensures Inv(r)
  {
    forall t: nat, pc | At(s, t, pc) ensures At(r, t, pc) {}
    if SomeAt(s, Marked) { var t: nat :| At(s, t, Marked); assert At(r, t, Marked); }
    if SomeAt(s, Noted) { var t: nat :| At(s, t, Noted); assert At(r, t, Noted); }
  }

  lemma {:induction false} OtherStepInv(s: State, r: State, t: nat)
    requires Inv(s) && OtherStep(s, r, t)
    ensures Inv(r)
  {
    if SomeAt(s, Marked) { var u: nat :| At(s, u, Marked); assert u == t || At(r, u, Marked); }
    if SomeAt(s, Noted) { var u: nat :| At(s, u, Noted); assert u == t || At(r, u, Noted); }
    if t < |r.others| { assert At(r, t, r.others[t]); }
  }

  lemma {:induction false} NextInv(s: State, r: State)
    requires Inv(s) && Next(s, r)
    ensures Inv(r)
  {
    if LoopStep(s, r) {
      LoopStepInv(s, r);
    } else {
      var t: nat :| OtherStep(s, r, t);
      OtherStepInv(s, r, t);
    }
  }

  /** A run: any number of steps of any threads. */
  ghost predicate IsRun(trace: seq<State>) {
    trace != [] && Init(trace[0]) && forall i :: 0 <= i < |trace| - 1 ==> Next(trace[i], trace[i + 1])
  }

  lemma {:induction false} RunInv(trace: seq<State>, i: nat)
    requires IsRun(trace) && i < |trace|
    ensures Inv(trace[i])
  {
    if i == 0 {
      InitInv(trace[0]);
    } else {
      RunInv(trace, i - 1);
      assert Next(trace[i - 1], trace[i - 1 + 1]);
      NextInv(trace[i - 1], trace[i]);
    }
  }

  /** A thread that is inside holds the lock. */
  lemma {:induction false} InsideHoldsLock(s: State, pc: OtherPc)
    requires Inv(s) && pc != Outside && SomeAt(s, pc)
    ensures s.lock.Other? && At(s, s.lock.thread, pc)
  {
    var t: nat :| At(s, t, pc);
    assert s.others[t] != Outside;
  }

  /** No wake-up is lost: whenever the loop thread waits although there is an active event, a
      deferred callback or a change it has not seen, the notify descriptor is readable, unless
      another thread holds the lock and is on its way to making it so. */
  lemma {:induction false} NoLostWakeUp(trace: seq<State>, i: nat)
    requires IsRun(trace) && i < |trace|
    ensures var s := trace[i];
      s.loop.Waiting? && (s.changed || (s.loop.mayWait && s.active > 0)) ==>
        s.readable || (s.lock.Other? && (At(s, s.lock.thread, Noted) || At(s, s.lock.thread, Marked)))
  {
    RunInv(trace, i);
    if SomeAt(trace[i], Noted) { InsideHoldsLock(trace[i], Noted); }
    if SomeAt(trace[i], Marked) { InsideHoldsLock(trace[i], Marked); }
  }

  /** The notify flag is only ever set together with a way out of the wait: if the loop waits
      and the flag is set while the lock is free, the wait can end with the notification. */
  lemma {:induction false} PendingWakes(trace: seq<State>, i: nat)
    requires IsRun(trace) && i < |trace|
    requires trace[i].loop.Waiting? && trace[i].isNotifyPending && trace[i].lock.Free?
    ensures Wake(trace[i], trace[i].(loop := Returned(true)))
  {
    RunInv(trace, i);
    if SomeAt(trace[i], Marked) { InsideHoldsLock(trace[i], Marked); }
  }

  /** Mutual exclusion: the loop and the other threads never hold the lock together. */
  lemma {:induction false} LockIsExclusive(trace: seq<State>, i: nat, t: nat, u: nat)
    requires IsRun(trace) && i < |trace| && t < |trace[i].others| && u < |trace[i].others|
    ensures var s := trace[i];
      !(HoldsLock(s.loop) && s.others[t] != Outside) && (s.others[t] != Outside && s.others[u] != Outside ==> t == u)
  {
    RunInv(trace, i);
  }
}
