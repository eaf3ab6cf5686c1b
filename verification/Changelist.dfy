/** What the events of a file descriptor want, the changes that are kept back until the next
    dispatch (libevent/changelist-internal.h, libevent/evmap.c:577-755), and what epoll makes of
    them (libevent/epoll.c:173-368). */
module Changelist {

  /** EV_READ, EV_WRITE and EV_PRI. */
  datatype Mask = Mask(read: bool, write: bool, pri: bool) {
    predicate IsEmpty() {
      !read && !write && !pri
    }
  }

  const NOTHING := Mask(false, false, false)

  /** EV_CHANGE_ADD, EV_CHANGE_DEL or 0; edge triggering is not modelled. */
  datatype Op = Keep | Add | Del

  datatype Change = Change(fd: int, before: Mask, read: Op, write: Op, pri: Op) {
    predicate HasAdd() {
      read.Add? || write.Add? || pri.Add?
    }

    predicate HasDel() {
      read.Del? || write.Del? || pri.Del?
    }
  }

  function Result(before: bool, op: Op): bool {
    op.Add? || (op.Keep? && before)
  }

  /** What the events of the descriptor are to be after the change. */
  function Target(ch: Change): Mask {
    Mask(Result(ch.before.read, ch.read), Result(ch.before.write, ch.write), Result(ch.before.pri, ch.pri))
  }

  // ---------------------------------------------------------------- coalescing

  /** The branches of event_changelist_add (libevent/evmap.c:678-690). */
  function Added(ch: Change, events: Mask): Change {
    ch.(read := if events.read then Add else ch.read,
        write := if events.write then Add else ch.write,
        pri := if events.pri then Add else ch.pri)
  }

  function Deleted1(before: bool, op: Op): Op {
    if !before && op.Add? then Keep else Del
  }

  /** The branches of event_changelist_del (libevent/evmap.c:727-750). */
  function Deleted(ch: Change, events: Mask): Change {
    ch.(read := if events.read then Deleted1(ch.before.read, ch.read) else ch.read,
        write := if events.write then Deleted1(ch.before.write, ch.write) else ch.write,
        pri := if events.pri then Deleted1(ch.before.pri, ch.pri) else ch.pri)
  }

  function Plus(m: Mask, n: Mask): Mask {
    Mask(m.read || n.read, m.write || n.write, m.pri || n.pri)
  }

  function Minus(m: Mask, n: Mask): Mask {
    Mask(m.read && !n.read, m.write && !n.write, m.pri && !n.pri)
  }

  /** Folding an addition into a change has the effect of the change and then the addition. */
  lemma {:induction false} AddedTarget(ch: Change, events: Mask)
    ensures Target(Added(ch, events)) == Plus(Target(ch), events) && Added(ch, events).before == ch.before
  {
  }

  /** The same for a deletion.  One that takes back an addition leaves no change behind. */
  lemma {:induction false} DeletedTarget(ch: Change, events: Mask)
    ensures Target(Deleted(ch, events)) == Minus(Target(ch), events) && Deleted(ch, events).before == ch.before
  {
  }

  // ---------------------------------------------------------------- the kernel

  /** An interest list of epoll: the descriptors that are registered, and for what. */
  type Kernel = map<int, Mask>

  function Registered(k: Kernel, fd: int): Mask {
    if fd in k then k[fd] else NOTHING
  }

  datatype Ctl = CtlAdd | CtlMod | CtlDel

  datatype Errno = Ok | EExist | ENoent | EBadf | EPerm

  /** What the descriptor stands for: a file that epoll can watch, none any more because it was
      closed, or a file of another kind.  In the last two cases nothing is registered for it. */
  datatype File = Pollable | Gone | Other

  /** epoll_ctl, as its manual page says. */
  function EpollCtl(k: Kernel, file: File, op: Ctl, fd: int, events: Mask): (Errno, Kernel) {
    if file.Gone? then (EBadf, k)
    else if file.Other? then (EPerm, k)
    else match op
    case CtlAdd => if fd in k then (EExist, k) else (Ok, k[fd := events])
    case CtlMod => if fd in k then (Ok, k[fd := events]) else (ENoent, k)
    case CtlDel => if fd in k then (Ok, k - {fd}) else (ENoent, k)
  }

  /** The operation and events that epoll_apply_one_change chooses (libevent/epoll.c:193-281);
      no events means that there is nothing to do. */
  function Choice(ch: Change): (Ctl, Mask) {
    if ch.HasAdd() then
      (if ch.before.IsEmpty() then CtlAdd else CtlMod, Target(ch))
    else if ch.HasDel() then
      if ch.read.Del? then
        if ch.write.Del? then (CtlDel, Mask(true, true, false))
        else if ch.before.write then (CtlMod, Mask(false, true, false))
        else (CtlDel, Mask(true, false, false))
      else if ch.write.Del? then
        if ch.before.read then (CtlMod, Mask(true, false, false)) else (CtlDel, Mask(false, true, false))
      else (CtlDel, Mask(false, false, true))
    else (CtlAdd, NOTHING)
  }

  /** The branches of epoll_apply_one_change (libevent/epoll.c:193-276). */
  method Choose(ch: Change) returns (op: Ctl, events: Mask)
    ensures (op, events) == Choice(ch)
  {
    op, events := CtlAdd, NOTHING;
    if ch.read.Add? || ch.write.Add? || ch.pri.Add? {
      events := Mask(ch.read.Add? || (!ch.read.Del? && ch.before.read),
        ch.write.Add? || (!ch.write.Del? && ch.before.write),
                     ch.pri.Add? || (!ch.pri.Del? && ch.before.pri));
      if !ch.before.IsEmpty() {
        op := CtlMod;
      }
    } else if ch.read.Del? || ch.write.Del? || ch.pri.Del? {
      op := CtlDel;
      if ch.read.Del? {
        if ch.write.Del? {
          events := Mask(true, true, false);
        } else if ch.before.write {
          events := Mask(false, true, false);
          op := CtlMod;
        } else {
          events := Mask(true, false, false);
        }
      } else if ch.write.Del? {
        if ch.before.read {
          events := Mask(true, false, false);
          op := CtlMod;
        } else {
          events := Mask(false, true, false);
        }
      } else if ch.pri.Del? {
        events := Mask(false, false, true);
      }
    }
  }

  /** epoll_apply_one_change (libevent/epoll.c:173-350): a failed modification is retried as an
      addition and the other way round; a failed deletion was unnecessary.  It fails exactly when
      something is to be registered for a descriptor that cannot be. */
  method ApplyOne(k: Kernel, file: File, ch: Change) returns (r: int, k': Kernel)
    requires !file.Pollable? ==> ch.fd !in k
    ensures r == 0 || r == -1
    ensures r == 0 <==> file.Pollable? || Applied(NOTHING, ch) == NOTHING
    ensures forall fd :: fd != ch.fd ==> Registered(k', fd) == Registered(k, fd)
    ensures r == 0 ==> Registered(k', ch.fd) == Applied(Registered(k, ch.fd), ch)
    ensures !file.Pollable? ==> Registered(k', ch.fd) == NOTHING
    ensures file.Pollable? && (ch.HasAdd() || ch.HasDel()) ==> Registered(k', ch.fd) == Applied(NOTHING, ch)
  {
    r, k' := 0, k;
    var op, events := Choose(ch);
    if events.IsEmpty() {
      return;
    }
    var first := EpollCtl(k, file, op, ch.fd, events);
    k' := first.1;
    if first.0 != Ok {
      if op == CtlMod && first.0 == ENoent {
        var again := EpollCtl(k, file, CtlAdd, ch.fd, events);
        r, k' := if again.0 == Ok then 0 else -1, again.1;
      } else if op == CtlAdd && first.0 == EExist {
        var again := EpollCtl(k, file, CtlMod, ch.fd, events);
        r, k' := if again.0 == Ok then 0 else -1, again.1;
      } else if op == CtlDel && (first.0 == ENoent || first.0 == EBadf || first.0 == EPerm) {
      } else {
        r := -1;
      }
    }
  }

  /** What the descriptor is registered for after the change, when it was for `m` before. */
  function Applied(m: Mask, ch: Change): Mask {
    var (op, events) := Choice(ch);
    if events.IsEmpty() then m else if op.CtlDel? then NOTHING else events
  }

  /** The change does not delete while something it does not look at is to remain: with
      EV_READ or EV_WRITE deleted, EV_PRI must not be left over, and with only EV_PRI deleted,
      EV_READ and EV_WRITE must not be. */
  predicate LeavesNothingBehind(ch: Change) {
    ch.HasAdd() || !ch.HasDel() ||
    if ch.read.Del? || ch.write.Del? then !(ch.before.pri && !ch.pri.Del?) else !ch.before.read && !ch.before.write
  }

  /** epoll_apply_one_change does what the change says exactly when the change leaves nothing
      behind (the branch at libevent/epoll.c:250-276 does not look at the other old events). */
  lemma {:induction false} AppliedIsTarget(m: Mask, ch: Change)
    requires m == ch.before
    ensures Applied(m, ch) == Target(ch) <==> LeavesNothingBehind(ch)
  {
  }

  /** An event for EV_PRI next to one for EV_READ: deleting the latter also loses the former. */
  lemma {:induction false} PriIsLost()
    ensures var ch := Change(3, Mask(true, false, true), Del, Keep, Keep);
      Target(ch) == Mask(false, false, true) && Applied(ch.before, ch) == NOTHING
  {
  }

  /** Without EV_PRI the condition always holds. */
  lemma {:induction false} WithoutPri(ch: Change)
    requires !ch.before.pri && ch.pri.Keep?
    ensures LeavesNothingBehind(ch)
  {
  }
}
