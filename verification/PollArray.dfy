/** The dense array of the poll backend (libevent/poll.c:205-318): a slot for every descriptor
    that is watched, and its place in the descriptor's fdinfo. */
module PollArray {
  import M = EventMap

  /** POLLIN and POLLOUT. */
  datatype Mask = Mask(pollIn: bool, pollOut: bool)

  const NOTHING := Mask(false, false)

  datatype PollFd = PollFd(fd: int, events: Mask)

  function Plus(m: Mask, n: Mask): Mask {
    Mask(m.pollIn || n.pollIn, m.pollOut || n.pollOut)
  }

  function Minus(m: Mask, n: Mask): Mask {
    Mask(m.pollIn && !n.pollIn, m.pollOut && !n.pollOut)
  }

  // ---------------------------------------------------------------- slots and places

  ghost predicate SlotOk(slots: seq<PollFd>, idx: map<int, nat>, i: nat)
    requires i < |slots|
  {
    slots[i].fd in idx && idx[slots[i].fd] == i + 1 && slots[i].events != NOTHING
  }

  ghost predicate PlaceOk(slots: seq<PollFd>, idx: map<int, nat>, fd: int) {
    fd in idx ==> idx[fd] <= |slots| && (idx[fd] != 0 ==> slots[idx[fd] - 1].fd == fd)
  }

  /** Slots and places are inverse to each other, and every slot is for something. */
  ghost predicate Inverse(slots: seq<PollFd>, idx: map<int, nat>) {
    (forall i {:trigger SlotOk(slots, idx, i)} :: 0 <= i < |slots| ==> SlotOk(slots, idx, i)) &&
    forall fd {:trigger PlaceOk(slots, idx, fd)} :: PlaceOk(slots, idx, fd)
  }

  /** What the descriptor is watched for. */
  ghost function Watched(slots: seq<PollFd>, idx: map<int, nat>, fd: int): Mask {
    if fd in idx && 0 < idx[fd] <= |slots| then slots[idx[fd] - 1].events else NOTHING
  }

  /** No descriptor has two slots. */
  lemma {:induction false} NoDuplicates(slots: seq<PollFd>, idx: map<int, nat>, i: nat, j: nat)
    requires Inverse(slots, idx) && i < |slots| && j < |slots| && slots[i].fd == slots[j].fd
    ensures i == j
  {
    assert SlotOk(slots, idx, i) && SlotOk(slots, idx, j);
  }

  /** The events of a slot are replaced by others. */
  lemma {:induction false} Rewritten(slots: seq<PollFd>, idx: map<int, nat>, i: nat, m: Mask)
    requires Inverse(slots, idx) && i < |slots| && m != NOTHING
    ensures var r := slots[i := PollFd(slots[i].fd, m)];
      Inverse(r, idx) &&
      forall fd :: Watched(r, idx, fd) == if fd == slots[i].fd then m else Watched(slots, idx, fd)
  {
    var r := slots[i := PollFd(slots[i].fd, m)];
    assert SlotOk(slots, idx, i);
    forall k | 0 <= k < |r| ensures SlotOk(r, idx, k) { assert SlotOk(slots, idx, k); }
    forall fd ensures PlaceOk(r, idx, fd) &&
      Watched(r, idx, fd) == if fd == slots[i].fd then m else Watched(slots, idx, fd) {
      assert PlaceOk(slots, idx, fd);
    }
  }

  /** A new slot at the end. */
  lemma {:induction false} Extended(slots: seq<PollFd>, idx: map<int, nat>, fd: int, m: Mask)
    requires Inverse(slots, idx) && (fd in idx ==> idx[fd] == 0) && m != NOTHING
    ensures var r, idx' := slots + [PollFd(fd, m)], idx[fd := |slots| + 1];
      Inverse(r, idx') && forall g :: Watched(r, idx', g) == if g == fd then m else Watched(slots, idx, g)
  {
    var r, idx' := slots + [PollFd(fd, m)], idx[fd := |slots| + 1];
    forall k | 0 <= k < |r| ensures SlotOk(r, idx', k) {
      if k < |slots| { assert SlotOk(slots, idx, k); }
    }
    forall g ensures PlaceOk(r, idx', g) && Watched(r, idx', g) == if g == fd then m else Watched(slots, idx, g) {
      assert PlaceOk(slots, idx, g);
    }
  }

  /** The slots without the one at `i`, whose place the last slot takes. */
  ghost function SwappedOut(slots: seq<PollFd>, i: nat): seq<PollFd>
    requires i < |slots|
  {
    slots[i := slots[|slots| - 1]][..|slots| - 1]
  }

  ghost function PlacesWithout(slots: seq<PollFd>, idx: map<int, nat>, i: nat): map<int, nat>
    requires i < |slots|
  {
    var gone := idx[slots[i].fd := 0];
    if i == |slots| - 1 then gone else gone[slots[|slots| - 1].fd := i + 1]
  }

  lemma {:induction false} Shrunk(slots: seq<PollFd>, idx: map<int, nat>, i: nat)
    requires Inverse(slots, idx) && i < |slots|
    ensures var r, idx' := SwappedOut(slots, i), PlacesWithout(slots, idx, i);
      Inverse(r, idx') && forall fd :: Watched(r, idx', fd) == if fd == slots[i].fd then NOTHING
        else Watched(slots, idx, fd)
  {
    var r, idx' := SwappedOut(slots, i), PlacesWithout(slots, idx, i);
    var n := |slots| - 1;
    assert SlotOk(slots, idx, i) && SlotOk(slots, idx, n);
    forall k | 0 <= k < |r| ensures SlotOk(r, idx', k) { assert SlotOk(slots, idx, k); }
    forall fd ensures PlaceOk(r, idx', fd) &&
      Watched(r, idx', fd) == if fd == slots[i].fd then NOTHING else Watched(slots, idx, fd) {
      assert PlaceOk(slots, idx, fd);
    }
  }

  // ---------------------------------------------------------------- the backend

  class PollOp {
    var eventCount: nat
    var nfds: nat
    var eventSet: array<PollFd>
    /** The fdinfo of each descriptor. */
    var idxplus1: map<int, nat>

    ghost function Slots(): seq<PollFd>
      requires nfds <= eventSet.Length
      reads this`nfds, this`eventSet, eventSet
    {
      eventSet[..nfds]
    }

    /** The slots and places agree, and there is room for the slots. */
    ghost predicate Valid()
      reads this, eventSet
    {
      eventSet.Length == eventCount && nfds <= eventCount && Inverse(Slots(), idxplus1)
    }

    ghost function WatchedFor(fd: int): Mask
      requires Valid()
      reads this, eventSet
    {
      Watched(Slots(), idxplus1, fd)
    }

    constructor ()
      ensures Valid() && fresh(eventSet) && forall fd :: WatchedFor(fd) == NOTHING
    {
      eventCount, nfds, idxplus1 := 0, 0, map[];
      eventSet := new PollFd[0];
    }

    /** The array grows when it is about to be full (libevent/poll.c:220-240). */
    method Grow()
      requires Valid()
      modifies this`eventCount, this`eventSet
      ensures Valid() && nfds < eventCount && (eventSet == old(eventSet) || fresh(eventSet)) && Slots() == old(Slots())
    {
      ghost var slots := Slots();
      if nfds + 1 >= eventCount {
        var count := if eventCount < 32 then 32 else eventCount * 2;
        var moved := new PollFd[count](i => PollFd(0, NOTHING));
        forall i | 0 <= i < nfds {
          moved[i] := eventSet[i];
        }
        assert moved[..nfds] == slots;
        eventSet, eventCount := moved, count;
      }
      assert Slots() == slots;
    }

    /** poll_add (libevent/poll.c:210-261). */
    method Add(fd: int, events: Mask) returns (result: int)
      requires Valid()
      modifies this, eventSet
      ensures Valid() && (eventSet == old(eventSet) || fresh(eventSet)) && result == 0
      ensures forall g :: WatchedFor(g) == if g == fd then Plus(old(WatchedFor(fd)), events) else old(WatchedFor(g))
    {
      result := 0;
      if events == NOTHING {
        return;
      }
      Grow();
      ghost var slots, idx := Slots(), idxplus1;
      assert PlaceOk(slots, idx, fd);
      if fd in idxplus1 && idxplus1[fd] != 0 {
        var i := idxplus1[fd] - 1;
        Rewritten(slots, idx, i, Plus(slots[i].events, events));
        eventSet[i] := PollFd(eventSet[i].fd, Plus(eventSet[i].events, events));
        assert Slots() == slots[i := PollFd(fd, Plus(slots[i].events, events))];
      } else {
        Extended(slots, idx, fd, events);
        eventSet[nfds] := PollFd(fd, events);
        nfds := nfds + 1;
        idxplus1 := idxplus1[fd := nfds];
        assert Slots() == slots + [PollFd(fd, events)];
      }
    }

    /** poll_del (libevent/poll.c:271-318). */
    method Del(fd: int, events: Mask) returns (result: int)
      requires Valid()
      modifies this`nfds, this`idxplus1, eventSet
      ensures Valid() && eventSet == old(eventSet)
      ensures forall g :: WatchedFor(g) == if g == fd then Minus(old(WatchedFor(fd)), events) else old(WatchedFor(g))
      ensures result == if events != NOTHING && old(WatchedFor(fd)) == NOTHING then -1 else 0
    {
      ghost var slots, idx := Slots(), idxplus1;
      assert PlaceOk(slots, idx, fd);
      if events == NOTHING {
        return 0;
      }
      if fd !in idxplus1 || idxplus1[fd] == 0 {
        return -1;
      }
      var i := idxplus1[fd] - 1;
      assert SlotOk(slots, idx, i);
      result := 0;
      var left := Minus(eventSet[i].events, events);
      if left != NOTHING {
        Rewritten(slots, idx, i, left);
        eventSet[i] := PollFd(fd, left);
        assert Slots() == slots[i := PollFd(fd, left)];
        return;
      }
      Shrunk(slots, idx, i);
      idxplus1 := idxplus1[fd := 0];
      nfds := nfds - 1;
      if i != nfds {
        eventSet[i] := eventSet[nfds];
        idxplus1 := idxplus1[eventSet[i].fd := i + 1];
      }
      assert Slots() == SwappedOut(slots, i);
    }
  }

  // ---------------------------------------------------------------- the map of events

  /** What a mask of the event map means to poll, which knows no EV_PRI. */
  ghost function ForPoll(m: M.Changelist.Mask): Mask {
    Mask(m.read, m.write)
  }

  ghost predicate SlotFits(io: map<int, M.Slot>, watched: Mask, fd: int) {
    (fd in io ==> M.SlotOk(io[fd])) && watched == if fd in io then ForPoll(M.Wanted(io[fd])) else NOTHING
  }

  ghost predicate Fits(io: map<int, M.Slot>, slots: seq<PollFd>, idx: map<int, nat>) {
    forall fd {:trigger SlotFits(io, Watched(slots, idx, fd), fd)} :: SlotFits(io, Watched(slots, idx, fd), fd)
  }

  /** The slot of a descriptor changes, and the array with it. */
  lemma {:induction false} FitsAgain(io: map<int, M.Slot>, slots: seq<PollFd>, idx: map<int, nat>,
                                     slots': seq<PollFd>, idx': map<int, nat>, fd: int, slot: M.Slot)
    requires Fits(io, slots, idx) && M.SlotOk(slot) && Watched(slots', idx', fd) == ForPoll(M.Wanted(slot))
    requires forall g :: g != fd ==> Watched(slots', idx', g) == Watched(slots, idx, g)
    ensures Fits(io[fd := slot], slots', idx')
  {
    forall g ensures SlotFits(io[fd := slot], Watched(slots', idx', g), g) {
      assert SlotFits(io, Watched(slots, idx, g), g);
    }
  }

  /** The event map over the poll backend (libevent/evmap.c:260-405). */
  class PollMap {
    const op: PollOp
    var io: map<int, M.Slot>

    constructor ()
      ensures Valid() && fresh(op) && fresh(op.eventSet) && forall fd :: Events(fd) == []
    {
      op := new PollOp();
      io := map[];
      new;
      forall fd ensures Watched(op.Slots(), op.idxplus1, fd) == op.WatchedFor(fd) {}
    }

    ghost predicate Valid()
      reads this, op, op.eventSet
    {
      op.Valid() && Fits(io, op.Slots(), op.idxplus1)
    }

    ghost function Events(fd: int): seq<M.Watcher>
      reads this`io
    {
      if fd in io then io[fd].events else []
    }

    /** The array watches every descriptor for exactly the union of what its events want. */
    lemma {:induction false} WatchesTheUnion(fd: int)
      requires Valid()
      ensures op.WatchedFor(fd) == ForPoll(M.Union(Events(fd)))
      ensures op.WatchedFor(fd).pollIn <==> exists i :: 0 <= i < |Events(fd)| && Events(fd)[i].mask.read
      ensures op.WatchedFor(fd).pollOut <==> exists i :: 0 <= i < |Events(fd)| && Events(fd)[i].mask.write
    {
      M.UnionHas(Events(fd));
      assert SlotFits(io, Watched(op.Slots(), op.idxplus1, fd), fd);
      M.CountsAreUnion(Events(fd));
    }

    /** Hands the change of a slot to the backend, and keeps the slot. */
    method Tell(fd: int, slot: M.Slot, res: M.Changelist.Mask, added: bool) returns (result: int)
      requires Valid() && M.SlotOk(slot) && !res.IsEmpty()
      requires var w := if fd in io then M.Wanted(io[fd]) else M.Changelist.NOTHING;
        M.Wanted(slot) == (if added then M.Changelist.Plus(w, res) else M.Changelist.Minus(w, res)) &&
        (!added ==> (res.read ==> w.read) && (res.write ==> w.write))
      modifies this`io, op, op.eventSet
      ensures Valid() && (op.eventSet == old(op.eventSet) || fresh(op.eventSet))
      ensures result == 0 && io == old(io)[fd := slot]
    {
      ghost var slots, idx := op.Slots(), op.idxplus1;
      assert SlotFits(io, Watched(slots, idx, fd), fd);
      assert op.WatchedFor(fd) == Watched(slots, idx, fd);
      var mask := Mask(res.read, res.write);
      if added {
        result := op.Add(fd, mask);
      } else {
        result := op.Del(fd, mask);
      }
      forall g ensures Watched(op.Slots(), op.idxplus1, g) == op.WatchedFor(g) &&
        old(op.WatchedFor(g)) == Watched(slots, idx, g) {
      }
      FitsAgain(io, slots, idx, op.Slots(), op.idxplus1, fd, slot);
      io := io[fd := slot];
    }

    method IoAdd(fd: int, w: M.Watcher) returns (result: int)
      requires Valid()
      modifies this`io, op, op.eventSet
      ensures Valid() && (op.eventSet == old(op.eventSet) || fresh(op.eventSet))
      ensures Events(fd) == if fd < 0 || result < 0 then old(Events(fd)) else old(Events(fd)) + [w]
      ensures forall g :: g != fd ==> Events(g) == old(Events(g))
      ensures result < 0 <==> fd >= 0 && M.IoMap.TooMany(old(Events(fd)) + [w])
    {
      result := 0;
      if fd < 0 {
        return;
      }
      assert SlotFits(io, Watched(op.Slots(), op.idxplus1, fd), fd);
      var slot := if fd in io then io[fd] else M.EMPTY_SLOT;
      M.CountsAppend(slot.events, w);
      var nread, nwrite, npri, res := M.IoMap.CountUp(slot, w.mask);
      if nread > M.MAX_EVENTS || nwrite > M.MAX_EVENTS || npri > M.MAX_EVENTS {
        return -1;
      }
      slot := slot.(nread := nread, nwrite := nwrite, npri := npri, events := slot.events + [w]);
      if !res.IsEmpty() {
        result := Tell(fd, slot, res, true);
        result := 1;
      } else {
        FitsAgain(io, op.Slots(), op.idxplus1, op.Slots(), op.idxplus1, fd, slot);
        io := io[fd := slot];
      }
    }

    method IoDel(fd: int, w: M.Watcher) returns (result: int)
      requires Valid() && (fd >= 0 ==> w in Events(fd))
      modifies this`io, op, op.eventSet
      ensures Valid() && (op.eventSet == old(op.eventSet) || fresh(op.eventSet)) && result >= 0
      ensures Events(fd) == if fd < 0 then old(Events(fd)) else M.Without(old(Events(fd)), w)
      ensures fd >= 0 ==> M.OneLess(old(Events(fd)), Events(fd), w)
      ensures forall g :: g != fd ==> Events(g) == old(Events(g))
    {
      hide M.OneLess, M.Without, M.CountRead, M.CountWrite, M.CountPri;
      result := 0;
      if fd < 0 {
        return;
      }
      assert SlotFits(io, Watched(op.Slots(), op.idxplus1, fd), fd);
      var slot := io[fd];
      M.CountsWithout(slot.events, w);
      M.WithoutIsOneLess(slot.events, w);
      var nread, nwrite, npri, res := M.IoMap.CountDown(slot, w.mask);
      slot := slot.(nread := nread, nwrite := nwrite, npri := npri, events := M.Without(slot.events, w));
      if !res.IsEmpty() {
        result := Tell(fd, slot, res, false);
        result := 1;
      } else {
        FitsAgain(io, op.Slots(), op.idxplus1, op.Slots(), op.idxplus1, fd, slot);
        io := io[fd := slot];
      }
    }
  }

  // ---------------------------------------------------------------- runs

  datatype Call = AddCall(fd: int, events: Mask) | DelCall(fd: int, events: Mask)

  /** What a descriptor is to be watched for after the calls. */
  ghost function Asked(m: Mask, calls: seq<Call>, fd: int): Mask {
    if calls == [] then m
    else
      var c := calls[|calls| - 1];
      var before := Asked(m, calls[..|calls| - 1], fd);
      if c.fd != fd then before else if c.AddCall? then Plus(before, c.events) else Minus(before, c.events)
  }

  /** Under any mix of calls every descriptor is watched for exactly what was asked for it. */
  method Run(b: PollOp, calls: seq<Call>)
    requires b.Valid()
    modifies b, b.eventSet
    ensures b.Valid() && forall fd :: b.WatchedFor(fd) == Asked(old(b.WatchedFor(fd)), calls, fd)
  {
    ghost var slots, idx := b.Slots(), b.idxplus1;
    var i := 0;
    while i < |calls|
      invariant i <= |calls| && b.Valid() && (b.eventSet == old(b.eventSet) || fresh(b.eventSet))
      invariant forall fd :: b.WatchedFor(fd) == Asked(Watched(slots, idx, fd), calls[..i], fd)
    {
      assert calls[..i + 1][..i] == calls[..i];
      match calls[i] {
        case AddCall(fd, events) => var r := b.Add(fd, events);
        case DelCall(fd, events) => var r := b.Del(fd, events);
      }
      i := i + 1;
    }
    assert calls[..i] == calls;
  }
}
