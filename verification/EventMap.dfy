/** The map from descriptors to events (libevent/evmap.c:260-405) with its change list
    (libevent/evmap.c:577-755), and the dispatch that hands the changes to epoll. */
module EventMap {
  import opened Changelist

  const MAX_EVENTS := 0xffff

  /** An event of a descriptor: which one it is, and what it waits for. */
  datatype Watcher = Watcher(id: nat, mask: Mask)

  /** struct evmap_io, and the changelist's fdinfo behind it. */
  datatype Slot = Slot(nread: nat, nwrite: nat, npri: nat, events: seq<Watcher>, idxplus1: nat)

  const EMPTY_SLOT := Slot(0, 0, 0, [], 0)

  // ---------------------------------------------------------------- counters

  function B(b: bool): nat {
    if b then 1 else 0
  }

  /** The events that wait for input, output and urgent data. */
  ghost function CountRead(ws: seq<Watcher>): nat {
    if ws == [] then 0 else B(ws[0].mask.read) + CountRead(ws[1..])
  }

  ghost function CountWrite(ws: seq<Watcher>): nat {
    if ws == [] then 0 else B(ws[0].mask.write) + CountWrite(ws[1..])
  }

  ghost function CountPri(ws: seq<Watcher>): nat {
    if ws == [] then 0 else B(ws[0].mask.pri) + CountPri(ws[1..])
  }

  function Without(ws: seq<Watcher>, w: Watcher): seq<Watcher> {
    if ws == [] then [] else if ws[0] == w then ws[1..] else [ws[0]] + Without(ws[1..], w)
  }

  lemma {:induction false} CountsAppend(ws: seq<Watcher>, w: Watcher)
    ensures CountRead(ws + [w]) == CountRead(ws) + B(w.mask.read)
    ensures CountWrite(ws + [w]) == CountWrite(ws) + B(w.mask.write)
    ensures CountPri(ws + [w]) == CountPri(ws) + B(w.mask.pri)
  {
    if ws == [] {
      assert ws + [w] == [w] && [w][1..] == [];
    } else {
      CountsAppend(ws[1..], w);
      assert (ws + [w])[1..] == ws[1..] + [w];
    }
  }

  lemma {:induction false} CountsWithout(ws: seq<Watcher>, w: Watcher)
    requires w in ws
    ensures CountRead(Without(ws, w)) == CountRead(ws) - B(w.mask.read)
    ensures CountWrite(Without(ws, w)) == CountWrite(ws) - B(w.mask.write)
    ensures CountPri(Without(ws, w)) == CountPri(ws) - B(w.mask.pri)
  {
    if ws[0] != w {
      CountsWithout(ws[1..], w);
      assert ([ws[0]] + Without(ws[1..], w))[1..] == Without(ws[1..], w);
    }
  }

  /** The event leaves its place, the first that it has, and the others stay in order. */
  lemma {:induction false} WithoutParts(ws: seq<Watcher>, w: Watcher) returns (k: nat)
    requires w in ws
    ensures k < |ws| && ws[k] == w && w !in ws[..k] && Without(ws, w) == ws[..k] + ws[k + 1..]
  {
    if ws[0] == w {
      k := 0;
    } else {
      var j := WithoutParts(ws[1..], w);
      k := j + 1;
      assert ws[..k] == [ws[0]] + ws[1..][..j] && ws[1..][j + 1..] == ws[k + 1..];
    }
  }

  /** Exactly one registration of the event is gone, and the others are in the same order. */
  ghost predicate OneLess(before: seq<Watcher>, after: seq<Watcher>, w: Watcher) {
    (exists k :: 0 <= k < |before| && before[k] == w && after == before[..k] + before[k + 1..]) &&
    multiset(after) == multiset(before) - multiset{w}
  }

  lemma {:induction false} WithoutIsOneLess(ws: seq<Watcher>, w: Watcher)
    requires w in ws
    ensures OneLess(ws, Without(ws, w), w)
  {
    var k := WithoutParts(ws, w);
    assert ws == ws[..k] + [w] + ws[k + 1..];
  }

  /** What the events want together. */
  ghost function Union(ws: seq<Watcher>): Mask {
    if ws == [] then NOTHING else Plus(ws[0].mask, Union(ws[1..]))
  }

  lemma {:induction false} CountsAreUnion(ws: seq<Watcher>)
    ensures Union(ws) == Mask(CountRead(ws) > 0, CountWrite(ws) > 0, CountPri(ws) > 0)
  {
    if ws != [] { CountsAreUnion(ws[1..]); }
  }

  /** The union wants what some event wants. */
  lemma {:induction false} UnionHas(ws: seq<Watcher>)
    ensures Union(ws).read <==> exists i :: 0 <= i < |ws| && ws[i].mask.read
    ensures Union(ws).write <==> exists i :: 0 <= i < |ws| && ws[i].mask.write
    ensures Union(ws).pri <==> exists i :: 0 <= i < |ws| && ws[i].mask.pri
  {
    if ws != [] {
      UnionHas(ws[1..]);
      assert forall i :: 0 <= i < |ws| - 1 ==> ws[1..][i] == ws[i + 1];
      assert forall i :: 0 < i < |ws| ==> ws[1..][i - 1] == ws[i];
    }
  }

  function Wanted(slot: Slot): Mask {
    Mask(slot.nread > 0, slot.nwrite > 0, slot.npri > 0)
  }

  ghost predicate SlotOk(slot: Slot) {
    slot.nread == CountRead(slot.events) && slot.nwrite == CountWrite(slot.events) && slot.npri == CountPri(slot.events)
  }

  // ---------------------------------------------------------------- the state

  /** The slots, the changes that are kept back, and what the kernel has been told. */
  datatype State = State(io: map<int, Slot>, changes: seq<Change>, kernel: Kernel)

  /** What the events of the descriptor want now. */
  function Interest(s: State, fd: int): Mask {
    if fd in s.io then Wanted(s.io[fd]) else NOTHING
  }

  /** The change at `i` belongs to a slot that knows its place. */
  ghost predicate EntryOk(s: State, i: nat)
    requires i < |s.changes|
  {
    var fd := s.changes[i].fd;
    fd in s.io && s.io[fd].idxplus1 == i + 1
  }

  /** The slot counts its events, and its place in the change list is right. */
  ghost predicate FdOk(s: State, fd: int) {
    fd in s.io ==>
      var slot := s.io[fd];
      fd >= 0 && SlotOk(slot) && slot.idxplus1 <= |s.changes| &&
      (slot.idxplus1 != 0 ==> s.changes[slot.idxplus1 - 1].fd == fd)
  }

  /** The slots and the change list know each other's places, so there is one entry for a
      descriptor at most. */
  ghost predicate Indexed(s: State) {
    (forall i {:trigger EntryOk(s, i)} :: 0 <= i < |s.changes| ==> EntryOk(s, i)) &&
    forall fd {:trigger FdOk(s, fd)} :: FdOk(s, fd)
  }

  /** What is to happen to the descriptor at the next dispatch brings the kernel from what it
      was told last to what the events want. */
  ghost predicate Current(s: State, fd: int) {
    FdOk(s, fd) &&
    if fd in s.io && s.io[fd].idxplus1 != 0 then
      var ch := s.changes[s.io[fd].idxplus1 - 1];
      ch.before == Registered(s.kernel, fd) && Target(ch) == Interest(s, fd)
    else Registered(s.kernel, fd) == Interest(s, fd)
  }

  ghost predicate Inv(s: State) {
    Indexed(s) && forall fd {:trigger Current(s, fd)} :: Current(s, fd)
  }

  /** A new slot, or a new change that changes nothing yet. */
  ghost function WithSlot(s: State, fd: int): State {
    if fd in s.io then s else s.(io := s.io[fd := EMPTY_SLOT])
  }

  ghost function WithEntry(s: State, fd: int): State
    requires fd in s.io
  {
    if s.io[fd].idxplus1 != 0 then s
    else
      s.(changes := s.changes + [Change(fd, Interest(s, fd), Keep, Keep, Keep)],
         io := s.io[fd := s.io[fd].(idxplus1 := |s.changes| + 1)])
  }

  lemma {:induction false} WithSlotKeeps(s: State, fd: nat)
    requires Inv(s)
    ensures Inv(WithSlot(s, fd))
  {
    var r := WithSlot(s, fd);
    forall i | 0 <= i < |r.changes| ensures EntryOk(r, i) { assert EntryOk(s, i); }
    forall g ensures FdOk(r, g) && Current(r, g) { assert FdOk(s, g) && Current(s, g); }
  }

  lemma {:induction false} WithEntryKeeps(s: State, fd: int)
    requires Inv(s) && fd in s.io
    ensures Inv(WithEntry(s, fd)) && WithEntry(s, fd).io[fd].idxplus1 != 0
  {
    var r := WithEntry(s, fd);
    forall i | 0 <= i < |r.changes| ensures EntryOk(r, i) {
      if i < |s.changes| { assert EntryOk(s, i); }
      assert Current(s, fd);
    }
    forall g ensures FdOk(r, g) && Current(r, g) { assert FdOk(s, g) && Current(s, g); }
  }

  /** The events of a descriptor and its change move together. */
  ghost function Updated(s: State, fd: int, slot: Slot, ch: Change): State
    requires Indexed(s) && fd in s.io && s.io[fd].idxplus1 != 0
  {
    assert FdOk(s, fd);
    s.(io := s.io[fd := slot], changes := s.changes[s.io[fd].idxplus1 - 1 := ch])
  }

  lemma {:induction false} UpdatedKeeps(s: State, fd: int, slot: Slot, ch: Change)
    requires Inv(s) && fd in s.io && s.io[fd].idxplus1 != 0
    requires SlotOk(slot) && slot.idxplus1 == s.io[fd].idxplus1 && ch.fd == fd && Target(ch) == Wanted(slot)
    requires FdOk(s, fd) && ch.before == s.changes[s.io[fd].idxplus1 - 1].before
    ensures Inv(Updated(s, fd, slot, ch))
  {
    var r := Updated(s, fd, slot, ch);
    assert Current(s, fd);
    forall i | 0 <= i < |r.changes| ensures EntryOk(r, i) { assert EntryOk(s, i); }
    forall g ensures FdOk(r, g) && Current(r, g) {
      assert FdOk(s, g) && Current(s, g);
    }
  }

  /** The events of a descriptor change without anything new being wanted. */
  lemma {:induction false} SameWantedKeeps(s: State, fd: int, slot: Slot)
    requires Inv(s) && fd in s.io && SlotOk(slot) && slot.idxplus1 == s.io[fd].idxplus1
    requires Wanted(slot) == Wanted(s.io[fd])
    ensures Inv(s.(io := s.io[fd := slot]))
  {
    var r := s.(io := s.io[fd := slot]);
    forall i | 0 <= i < |r.changes| ensures EntryOk(r, i) { assert EntryOk(s, i); }
    forall g ensures FdOk(r, g) && Current(r, g) { assert FdOk(s, g) && Current(s, g); }
  }

  // ---------------------------------------------------------------- without EV_PRI

  /** No event waits for urgent data, and no change is about it. */
  ghost predicate Plain(s: State) {
    (forall i :: 0 <= i < |s.changes| ==> !s.changes[i].before.pri && s.changes[i].pri.Keep?) &&
    forall fd {:trigger fd in s.io} :: fd in s.io ==> s.io[fd].npri == 0
  }

  lemma {:induction false} PlainWithEntry(s: State, fd: int)
    requires Plain(s) && fd in s.io
    ensures Plain(WithEntry(s, fd))
  {
  }

  /** The state after a change for the descriptor has been noted. */
  ghost function Noted(s: State, fd: int, res: Mask, added: bool): State
    requires Inv(s) && fd in s.io
  {
    WithEntryKeeps(s, fd);
    var a := WithEntry(s, fd);
    assert FdOk(a, fd);
    var at := a.io[fd].idxplus1 - 1;
    if res.IsEmpty() then s
    else a.(changes := a.changes[at := if added then Added(a.changes[at], res) else Deleted(a.changes[at], res)])
  }

  lemma {:induction false} PlainNoted(s: State, fd: int, res: Mask, added: bool)
    requires Inv(s) && Plain(s) && fd in s.io && !res.pri
    ensures Plain(Noted(s, fd, res, added))
  {
    WithEntryKeeps(s, fd);
    PlainWithEntry(s, fd);
    assert FdOk(WithEntry(s, fd), fd);
  }

  /** The slot wants what was wanted before, and what was noted for the descriptor. */
  ghost predicate CountsFor(s: State, fd: int, slot: Slot, res: Mask, added: bool)
    requires fd in s.io
  {
    SlotOk(slot) && Wanted(slot) == (if added then Plus(Wanted(s.io[fd]), res) else Minus(Wanted(s.io[fd]), res)) &&
    slot.idxplus1 == s.io[fd].idxplus1
  }

  /** Once the change is noted and the slot counts the events, the change leads to what they want. */
  lemma {:induction false} NotedKeeps(s: State, fd: int, slot: Slot, res: Mask, added: bool)
    requires Inv(s) && fd in s.io && CountsFor(s, fd, slot, res, added)
    ensures var n := Noted(s, fd, res, added);
      n.io.Keys == s.io.Keys && (forall g :: g in s.io ==> n.io[g].events == s.io[g].events) &&
      var r := n.(io := n.io[fd := slot.(idxplus1 := n.io[fd].idxplus1)]);
      Inv(r) && (Plain(s) && !res.pri && slot.npri == 0 ==> Plain(r))
  {
    if Plain(s) && !res.pri { PlainNoted(s, fd, res, added); }
    if res.IsEmpty() {
      SameWantedKeeps(s, fd, slot);
    } else {
      var a := WithEntry(s, fd);
      WithEntryKeeps(s, fd);
      assert FdOk(a, fd) && Current(a, fd);
      var ch := a.changes[a.io[fd].idxplus1 - 1];
      AddedTarget(ch, res);
      DeletedTarget(ch, res);
      UpdatedKeeps(a, fd, slot.(idxplus1 := a.io[fd].idxplus1), if added then Added(ch, res) else Deleted(ch, res));
    }
  }

  /** What the kernel has been told when the first `n` changes have been applied. */
  ghost predicate AppliedTo(s: State, n: nat, k: Kernel) {
    n <= |s.changes| &&
    forall fd {:trigger Registered(k, fd)} ::
      Registered(k, fd) ==
        if fd in s.io && 0 < s.io[fd].idxplus1 <= n && FdOk(s, fd)
        then Applied(Registered(s.kernel, fd), s.changes[s.io[fd].idxplus1 - 1])
        else Registered(s.kernel, fd)
  }

  lemma {:induction false} AppliedNext(s: State, n: nat, k: Kernel, k': Kernel)
    requires Inv(s) && n < |s.changes| && AppliedTo(s, n, k)
    requires forall fd :: fd != s.changes[n].fd ==> Registered(k', fd) == Registered(k, fd)
    requires Registered(k', s.changes[n].fd) == Applied(Registered(k, s.changes[n].fd), s.changes[n])
    ensures AppliedTo(s, n + 1, k')
  {
    assert EntryOk(s, n);
    forall fd ensures Registered(k', fd) == if fd in s.io && 0 < s.io[fd].idxplus1 <= n + 1 && FdOk(s, fd)
                                            then Applied(Registered(s.kernel, fd), s.changes[s.io[fd].idxplus1 - 1])
                                            else Registered(s.kernel, fd) {
      assert FdOk(s, fd);
      assert fd != s.changes[n].fd ==> Registered(k', fd) == Registered(k, fd);
    }
  }

  /** All slots without their place in the change list. */
  ghost predicate Cleared(s: State, n: nat, io: map<int, Slot>) {
    io.Keys == s.io.Keys &&
    forall fd {:trigger fd in io} :: fd in io ==>
      io[fd] == if 0 < s.io[fd].idxplus1 <= n then s.io[fd].(idxplus1 := 0) else s.io[fd]
  }

  /** The state after a dispatch. */
  ghost predicate Dispatched(s: State, r: State) {
    r.changes == [] && Cleared(s, |s.changes|, r.io) && AppliedTo(s, |s.changes|, r.kernel)
  }

  /** A dispatch makes the kernel watch for exactly what the events of the descriptor want, if
      and only if the change that was kept back for it leaves nothing behind. */
  lemma {:induction false} DispatchedMatches(s: State, r: State, fd: int)
    requires Inv(s) && Dispatched(s, r)
    ensures Interest(r, fd) == Interest(s, fd)
    ensures Registered(r.kernel, fd) == Interest(s, fd) <==>
              (fd in s.io && s.io[fd].idxplus1 != 0 ==>
                 FdOk(s, fd) && LeavesNothingBehind(s.changes[s.io[fd].idxplus1 - 1]))
  {
    assert Current(s, fd) && FdOk(s, fd);
    if fd in s.io && s.io[fd].idxplus1 != 0 {
      AppliedIsTarget(Registered(s.kernel, fd), s.changes[s.io[fd].idxplus1 - 1]);
    }
  }

  /** There is one change for a descriptor at most. */
  lemma {:induction false} OneEntry(s: State, fd: int)
    requires Indexed(s)
    ensures (forall i :: 0 <= i < |s.changes| && s.changes[i].fd == fd ==> LeavesNothingBehind(s.changes[i])) <==>
              (fd in s.io && s.io[fd].idxplus1 != 0 ==>
                 FdOk(s, fd) && LeavesNothingBehind(s.changes[s.io[fd].idxplus1 - 1]))
  {
    assert FdOk(s, fd);
    forall i | 0 <= i < |s.changes| && s.changes[i].fd == fd ensures fd in s.io && i == s.io[fd].idxplus1 - 1 {
      assert EntryOk(s, i);
    }
  }

  lemma {:induction false} DispatchedKeeps(s: State, r: State)
    requires Inv(s) && Dispatched(s, r) && forall i :: 0 <= i < |s.changes| ==> LeavesNothingBehind(s.changes[i])
    ensures Inv(r)
  {
    forall fd ensures FdOk(r, fd) && Current(r, fd) {
      assert FdOk(s, fd);
      DispatchedMatches(s, r, fd);
      assert fd in r.io ==> fd in s.io;
    }
  }

  // ---------------------------------------------------------------- the map

  /** The registered events of the descriptor. */
  ghost function EventsIn(io: map<int, Slot>, fd: int): seq<Watcher> {
    if fd in io then io[fd].events else []
  }

  class IoMap {
    var io: map<int, Slot>
    var changes: seq<Change>
    var changesSize: nat
    var kernel: Kernel

    constructor ()
      ensures Valid() && io == map[] && changes == [] && kernel == map[]
    {
      io, changes, changesSize, kernel := map[], [], 0, map[];
    }

    ghost function S(): State
      reads this`io, this`changes, this`kernel
    {
      State(io, changes, kernel)
    }

    ghost predicate Valid()
      reads this
    {
      Inv(S()) && |changes| <= changesSize
    }

    /** event_changelist_get_or_construct (libevent/evmap.c:627-657): the place of the entry. */
    method GetOrConstruct(fd: int, before: Mask) returns (at: nat)
      requires Valid() && fd in io && before == Interest(S(), fd)
      modifies this`io, this`changes, this`changesSize
      ensures Valid() && S() == WithEntry(old(S()), fd)
      ensures fd in io && io[fd].idxplus1 == at + 1 && at < |changes| && changes[at].fd == fd
    {
      WithEntryKeeps(S(), fd);
      assert FdOk(S(), fd);
      if io[fd].idxplus1 == 0 {
        if |changes| == changesSize {
          changesSize := if changesSize < 64 then 64 else changesSize * 2;
        }
        at := |changes|;
        changes := changes + [Change(fd, before, Keep, Keep, Keep)];
        io := io[fd := io[fd].(idxplus1 := at + 1)];
      } else {
        at := io[fd].idxplus1 - 1;
      }
    }

    ghost function Events(fd: int): seq<Watcher>
      reads this`io
    {
      EventsIn(io, fd)
    }

    /** event_changelist_add (libevent/evmap.c:659-695). */
    method ChangelistAdd(fd: int, before: Mask, events: Mask)
      requires Valid() && fd in io && before == Interest(S(), fd) && !events.IsEmpty()
      modifies this`io, this`changes, this`changesSize
      ensures |changes| <= changesSize
      ensures S() == Noted(old(S()), fd, events, true)
    {
      var at := GetOrConstruct(fd, before);
      var ch := changes[at];
      if events.read {
        ch := ch.(read := Add);
      }
      if events.write {
        ch := ch.(write := Add);
      }
      if events.pri {
        ch := ch.(pri := Add);
      }
      changes := changes[at := ch];
    }

    /** event_changelist_del (libevent/evmap.c:697-755). */
    method ChangelistDel(fd: int, before: Mask, events: Mask)
      requires Valid() && fd in io && before == Interest(S(), fd) && !events.IsEmpty()
      modifies this`io, this`changes, this`changesSize
      ensures |changes| <= changesSize
      ensures S() == Noted(old(S()), fd, events, false)
    {
      var at := GetOrConstruct(fd, before);
      var ch := changes[at];
      if events.read {
        ch := ch.(read := if !ch.before.read && ch.read.Add? then Keep else Del);
      }
      if events.write {
        ch := ch.(write := if !ch.before.write && ch.write.Add? then Keep else Del);
      }
      if events.pri {
        ch := ch.(pri := if !ch.before.pri && ch.pri.Add? then Keep else Del);
      }
      changes := changes[at := ch];
    }

    /** The counters with one more event, and what is wanted for the first time
        (libevent/evmap.c:291-314). */
    static method CountUp(slot: Slot, mask: Mask) returns (nread: nat, nwrite: nat, npri: nat, res: Mask)
      ensures nread == slot.nread + B(mask.read) && nwrite == slot.nwrite + B(mask.write) &&
              npri == slot.npri + B(mask.pri)
      ensures Mask(nread > 0, nwrite > 0, npri > 0) == Plus(Wanted(slot), res)
      ensures res.IsEmpty() <==> Mask(nread > 0, nwrite > 0, npri > 0) == Wanted(slot)
      ensures res.pri ==> mask.pri
    {
      nread, nwrite, npri, res := slot.nread, slot.nwrite, slot.npri, NOTHING;
      if mask.read {
        nread := nread + 1;
        res := res.(read := nread == 1);
      }
      if mask.write {
        nwrite := nwrite + 1;
        res := res.(write := nwrite == 1);
      }
      if mask.pri {
        npri := npri + 1;
        res := res.(pri := npri == 1);
      }
    }

    /** The counters with one event less, and what is wanted no more (libevent/evmap.c:365-385). */
    static method CountDown(slot: Slot, mask: Mask) returns (nread: nat, nwrite: nat, npri: nat, res: Mask)
      requires slot.nread >= B(mask.read) && slot.nwrite >= B(mask.write) && slot.npri >= B(mask.pri)
      ensures nread == slot.nread - B(mask.read) && nwrite == slot.nwrite - B(mask.write) &&
              npri == slot.npri - B(mask.pri)
      ensures Mask(nread > 0, nwrite > 0, npri > 0) == Minus(Wanted(slot), res)
      ensures res.IsEmpty() <==> Mask(nread > 0, nwrite > 0, npri > 0) == Wanted(slot)
      ensures (res.read ==> mask.read) && (res.write ==> mask.write) && (res.pri ==> mask.pri)
    {
      nread, nwrite, npri, res := slot.nread, slot.nwrite, slot.npri, NOTHING;
      if mask.read {
        nread := nread - 1;
        res := res.(read := nread == 0);
      }
      if mask.write {
        nwrite := nwrite - 1;
        res := res.(write := nwrite == 0);
      }
      if mask.pri {
        npri := npri - 1;
        res := res.(pri := npri == 0);
      }
    }

    /** evmap_io_add of a descriptor that has a slot (libevent/evmap.c:280-337). */
    method AddToSlot(fd: int, w: Watcher) returns (result: int)
      requires Valid() && fd in io
      modifies this`io, this`changes, this`changesSize
      ensures Valid() && (forall g :: g != fd ==> Events(g) == old(Events(g)))
      ensures Events(fd) == if result < 0 then old(Events(fd)) else old(Events(fd)) + [w]
      ensures result == if TooMany(old(Events(fd)) + [w]) then -1
                        else if Interest(S(), fd) != Interest(old(S()), fd) then 1 else 0
      ensures result < 0 ==> S() == old(S())
      ensures Plain(old(S())) && !w.mask.pri ==> Plain(S())
    {
      ghost var s1 := S();
      assert FdOk(s1, fd);
      var slot := io[fd];
      CountsAppend(slot.events, w);
      var before := Wanted(slot);
      var nread, nwrite, npri, res := CountUp(slot, w.mask);
      if nread > MAX_EVENTS || nwrite > MAX_EVENTS || npri > MAX_EVENTS {
        return -1;
      }
      result := 0;
      if !res.IsEmpty() {
        ChangelistAdd(fd, before, res);
        result := 1;
      }
      Counted(fd, s1, slot.(nread := nread, nwrite := nwrite, npri := npri, events := slot.events + [w]), res, true);
    }

    static ghost predicate TooMany(ws: seq<Watcher>) {
      CountRead(ws) > MAX_EVENTS || CountWrite(ws) > MAX_EVENTS || CountPri(ws) > MAX_EVENTS
    }

    /** evmap_io_add (libevent/evmap.c:260-337): 1 when the backend was told, -1 when there are
        too many events. */
    method IoAdd(fd: int, w: Watcher) returns (result: int)
      requires Valid()
      modifies this`io, this`changes, this`changesSize
      ensures Valid() && (forall g :: g != fd ==> Events(g) == old(Events(g)))
      ensures Events(fd) == if fd < 0 || result < 0 then old(Events(fd)) else old(Events(fd)) + [w]
      ensures result == if fd < 0 then 0 else if TooMany(old(Events(fd)) + [w]) then -1
                        else if Interest(S(), fd) != Interest(old(S()), fd) then 1 else 0
      ensures Plain(old(S())) && !w.mask.pri ==> Plain(S())
    {
      if fd < 0 {
        return 0;
      }
      WithSlotKeeps(S(), fd);
      if fd !in io {
        io := io[fd := EMPTY_SLOT];
      }
      result := AddToSlot(fd, w);
    }

    /** The new counters and events of a slot, once the changes for them are in the change list
        (libevent/evmap.c:331-334 and 397-400). */
    method Counted(fd: int, ghost s1: State, slot: Slot, ghost res: Mask, ghost added: bool)
      requires Inv(s1) && fd in s1.io && |changes| <= changesSize && CountsFor(s1, fd, slot, res, added)
      requires S() == Noted(s1, fd, res, added)
      modifies this`io
      ensures Valid() && io.Keys == s1.io.Keys &&
              (forall g :: g != fd ==> Events(g) == (if g in s1.io then s1.io[g].events else []))
      ensures Events(fd) == slot.events && Interest(S(), fd) == Wanted(slot)
      ensures Plain(s1) && !res.pri && slot.npri == 0 ==> Plain(S())
    {
      NotedKeeps(s1, fd, slot, res, added);
      io := io[fd := slot.(idxplus1 := io[fd].idxplus1)];
    }

    /** evmap_io_del (libevent/evmap.c:339-405), of an event that is registered. */
    method IoDel(fd: int, w: Watcher) returns (result: int)
      requires Valid() && (fd >= 0 ==> w in Events(fd))
      modifies this`io, this`changes, this`changesSize
      ensures Valid() && (forall g :: g != fd ==> Events(g) == old(Events(g)))
      ensures Events(fd) == if fd < 0 then old(Events(fd)) else Without(old(Events(fd)), w)
      ensures fd >= 0 ==> OneLess(old(Events(fd)), Events(fd), w)
      ensures result == if Interest(S(), fd) != Interest(old(S()), fd) then 1 else 0
      ensures kernel == old(kernel) && (Plain(old(S())) && !w.mask.pri ==> Plain(S()))
    {
      hide OneLess;
      result := 0;
      if fd < 0 {
        assert FdOk(S(), fd);
        return;
      }
      ghost var s1 := S();
      assert FdOk(s1, fd);
      var slot := io[fd];
      CountsWithout(slot.events, w);
      WithoutIsOneLess(slot.events, w);
      var before := Wanted(slot);
      var nread, nwrite, npri, res := CountDown(slot, w.mask);
      if !res.IsEmpty() {
        ChangelistDel(fd, before, res);
        result := 1;
      }
      Counted(fd, s1, slot.(nread := nread, nwrite := nwrite, npri := npri, events := Without(slot.events, w)), res,
        false);
    }

    /** epoll_apply_changes (libevent/epoll.c:352-368). */
    method ApplyChanges() returns (result: int)
      requires Valid()
      modifies this`kernel
      ensures result == 0 && AppliedTo(old(S()), |changes|, kernel)
    {
      ghost var s := S();
      result := 0;
      var i := 0;
      while i < |changes|
        invariant i <= |changes| && result == 0 && AppliedTo(s, i, kernel)
      {
        var r, k := ApplyOne(kernel, Pollable, changes[i]);
        AppliedNext(s, i, kernel, k);
        kernel := k;
        if r < 0 {
          result := -1;
        }
        i := i + 1;
      }
    }

    /** event_changelist_remove_all (libevent/evmap.c:578-597). */
    method RemoveAll(ghost s: State)
      requires Inv(s) && io == s.io && changes == s.changes
      modifies this`io, this`changes
      ensures changes == [] && Cleared(s, |s.changes|, io)
    {
      var i := 0;
      while i < |changes|
        invariant i <= |changes| && changes == s.changes && Cleared(s, i, io)
      {
        var fd := changes[i].fd;
        assert EntryOk(s, i);
        forall g | g in io && g != fd ensures s.io[g].idxplus1 != i + 1 { assert FdOk(s, g); }
        io := io[fd := io[fd].(idxplus1 := 0)];
        i := i + 1;
      }
      changes := [];
    }

    /** The part of epoll_dispatch that hands over the changes (libevent/epoll.c:425-426): the
        kernel watches every descriptor for exactly the union of what its events want, if and
        only if the change for it leaves nothing behind. */
    method Dispatch()
      requires Valid()
      modifies this`io, this`changes, this`kernel
      ensures changes == [] && (forall fd :: Events(fd) == old(Events(fd))) && (Plain(old(S())) ==> Plain(S()))
      ensures forall fd ::
                Registered(kernel, fd) == Union(Events(fd)) <==>
                  (forall i :: 0 <= i < |old(changes)| && old(changes)[i].fd == fd ==>
                    LeavesNothingBehind(old(changes)[i]))
      ensures (forall i :: 0 <= i < |old(changes)| ==> LeavesNothingBehind(old(changes)[i])) ==> Valid()
    {
      ghost var s := S();
      var r := ApplyChanges();
      RemoveAll(s);
      forall fd ensures Registered(kernel, fd) == Union(Events(fd)) <==>
                          (forall i :: 0 <= i < |s.changes| && s.changes[i].fd == fd ==>
                            LeavesNothingBehind(s.changes[i]))
      {
        assert FdOk(s, fd);
        OneEntry(s, fd);
        DispatchedMatches(s, S(), fd);
        CountsAreUnion(Events(fd));
      }
      if forall i :: 0 <= i < |s.changes| ==> LeavesNothingBehind(s.changes[i]) {
        DispatchedKeeps(s, S());
      }
    }
  }

  // ---------------------------------------------------------------- runs

  datatype Step = AddEvent(fd: int, w: Watcher) | DelEvent(fd: int, w: Watcher) | DispatchNow

  /** The events of a descriptor after a step, when it had `ws` before. */
  ghost function Stepped(ws: seq<Watcher>, step: Step, fd: int): seq<Watcher> {
    match step
    case AddEvent(g, w) => if g != fd || fd < 0 || IoMap.TooMany(ws + [w]) then ws else ws + [w]
    case DelEvent(g, w) => if g != fd || w !in ws then ws else Without(ws, w)
    case DispatchNow => ws
  }

  ghost function Replayed(ws: seq<Watcher>, steps: seq<Step>, fd: int): seq<Watcher> {
    if steps == [] then ws else Stepped(Replayed(ws, steps[..|steps| - 1], fd), steps[|steps| - 1], fd)
  }

  /** By how much a step changes the number of times that the event is registered. */
  function Gain(step: Step, done: bool, fd: int, w: Watcher): int {
    if !done then 0 else if step == AddEvent(fd, w) then 1 else if step == DelEvent(fd, w) then -1 else 0
  }

  /** Whether an addition is taken, or there is something to delete, at a descriptor with `ws`. */
  ghost predicate CanBeDone(ws: seq<Watcher>, step: Step) {
    match step
    case AddEvent(fd, w) => fd >= 0 && !IoMap.TooMany(ws + [w])
    case DelEvent(_, w) => w in ws
    case DispatchNow => true
  }

  lemma {:induction false} SteppedGain(ws: seq<Watcher>, step: Step, done: bool, fd: int, w: Watcher)
    requires !step.DispatchNow? && step.fd == fd ==> (done <==> CanBeDone(ws, step))
    ensures multiset(Stepped(ws, step, fd))[w] == multiset(ws)[w] + Gain(step, done, fd, w)
  {
    if step.DelEvent? && step.w in ws {
      WithoutIsOneLess(ws, step.w);
    }
  }

  /** How often the event is registered after the steps, when it was `n` times before: once more
      for each addition that was done, and once less for each deletion. */
  ghost function Times(n: int, steps: seq<Step>, done: seq<bool>, fd: int, w: Watcher): int
    requires |done| == |steps|
  {
    if steps == [] then n
    else
      var last := |steps| - 1;
      Times(n, steps[..last], done[..last], fd, w) + Gain(steps[last], done[last], fd, w)
  }

  /** A deletion is done when the event is registered; an addition unless there is no such descriptor,
      or there are too many events. */
  ghost predicate TakenRight(io0: map<int, Slot>, steps: seq<Step>, done: seq<bool>, i: nat)
    requires i < |steps| == |done|
  {
    match steps[i]
    case AddEvent(fd, w) =>
      done[i] <==> fd >= 0 && !IoMap.TooMany(Replayed(EventsIn(io0, fd), steps[..i], fd) + [w])
    case DelEvent(fd, w) =>
      done[i] <==> Times(multiset(EventsIn(io0, fd))[w], steps[..i], done[..i], fd, w) > 0
    case DispatchNow => true
  }

  /** One step; only events that are registered are deleted. */
  method TakeStep(m: IoMap, step: Step) returns (done: bool)
    requires m.Valid() && Plain(m.S()) && (!step.DispatchNow? ==> !step.w.mask.pri)
    modifies m
    ensures m.Valid() && Plain(m.S())
    ensures forall fd :: EventsIn(m.io, fd) == Stepped(EventsIn(old(m.io), fd), step, fd)
    ensures !step.DispatchNow? ==> (done <==> CanBeDone(old(m.Events(step.fd)), step))
  {
    match step {
      case AddEvent(fd, w) =>
        var r := m.IoAdd(fd, w);
        done := fd >= 0 && r >= 0;
      case DelEvent(fd, w) =>
        assert FdOk(m.S(), fd);
        done := fd in m.io && w in m.io[fd].events;
        if done {
          var r := m.IoDel(fd, w);
        }
      case DispatchNow =>
        PlainDispatch(m);
        done := true;
    }
    forall fd ensures EventsIn(m.io, fd) == Stepped(EventsIn(old(m.io), fd), step, fd) {
      assert m.Events(fd) == EventsIn(m.io, fd) && old(m.Events(fd)) == EventsIn(old(m.io), fd);
    }
  }

  /** Where a run is. */
  ghost predicate Running(io0: map<int, Slot>, io: map<int, Slot>, steps: seq<Step>, done: seq<bool>) {
    |done| == |steps| &&
    (forall fd {:trigger EventsIn(io, fd)} :: EventsIn(io, fd) == Replayed(EventsIn(io0, fd), steps, fd)) &&
    (forall fd, w {:trigger multiset(EventsIn(io, fd))[w]} ::
       multiset(EventsIn(io, fd))[w] == Times(multiset(EventsIn(io0, fd))[w], steps, done, fd, w)) &&
    forall i {:trigger TakenRight(io0, steps, done, i)} :: 0 <= i < |steps| ==> TakenRight(io0, steps, done, i)
  }

  lemma {:induction false} TakenRightEarlier(io0: map<int, Slot>, steps: seq<Step>, done: seq<bool>, step: Step,
                                             d: bool, i: nat)
    requires i < |steps| == |done| && TakenRight(io0, steps, done, i)
    ensures TakenRight(io0, steps + [step], done + [d], i)
  {
    assert (steps + [step])[..i] == steps[..i] && (done + [d])[..i] == done[..i];
  }

  lemma {:induction false} TakenRightLast(io0: map<int, Slot>, io1: map<int, Slot>, steps: seq<Step>, done: seq<bool>,
                                          step: Step, d: bool)
    requires Running(io0, io1, steps, done)
    requires !step.DispatchNow? ==> (d <==> CanBeDone(EventsIn(io1, step.fd), step))
    ensures TakenRight(io0, steps + [step], done + [d], |steps|)
  {
    assert (steps + [step])[..|steps|] == steps && (done + [d])[..|steps|] == done;
    if step.DelEvent? {
      assert d <==> multiset(EventsIn(io1, step.fd))[step.w] > 0;
    }
  }

  lemma {:induction false} Further(ws: seq<Watcher>, n: int, steps: seq<Step>, done: seq<bool>, step: Step, d: bool,
                                   fd: int, w: Watcher)
    requires |steps| == |done|
    ensures Replayed(ws, steps + [step], fd) == Stepped(Replayed(ws, steps, fd), step, fd)
    ensures Times(n, steps + [step], done + [d], fd, w) == Times(n, steps, done, fd, w) + Gain(step, d, fd, w)
  {
    hide Stepped, Gain;
    assert (steps + [step])[..|steps|] == steps && (done + [d])[..|steps|] == done;
  }

  lemma {:induction false} RunningNext(io0: map<int, Slot>, io1: map<int, Slot>, io: map<int, Slot>, steps: seq<Step>,
                                       done: seq<bool>, step: Step, d: bool)
    requires Running(io0, io1, steps, done)
    requires forall fd :: EventsIn(io, fd) == Stepped(EventsIn(io1, fd), step, fd)
    requires !step.DispatchNow? ==> (d <==> CanBeDone(EventsIn(io1, step.fd), step))
    ensures Running(io0, io, steps + [step], done + [d])
  {
    hide Stepped, CanBeDone, Times, Gain, Replayed, TakenRight, EventsIn;
    var more, all := steps + [step], done + [d];
    forall fd ensures EventsIn(io, fd) == Replayed(EventsIn(io0, fd), more, fd) {
      Further(EventsIn(io0, fd), 0, steps, done, step, d, fd, Watcher(0, NOTHING));
    }
    forall fd, w ensures multiset(EventsIn(io, fd))[w] == Times(multiset(EventsIn(io0, fd))[w], more, all, fd, w) {
      SteppedGain(EventsIn(io1, fd), step, d, fd, w);
      Further([], multiset(EventsIn(io0, fd))[w], steps, done, step, d, fd, w);
    }
    TakenRightLast(io0, io1, steps, done, step, d);
    forall i | 0 <= i < |more| ensures TakenRight(io0, more, all, i) {
      if i < |steps| {
        assert TakenRight(io0, steps, done, i);
        TakenRightEarlier(io0, steps, done, step, d, i);
      }
    }
  }

  lemma {:induction false} RunningEnds(io0: map<int, Slot>, io: map<int, Slot>, steps: seq<Step>, done: seq<bool>)
    requires Running(io0, io, steps, done)
    ensures forall fd, w :: w in EventsIn(io, fd) <==> Times(multiset(EventsIn(io0, fd))[w], steps, done, fd, w) > 0
    ensures |done| == |steps| && forall i :: 0 <= i < |steps| ==> TakenRight(io0, steps, done, i)
    ensures forall fd :: EventsIn(io, fd) == Replayed(EventsIn(io0, fd), steps, fd)
  {
    forall fd, w ensures w in EventsIn(io, fd) <==> Times(multiset(EventsIn(io0, fd))[w], steps, done, fd, w) > 0 {
      assert multiset(EventsIn(io, fd))[w] > 0 <==> w in EventsIn(io, fd);
    }
  }

  method RunSteps(m: IoMap, steps: seq<Step>) returns (done: seq<bool>)
    requires m.Valid() && Plain(m.S())
    requires forall i :: 0 <= i < |steps| && !steps[i].DispatchNow? ==> !steps[i].w.mask.pri
    modifies m
    ensures m.Valid() && Plain(m.S()) && Running(old(m.io), m.io, steps, done)
  {
    hide Plain, Running, EventsIn, Stepped, Inv, CanBeDone;
    ghost var io0 := m.io;
    var i := 0;
    done := [];
    NotStarted(io0);
    while i < |steps|
      invariant i <= |steps| && m.Valid() && Plain(m.S()) && Running(io0, m.io, steps[..i], done)
    {
      assert steps[..i] + [steps[i]] == steps[..i + 1];
      ghost var io1 := m.io;
      var d := TakeStep(m, steps[i]);
      RunningNext(io0, io1, m.io, steps[..i], done, steps[i], d);
      done := done + [d];
      i := i + 1;
    }
    assert steps[..i] == steps;
  }

  lemma {:induction false} NotStarted(io: map<int, Slot>)
    ensures Running(io, io, [], [])
  {
  }

  /** Any run of additions, deletions and dispatches of events for EV_READ and EV_WRITE, and one
      more dispatch: an event is registered exactly when it was added more often than it was deleted,
      and the kernel watches every descriptor for exactly what the events that are registered for it
      want, as if it had been told of every change at once.  Only events that are registered are
      deleted; `done` says which of the steps were. */
  method RunThenDispatch(m: IoMap, steps: seq<Step>) returns (done: seq<bool>)
    requires m.Valid() && Plain(m.S())
    requires forall i :: 0 <= i < |steps| && !steps[i].DispatchNow? ==> !steps[i].w.mask.pri
    modifies m
    ensures m.Valid() && Plain(m.S()) && m.changes == [] && |done| == |steps|
    ensures forall fd :: m.Events(fd) == Replayed(old(m.Events(fd)), steps, fd)
    ensures forall fd, w :: w in m.Events(fd) <==> Times(multiset(old(m.Events(fd)))[w], steps, done, fd, w) > 0
    ensures forall i :: 0 <= i < |steps| ==> TakenRight(old(m.io), steps, done, i)
    ensures forall fd :: Registered(m.kernel, fd) == Union(m.Events(fd))
  {
    hide Running, TakenRight, Times, Replayed, Plain, Union;
    ghost var io0 := m.io;
    done := RunSteps(m, steps);
    RunningEnds(io0, m.io, steps, done);
    PlainDispatch(m);
  }

  method PlainDispatch(m: IoMap)
    requires m.Valid() && Plain(m.S())
    modifies m
    ensures m.Valid() && Plain(m.S()) && m.changes == []
    ensures forall fd :: Registered(m.kernel, fd) == Union(m.Events(fd)) && m.Events(fd) == old(m.Events(fd))
  {
    forall i | 0 <= i < |m.changes| ensures LeavesNothingBehind(m.changes[i]) {
      WithoutPri(m.changes[i]);
    }
    m.Dispatch();
  }
}
