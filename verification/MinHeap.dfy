/** The indexed binary heap of timeouts (libevent/minheap-internal.h): every event knows its
    place in the array. */
module MinHeap {

  /** A timeout, as one number of microseconds, and the place in the heap: -1 outside. */
  class Event {
    var timeout: int
    var minHeapIdx: int

    constructor (timeout: int)
      ensures this.timeout == timeout && minHeapIdx == -1
    {
      this.timeout, minHeapIdx := timeout, -1;
    }
  }

  // ---------------------------------------------------------------- heap order

  function Parent(i: nat): nat
    requires i > 0
  {
    (i - 1) / 2
  }

  ghost predicate Ordered(keys: seq<int>, i: nat)
    requires i < |keys|
  {
    i == 0 || keys[Parent(i)] <= keys[i]
  }

  ghost predicate HeapOrder(keys: seq<int>) {
    forall i {:trigger Ordered(keys, i)} :: 0 <= i < |keys| ==> Ordered(keys, i)
  }

  /** In order but for the hole at `h`, into which `k` is to move up: it is at most the children
      of the hole, and so is the parent of the hole. */
  ghost predicate UpHole(keys: seq<int>, h: nat, k: int)
    requires h < |keys|
  {
    (forall i {:trigger Ordered(keys, i)} :: 0 <= i < |keys| && i != h && (i == 0 || Parent(i) != h) ==>
      Ordered(keys, i)) &&
    (forall i {:trigger Parent(i)} :: 0 < i < |keys| && Parent(i) == h ==>
      k <= keys[i] && (h > 0 ==> keys[Parent(h)] <= keys[i]))
  }

  lemma {:induction false} MoveUp(keys: seq<int>, h: nat, k: int)
    requires 0 < h < |keys| && UpHole(keys, h, k) && keys[Parent(h)] > k
    ensures UpHole(keys[h := keys[Parent(h)]], Parent(h), k)
  {
    var q := Parent(h);
    var after := keys[h := keys[q]];
    forall i | 0 <= i < |keys| && i != q && (i == 0 || Parent(i) != q) ensures Ordered(after, i) {
      if i > 0 && Parent(i) != h {
        assert Ordered(keys, i);
      }
    }
    forall i | 0 < i < |keys| && Parent(i) == q ensures k <= after[i] && (q > 0 ==> after[Parent(q)] <= after[i]) {
      if i != h { assert Ordered(keys, i); }
      if q > 0 { assert Ordered(keys, q); }
    }
  }

  lemma {:induction false} FillUp(keys: seq<int>, h: nat, k: int)
    requires h < |keys| && UpHole(keys, h, k) && (h == 0 || keys[Parent(h)] <= k)
    ensures HeapOrder(keys[h := k])
  {
    var after := keys[h := k];
    forall i | 0 <= i < |keys| ensures Ordered(after, i) {
      if i > 0 && i != h && Parent(i) != h {
        assert Ordered(keys, i);
      }
    }
  }

  /** In order but for the hole at `h`, into which `k` is to move down: it is at least the
      parent of the hole, and so are the children of the hole. */
  ghost predicate DownHole(keys: seq<int>, h: nat, k: int) {
    (forall i {:trigger Ordered(keys, i)} :: 0 <= i < |keys| && i != h && (i == 0 || Parent(i) != h) ==>
      Ordered(keys, i)) &&
    (0 < h < |keys| ==>
       keys[Parent(h)] <= k &&
       forall i {:trigger Parent(i)} :: 0 < i < |keys| && Parent(i) == h ==> keys[Parent(h)] <= keys[i])
  }

  /** The child that shift_down looks at is a least one. */
  ghost predicate LeastChild(keys: seq<int>, h: nat, m: nat) {
    0 < m < |keys| && Parent(m) == h &&
    forall i {:trigger Parent(i)} :: 0 < i < |keys| && Parent(i) == h ==> keys[m] <= keys[i]
  }

  lemma {:induction false} MoveDown(keys: seq<int>, h: nat, m: nat, k: int)
    requires h < |keys| && DownHole(keys, h, k) && LeastChild(keys, h, m) && k > keys[m]
    ensures DownHole(keys[h := keys[m]], m, k)
  {
    var after := keys[h := keys[m]];
    forall i | 0 <= i < |keys| && i != m && (i == 0 || Parent(i) != m) ensures Ordered(after, i) {
      if i > 0 && i != h && Parent(i) != h {
        assert Ordered(keys, i);
      }
    }
    forall i | 0 < i < |keys| && Parent(i) == m ensures after[Parent(m)] <= after[i] {
      assert Ordered(keys, i);
    }
  }

  lemma {:induction false} FillDown(keys: seq<int>, h: nat, k: int)
    requires h < |keys| && DownHole(keys, h, k)
    requires forall i {:trigger Parent(i)} :: 0 < i < |keys| && Parent(i) == h ==> k <= keys[i]
    ensures HeapOrder(keys[h := k])
  {
    var after := keys[h := k];
    forall i | 0 <= i < |keys| ensures Ordered(after, i) {
      if i > 0 && i != h && Parent(i) != h {
        assert Ordered(keys, i);
      }
    }
  }

  lemma {:induction false} PastEnd(keys: seq<int>, h: nat, k: int)
    requires |keys| <= h && DownHole(keys, h, k)
    ensures HeapOrder(keys)
  {
    forall i | 0 <= i < |keys| ensures Ordered(keys, i) {
      assert i == 0 || Parent(i) != h;
    }
  }

  /** The first element of a heap is a least one. */
  lemma {:induction false} TopIsLeast(keys: seq<int>, i: nat)
    requires HeapOrder(keys) && i < |keys|
    ensures keys[0] <= keys[i]
  {
    if i > 0 {
      assert Ordered(keys, i);
      TopIsLeast(keys, Parent(i));
    }
  }

  /** The same amount off every key keeps the order (libevent/event.c:2447-2456). */
  lemma {:induction false} ShiftedOrder(keys: seq<int>, off: int)
    requires HeapOrder(keys)
    ensures HeapOrder(seq(|keys|, i requires 0 <= i < |keys| => keys[i] - off))
  {
    var after := seq(|keys|, i requires 0 <= i < |keys| => keys[i] - off);
    forall i | 0 <= i < |keys| ensures Ordered(after, i) {
      assert Ordered(keys, i);
    }
  }

  /** A new last place, to be filled from below. */
  lemma {:induction false} PushHole(keys: seq<int>, k: int)
    requires HeapOrder(keys)
    ensures UpHole(keys + [k], |keys|, k)
  {
    forall i | 0 <= i < |keys| ensures Ordered(keys + [k], i) {
      assert Ordered(keys, i);
    }
  }

  /** The heap without its last key has a hole at `h`.  The last key fits there from above or
      from below, never both ways; past the end there is nothing to fill. */
  lemma {:induction false} EraseHole(keys: seq<int>, h: nat)
    requires HeapOrder(keys) && h < |keys|
    ensures var rest, k := keys[..|keys| - 1], keys[|keys| - 1];
      HeapOrder(rest) &&
      (h < |rest| && h > 0 && keys[Parent(h)] > k ==> UpHole(rest, h, k)) &&
      (h == 0 || keys[Parent(h)] <= k ==> DownHole(rest, h, k)) &&
      (h == |rest| && h > 0 ==> keys[Parent(h)] <= k)
  {
    var rest, k := keys[..|keys| - 1], keys[|keys| - 1];
    forall i | 0 <= i < |rest| ensures Ordered(rest, i) {
      assert Ordered(keys, i);
    }
    assert Ordered(keys, |keys| - 1);
    if h > 0 { assert Ordered(keys, h); }
    forall i | 0 < i < |rest| && Parent(i) == h ensures rest[h] <= rest[i] {
      assert Ordered(keys, i);
    }
  }

  // ---------------------------------------------------------------- the heap

  class MinHeap {
    var p: array<Event?>
    var n: nat
    /** The events in the heap, the timeouts along the array, and all events ever initialised. */
    ghost var elems: set<Event>
    ghost var keys: seq<int>
    ghost var known: set<Event>

    /** Every place but the one at `h` has an event of the heap that knows its place. */
    ghost predicate Slots(h: int)
      requires n <= p.Length && |keys| == n
      reads this, p, elems
    {
      forall i :: 0 <= i < n && i != h ==>
        p[i] != null && p[i] in elems && p[i].minHeapIdx == i && p[i].timeout == keys[i]
    }

    /** Every event of the heap but `e` is at a place other than `h`. */
    ghost predicate Places(h: int, e: Event?)
      requires n <= p.Length
      reads this, p, elems
    {
      forall x :: x in elems && x != e ==> 0 <= x.minHeapIdx < n && x.minHeapIdx != h && p[x.minHeapIdx] == x
    }

    ghost predicate Holed(h: int, e: Event?)
      reads this, p, elems
    {
      n <= p.Length && |keys| == n && Slots(h) && Places(h, e)
    }

    /** The array is a heap of `elems`; exactly the events outside have index -1. */
    ghost predicate Valid()
      reads this, p, elems, known
    {
      Holed(-1, null) && HeapOrder(keys) && elems <= known &&
      forall x :: x in known && x !in elems ==> x.minHeapIdx == -1
    }

    /** The event at `q` moves into the hole at `h`. */
    method Move(h: nat, q: nat, ghost e: Event)
      requires h < n && q < n && h != q && Holed(h, e) && (e.minHeapIdx < 0 || n <= e.minHeapIdx)
      modifies p, this`keys, elems`minHeapIdx
      ensures Holed(q, e) && keys == old(keys)[h := old(keys)[q]]
      ensures e.minHeapIdx == old(e.minHeapIdx)
    {
      p[h] := p[q];
      p[h].minHeapIdx := h;
      keys := keys[h := keys[q]];
    }

    /** `e` goes into the hole.  Past the end it is written as well, outside the heap. */
    method Fill(h: nat, e: Event)
      requires Holed(h, e) && (e.minHeapIdx < 0 || n <= e.minHeapIdx)
      requires if h < n then e in elems else h == n < p.Length && e !in elems
      modifies p, this`keys, e`minHeapIdx
      ensures Holed(-1, null) && keys == if h < n then old(keys)[h := e.timeout] else old(keys)
    {
      p[h] := e;
      e.minHeapIdx := h;
      keys := if h < n then keys[h := e.timeout] else keys;
    }

    /** min_heap_shift_up_ (libevent/minheap-internal.h:127-138). */
    method ShiftUp(hole: nat, e: Event)
      requires hole < n && Holed(hole, e) && e in elems && (e.minHeapIdx < 0 || n <= e.minHeapIdx)
      requires UpHole(keys, hole, e.timeout)
      modifies p, this`keys, elems`minHeapIdx
      ensures Holed(-1, null) && HeapOrder(keys)
    {
      var h: nat := hole;
      while h > 0 && p[Parent(h)].timeout > e.timeout
        invariant h < n && Holed(h, e) && UpHole(keys, h, e.timeout)
        invariant e.minHeapIdx < 0 || n <= e.minHeapIdx
      {
        MoveUp(keys, h, e.timeout);
        Move(h, Parent(h), e);
        h := Parent(h);
      }
      FillUp(keys, h, e.timeout);
      Fill(h, e);
    }

    /** The smaller child of `h`, or the only one (libevent/minheap-internal.h:145). */
    method SmallerChild(h: nat, ghost e: Event) returns (m: nat)
      requires h < n && Holed(h, e) && 2 * (h + 1) <= n
      ensures LeastChild(keys, h, m)
    {
      m := 2 * (h + 1);
      m := m - if m == n || p[m].timeout > p[m - 1].timeout then 1 else 0;
      ghost var least := m;
      forall i | 0 < i < |keys| && Parent(i) == h ensures keys[least] <= keys[i] {
        assert i == 2 * h + 1 || i == 2 * h + 2;
      }
    }

    /** min_heap_shift_down_ (libevent/minheap-internal.h:140-154). */
    method ShiftDown(hole: nat, e: Event)
      requires Holed(hole, e) && (e.minHeapIdx < 0 || n <= e.minHeapIdx)
      requires if hole < n then e in elems else hole == n < p.Length && e !in elems
      requires DownHole(keys, hole, e.timeout)
      modifies p, this`keys, elems`minHeapIdx, e`minHeapIdx
      ensures Holed(-1, null) && HeapOrder(keys)
    {
      var h: nat := hole;
      while 2 * (h + 1) <= n
        invariant if hole < n then h < n else h == n
        invariant Holed(h, e) && DownHole(keys, h, e.timeout)
        invariant e.minHeapIdx < 0 || n <= e.minHeapIdx
        decreases n - h
      {
        var m := SmallerChild(h, e);
        if !(e.timeout > p[m].timeout) {
          break;
        }
        MoveDown(keys, h, m, e.timeout);
        Move(h, m, e);
        h := m;
      }
      if h < n {
        FillDown(keys, h, e.timeout);
      } else {
        PastEnd(keys, h, e.timeout);
      }
      Fill(h, e);
    }

    /** min_heap_reserve (libevent/minheap-internal.h:109-125): the array is moved to a larger one. */
    method Reserve(size: nat)
      requires Valid()
      modifies this`p
      ensures Valid() && p.Length >= size && (p == old(p) || fresh(p))
    {
      if p.Length < size {
        var a := if p.Length > 0 then p.Length * 2 else 8;
        if a < size {
          a := size;
        }
        var moved := new Event?[a](i => null);
        forall i | 0 <= i < n {
          moved[i] := p[i];
        }
        p := moved;
      }
    }

    /** min_heap_elem_init (libevent/minheap-internal.h:60): an event comes into being outside
        the heap. */
    method ElemInit(e: Event)
      requires Valid() && e !in elems
      modifies this`known, e`minHeapIdx
      ensures Valid() && known == old(known) + {e} && elems == old(elems)
    {
      e.minHeapIdx := -1;
      known := known + {e};
    }

    /** There is one more place, to be filled with `e`. */
    method Extend(e: Event)
      requires Valid() && e in known && e !in elems && n < p.Length
      modifies this`n, this`keys, this`elems
      ensures n == old(n) + 1 && elems == old(elems) + {e}
      ensures Holed(n - 1, e) && UpHole(keys, n - 1, e.timeout) && e.minHeapIdx < 0
    {
      PushHole(keys, e.timeout);
      n := n + 1;
      keys := keys + [e.timeout];
      elems := elems + {e};
    }

    /** min_heap_push (libevent/minheap-internal.h:65-71). */
    method Push(e: Event)
      requires Valid() && e in known && e !in elems
      modifies this, p, elems`minHeapIdx, e`minHeapIdx
      ensures Valid() && elems == old(elems) + {e} && known == old(known)
      ensures p == old(p) || fresh(p)
    {
      Reserve(n + 1);
      Extend(e);
      ShiftUp(n - 1, e);
    }

    /** min_heap_top (libevent/minheap-internal.h:63): a least event. */
    method Top() returns (e: Event?)
      requires Valid()
      ensures Valid() && (e == null <==> elems == {})
      ensures e != null ==> e in elems && e.minHeapIdx == 0 && forall x :: x in elems ==> e.timeout <= x.timeout
    {
      e := if n > 0 then p[0] else null;
      if n > 0 {
        forall x | x in elems ensures e.timeout <= x.timeout {
          TopIsLeast(keys, x.minHeapIdx);
        }
      }
    }

    /** Exactly the events outside have index -1, but for `e`. */
    ghost predicate Outside(e: Event?)
      reads this, known
    {
      elems <= known && forall x :: x in known && x !in elems && x != e ==> x.minHeapIdx == -1
    }

    /** The last place is given up; `e` is to leave the heap, and there is a hole at its place. */
    method Shrink(e: Event) returns (last: Event)
      requires Valid() && e in elems
      modifies this`n, this`keys, this`elems
      ensures elems == old(elems) - {e} && last in old(elems) && n <= last.minHeapIdx
      ensures 0 <= e.minHeapIdx && Holed(e.minHeapIdx, last) && Outside(e)
      ensures if e.minHeapIdx < n then last in elems else e.minHeapIdx == n < p.Length && last == e
      ensures var at := e.minHeapIdx;
        if at > 0 && p[Parent(at)] != null && p[Parent(at)].timeout > last.timeout then at < n &&
          UpHole(keys, at, last.timeout)
        else DownHole(keys, at, last.timeout)
    {
      EraseHole(keys, e.minHeapIdx);
      n := n - 1;
      last := p[n];
      keys := keys[..n];
      elems := elems - {e};
    }

    /** min_heap_pop (libevent/minheap-internal.h:73-83). */
    method Pop() returns (e: Event?)
      requires Valid()
      modifies this`n, this`keys, this`elems, p, elems`minHeapIdx
      ensures Valid() && known == old(known) && (e == null <==> old(elems) == {})
      ensures elems == if e == null then old(elems) else old(elems) - {e}
      ensures e != null ==> e in old(elems) && e.minHeapIdx == -1
      ensures e != null ==> forall x :: x in old(elems) ==> e.timeout <= x.timeout
    {
      e := Top();
      assert n > 0 ==> p[0] in elems;
      if n > 0 {
        var last := Shrink(e);
        ShiftDown(0, last);
        e.minHeapIdx := -1;
      }
    }

    /** min_heap_erase (libevent/minheap-internal.h:90-107): only one of the two shifts is
        needed, whichever event is erased. */
    method Erase(e: Event) returns (result: int)
      requires Valid() && e in known
      modifies this`n, this`keys, this`elems, p, elems`minHeapIdx
      ensures Valid() && known == old(known) && elems == old(elems) - {e} && e.minHeapIdx == -1
      ensures result == if e in old(elems) then 0 else -1
    {
      if e.minHeapIdx == -1 {
        return -1;
      }
      var at: nat := e.minHeapIdx;
      var last := Shrink(e);
      if at > 0 && p[Parent(at)].timeout > last.timeout {
        ShiftUp(at, last);
      } else {
        ShiftDown(at, last);
      }
      e.minHeapIdx := -1;
      result := 0;
    }

    /** The correction of all timeouts after the clock has jumped back (libevent/event.c:2447-2456). */
    method CorrectAll(off: int)
      requires Valid()
      modifies this`keys, elems`timeout
      ensures Valid() && elems == old(elems) && known == old(known)
      ensures forall x :: x in elems ==> x.timeout == old(x.timeout) - off
    {
      ghost var before := keys;
      var i := 0;
      while i < n
        invariant 0 <= i <= n && Holed(-1, null) && |before| == n
        invariant forall j :: 0 <= j < n ==> keys[j] == if j < i then before[j] - off else before[j]
        invariant forall x :: x in elems ==>
                  x.timeout == if x.minHeapIdx < i then old(x.timeout) - off else old(x.timeout)
        modifies this`keys, elems`timeout
      {
        p[i].timeout := p[i].timeout - off;
        keys := keys[i := keys[i] - off];
        i := i + 1;
      }
      ShiftedOrder(before, off);
      assert keys == seq(|before|, j requires 0 <= j < |before| => before[j] - off);
    }
  }
}
