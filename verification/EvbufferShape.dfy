/** The chunks of an evbuffer (libevent/buffer.c, libevent/evbuffer-internal.h:156-195) and
    the flat byte string they stand for. */
module EvbufferShape {

  type Byte = x: int | 0 <= x < 256

  /** sizeof(struct evbuffer_chain) and MIN_BUFFER_SIZE for 64-bit pointers
      (libevent/evbuffer-internal.h:55 and 157-195). */
  const CHAIN_SIZE := 48
  const MIN_BUFFER_SIZE := 1024

  // ---------------------------------------------------------------- byte strings

  lemma {:induction false} EmptyConcat(a: seq<Byte>)
    ensures [] + a == a && a + [] == a
  {
  }

  lemma {:induction false} Assoc(a: seq<Byte>, b: seq<Byte>, c: seq<Byte>)
    ensures a + (b + c) == (a + b) + c
  {
  }

  lemma {:induction false} AppendInParts(s: seq<Byte>, d: seq<Byte>, k: nat)
    requires k <= |d|
    ensures s + d == (s + d[..k]) + d[k..]
    ensures k == 0 ==> s + d == s + d[k..]
  {
  }

  lemma {:induction false} PrependInParts(s: seq<Byte>, d: seq<Byte>, k: nat)
    requires k <= |d|
    ensures d + s == d[..k] + (d[k..] + s)
    ensures k == |d| ==> d + s == d[..k] + s
  {
  }

  lemma {:induction false} TakeInParts(d: seq<Byte>, s: seq<Byte>, n: nat, m: nat)
    requires n + m <= |s|
    ensures d + s[..n + m] == (d + s[..n]) + s[n..][..m]
    ensures s[n..][m..] == s[n + m..]
  {
  }

  /** A slice across three pieces. */
  lemma {:induction false} SliceConcat(a: seq<Byte>, b: seq<Byte>, c: seq<Byte>, n: nat)
    requires n <= |c|
    ensures (a + b + c)[|a|..|a| + |b| + n] == b + c[..n]
  {
  }

  lemma {:induction false} DropPast(a: seq<Byte>, b: seq<Byte>, n: nat)
    requires |a| <= n <= |a| + |b|
    ensures (a + b)[n..] == b[n - |a|..]
  {
  }

  lemma {:induction false} DropWithin(a: seq<Byte>, b: seq<Byte>, n: nat)
    requires n <= |a|
    ensures (a + b)[n..] == a[n..] + b
  {
  }

  lemma {:induction false} MoveOver<T>(a: seq<T>, b: seq<T>)
    requires b != []
    ensures a + [b[0]] + b[1..] == a + b
  {
  }

  // ---------------------------------------------------------------- flat contents

  /** The contents of a list of chunks, one after the other. */
  ghost function Flat(vs: seq<seq<Byte>>): seq<Byte> {
    if vs == [] then [] else vs[0] + Flat(vs[1..])
  }

  /** Every chunk holds data, except for a single empty one. */
  ghost predicate Full(vs: seq<seq<Byte>>) {
    |vs| == 1 || forall i :: 0 <= i < |vs| ==> vs[i] != []
  }

  lemma {:induction false} FlatConcat(a: seq<seq<Byte>>, b: seq<seq<Byte>>)
    ensures Flat(a + b) == Flat(a) + Flat(b)
  {
    if a == [] {
      assert a + b == b;
      EmptyConcat(Flat(b));
    } else {
      calc {
        Flat(a + b);
        { assert (a + b)[0] == a[0] && (a + b)[1..] == a[1..] + b; }
        a[0] + Flat(a[1..] + b);
        { FlatConcat(a[1..], b); }
        a[0] + (Flat(a[1..]) + Flat(b));
        { Assoc(a[0], Flat(a[1..]), Flat(b)); }
        a[0] + Flat(a[1..]) + Flat(b);
        Flat(a) + Flat(b);
      }
    }
  }

  lemma {:induction false} FullData(vs: seq<seq<Byte>>)
    requires Full(vs) && Flat(vs) != []
    ensures forall i :: 0 <= i < |vs| ==> vs[i] != []
  {
    if |vs| == 1 {
      FlatSingle(vs[0]);
      assert vs == [vs[0]];
    }
  }

  lemma {:induction false} FullJoin(vs: seq<seq<Byte>>, ws: seq<seq<Byte>>)
    requires Full(vs) && Flat(vs) != [] && Full(ws) && Flat(ws) != []
    ensures Full(vs + ws) && Flat(vs + ws) == Flat(vs) + Flat(ws)
  {
    FullData(vs);
    FullData(ws);
    FlatConcat(vs, ws);
  }

  /** As FullJoin, when the first list may also be empty. */
  lemma {:induction false} FullJoinAny(vs: seq<seq<Byte>>, ws: seq<seq<Byte>>)
    requires vs != [] ==> Full(vs) && Flat(vs) != []
    requires Full(ws) && Flat(ws) != []
    ensures forall i :: 0 <= i < |vs + ws| ==> (vs + ws)[i] != []
    ensures Full(vs + ws) && Flat(vs + ws) == Flat(vs) + Flat(ws)
  {
    if vs == [] {
      assert vs + ws == ws;
      EmptyConcat(Flat(ws));
      FullData(ws);
    } else {
      FullData(vs);
      FullData(ws);
      FlatConcat(vs, ws);
    }
  }

  lemma {:induction false} FlatSingle(d: seq<Byte>)
    ensures Flat([d]) == d
  {
    assert [d][1..] == [];
    EmptyConcat(d);
  }

  lemma {:induction false} FlatAppend(a: seq<seq<Byte>>, d: seq<Byte>)
    ensures Flat(a + [d]) == Flat(a) + d
  {
    FlatConcat(a, [d]);
    FlatSingle(d);
  }

  /** More data in the last chunk. */
  lemma {:induction false} FlatLast(vs: seq<seq<Byte>>, data: seq<Byte>)
    requires vs != []
    ensures var k := |vs| - 1;
      Flat(vs[k := vs[k] + data]) == Flat(vs) + data && Flat(vs) == Flat(vs[..k]) + vs[k]
  {
    var k := |vs| - 1;
    FlatAppend(vs[..k], vs[k]);
    assert vs == vs[..k] + [vs[k]];
    calc {
      Flat(vs[k := vs[k] + data]);
      { assert vs[k := vs[k] + data] == vs[..k] + [vs[k] + data]; }
      Flat(vs[..k] + [vs[k] + data]);
      { FlatAppend(vs[..k], vs[k] + data); }
      Flat(vs[..k]) + (vs[k] + data);
      { Assoc(Flat(vs[..k]), vs[k], data); }
      Flat(vs[..k]) + vs[k] + data;
      Flat(vs) + data;
    }
  }

  /** More data in the first chunk. */
  lemma {:induction false} FlatFirst(vs: seq<seq<Byte>>, data: seq<Byte>)
    requires vs != []
    ensures Flat(vs[0 := data + vs[0]]) == data + Flat(vs)
  {
    calc {
      Flat(vs[0 := data + vs[0]]);
      { assert vs[0 := data + vs[0]][1..] == vs[1..]; }
      (data + vs[0]) + Flat(vs[1..]);
      { Assoc(data, vs[0], Flat(vs[1..])); }
      data + Flat(vs);
    }
  }

  /** Dropping bytes past the first chunk. */
  lemma {:induction false} FlatPast(vs: seq<seq<Byte>>, n: nat)
    requires vs != [] && |vs[0]| <= n <= |Flat(vs)|
    ensures |Flat(vs)| == |vs[0]| + |Flat(vs[1..])|
    ensures Flat(vs)[n..] == Flat(vs[1..])[n - |vs[0]|..]
  {
    DropPast(vs[0], Flat(vs[1..]), n);
  }

  /** Dropping bytes of the first chunk. */
  lemma {:induction false} FlatDrop(vs: seq<seq<Byte>>, n: nat)
    requires vs != [] && n <= |vs[0]|
    ensures n <= |Flat(vs)| && Flat(vs[0 := vs[0][n..]]) == Flat(vs)[n..]
  {
    assert vs[0 := vs[0][n..]][1..] == vs[1..];
    DropWithin(vs[0], Flat(vs[1..]), n);
  }

  /** Cutting a list of chunks at `k`. */
  lemma {:induction false} FlatHalves(vs: seq<seq<Byte>>, k: nat)
    requires Full(vs) && Flat(vs) != [] && k < |vs|
    ensures var n := |Flat(vs[..k])|;
      n <= |Flat(vs)| && Flat(vs)[..n] == Flat(vs[..k]) && Flat(vs)[n..] == Flat(vs[k..]) && (n == 0 <==> k == 0)
    ensures Full(vs[k..]) && Flat(vs[k..]) != [] && (k > 0 ==> Full(vs[..k]))
  {
    FullData(vs);
    assert vs == vs[..k] + vs[k..];
    FlatConcat(vs[..k], vs[k..]);
    if k > 0 {
      assert vs[..k][0] == vs[0];
    }
  }

  // ---------------------------------------------------------------- chunks

  /** The memory `buffer` after memcpy of `data` to offset `at`. */
  function Overwritten(buffer: seq<Byte>, at: nat, data: seq<Byte>): (r: seq<Byte>)
    requires at + |data| <= |buffer|
    ensures |r| == |buffer|
  {
    buffer[..at] + data + buffer[at + |data|..]
  }

  /** `dst` has the first `at` bytes of `contents`, and behind them what it `was`. */
  ghost predicate Copied(dst: seq<Byte>, contents: seq<Byte>, at: nat, was: seq<Byte>) {
    at <= |contents| && at <= |was| && dst == contents[..at] + was[at..]
  }

  /** memcpy of the next piece, `data`, of `contents`. */
  method Memcpy(dst: array<Byte>, at: nat, data: seq<Byte>, ghost contents: seq<Byte>, ghost rest: seq<Byte>,
                ghost was: seq<Byte>)
    requires at + |data| <= dst.Length
    requires Copied(dst[..], contents, at, was) && contents[at..] == data + rest
    modifies dst
    ensures Copied(dst[..], contents, at + |data|, was) && contents[at + |data|..] == rest
  {
    assert contents == contents[..at] + (data + rest);
    forall i | 0 <= i < |data| {
      dst[at + i] := data[i];
    }
  }

  /** A chunk: `off` bytes of data from `misalign` on.  The memory `buffer` is overwritten in
      parts; its length never changes. */
  class Chain {
    var next: Chain?
    var buffer: seq<Byte>
    var misalign: nat
    var off: nat

    /** evbuffer_chain_new (libevent/buffer.c:154-181); the new memory is arbitrary. */
    constructor (size: nat, fill: Byte)
      ensures next == null && misalign == 0 && off == 0 && |buffer| >= size && Holds([])
    {
      next, misalign, off := null, 0, 0;
      var toAlloc := MIN_BUFFER_SIZE;
      while toAlloc < size + CHAIN_SIZE
        invariant toAlloc >= MIN_BUFFER_SIZE
        decreases size + CHAIN_SIZE - toAlloc
      {
        toAlloc := toAlloc * 2;
      }
      buffer := seq(toAlloc - CHAIN_SIZE, i => fill);
    }

    /** The data of the chunk is `data`. */
    ghost predicate Holds(data: seq<Byte>)
      reads this`buffer, this`misalign, this`off
    {
      0 < |buffer| && misalign + off <= |buffer| && off == |data| && buffer[misalign..misalign + off] == data
    }

    /** memcpy of `data` behind the data of the chunk (libevent/buffer.c:1563-1565,
        1574-1576 and 1596-1598). */
    method Append(data: seq<Byte>, ghost held: seq<Byte>)
      requires Holds(held) && misalign + off + |data| <= |buffer|
      modifies this`buffer, this`off
      ensures Holds(held + data) && |buffer| == old(|buffer|)
    {
      buffer := Overwritten(buffer, misalign + off, data);
      off := off + |data|;
    }

    /** memcpy of `data` before the data of the chunk (libevent/buffer.c:1650-1653 and
        1659-1665). */
    method Prepend(data: seq<Byte>, ghost held: seq<Byte>)
      requires Holds(held) && |data| <= misalign
      modifies this`buffer, this`misalign, this`off
      ensures Holds(data + held)
      ensures |buffer| == old(|buffer|) && misalign == old(misalign) - |data|
    {
      SliceConcat(buffer[..misalign - |data|], data, buffer[misalign..], off);
      assert buffer[misalign..][..off] == held;
      buffer := Overwritten(buffer, misalign - |data|, data);
      misalign, off := misalign - |data|, off + |data|;
    }

    /** evbuffer_chain_align (libevent/buffer.c:1693-1701). */
    method Align(ghost held: seq<Byte>)
      requires Holds(held)
      modifies this`buffer, this`misalign
      ensures Holds(held) && |buffer| == old(|buffer|) && misalign == 0
    {
      buffer := Overwritten(buffer, 0, buffer[misalign..misalign + off]);
      misalign := 0;
    }

    /** memcpy of the first `n` bytes of the chunk, the next ones of `contents`, to a caller's
        array (libevent/buffer.c:1058 and 1068). */
    method CopyTo(dst: array<Byte>, at: nat, n: nat, ghost held: seq<Byte>, ghost contents: seq<Byte>,
                  ghost more: seq<Byte>, ghost was: seq<Byte>)
      requires Holds(held) && n <= off && at + n <= dst.Length
      requires Copied(dst[..], contents, at, was) && contents[at..] == held + more
      modifies dst
      ensures Copied(dst[..], contents, at + n, was)
      ensures n == off ==> contents[at + n..] == more
    {
      var piece := buffer[misalign..misalign + n];
      assert piece == held[..n];
      PrependInParts(more, held, n);
      Memcpy(dst, at, piece, contents, held[n..] + more, was);
      if n == off { EmptyConcat(more); }
    }

    /** The chunk loses its first bytes (libevent/buffer.c:1002-1003, 1149-1150 and 1259-1260). */
    method Drop(n: nat, ghost held: seq<Byte>)
      requires Holds(held) && n <= off
      modifies this`misalign, this`off
      ensures Holds(held[n..])
    {
      misalign, off := misalign + n, off - n;
    }
  }

  // ---------------------------------------------------------------- linked segments

  function HeadOr(cs: seq<Chain>, tail: Chain?): Chain? {
    if cs == [] then tail else cs[0]
  }

  /** The chain whose link leads to the last one; null when that is the first. */
  ghost function Lead(cs: seq<Chain>): Chain? {
    if |cs| < 2 then null else cs[|cs| - 2]
  }

  ghost predicate Apart(a: seq<Chain>, b: seq<Chain>) {
    forall c :: c in a ==> c !in b
  }

  /** The chain at `i` holds the data at `i` and leads to the next chain. */
  ghost predicate Cell(cs: seq<Chain>, vs: seq<seq<Byte>>, tail: Chain?, i: nat)
    requires i < |cs| && i < |vs|
    reads cs
  {
    cs[i].Holds(vs[i]) && cs[i].next == HeadOr(cs[i + 1..], tail) && cs[i] !in cs[i + 1..]
  }

  /** The distinct chains `cs` hold `vs` and are linked one to the next, the last one to `tail`. */
  ghost predicate Segment(cs: seq<Chain>, vs: seq<seq<Byte>>, tail: Chain?)
    reads cs
  {
    |cs| == |vs| && forall i {:trigger Cell(cs, vs, tail, i)} :: 0 <= i < |cs| ==> Cell(cs, vs, tail, i)
  }

  lemma {:induction false} SegmentJoin(a: seq<Chain>, va: seq<seq<Byte>>, b: seq<Chain>, vb: seq<seq<Byte>>,
                                       tail: Chain?)
    requires Segment(a, va, HeadOr(b, tail)) && Segment(b, vb, tail) && Apart(a, b)
    ensures Segment(a + b, va + vb, tail)
  {
    forall i | 0 <= i < |a + b| ensures Cell(a + b, va + vb, tail, i) {
      if i < |a| {
        assert Cell(a, va, HeadOr(b, tail), i);
        assert (a + b)[i + 1..] == a[i + 1..] + b;
      } else {
        assert Cell(b, vb, tail, i - |a|);
        assert (a + b)[i + 1..] == b[i - |a| + 1..];
      }
    }
  }

  lemma {:induction false} SegmentSplit(cs: seq<Chain>, vs: seq<seq<Byte>>, tail: Chain?, k: nat)
    requires Segment(cs, vs, tail) && k <= |cs|
    ensures Segment(cs[..k], vs[..k], HeadOr(cs[k..], tail)) && Segment(cs[k..], vs[k..], tail)
    ensures Apart(cs[..k], cs[k..])
  {
    forall i | 0 <= i < k
      ensures Cell(cs[..k], vs[..k], HeadOr(cs[k..], tail), i) && cs[i] !in cs[k..]
    {
      assert Cell(cs, vs, tail, i);
      assert cs[i + 1..] == cs[..k][i + 1..] + cs[k..];
    }
    forall i | 0 <= i < |cs| - k ensures Cell(cs[k..], vs[k..], tail, i) {
      assert Cell(cs, vs, tail, k + i);
      assert cs[k..][i + 1..] == cs[k + i + 1..];
    }
  }

  lemma {:induction false} SegmentOne(c: Chain, v: seq<Byte>, tail: Chain?)
    ensures Segment([c], [v], tail) <==> c.Holds(v) && c.next == tail
  {
    assert [c][1..] == [] && [v][1..] == [];
    assert Cell([c], [v], tail, 0) == (c.Holds(v) && c.next == tail);
  }

  /** The last chain of a segment. */
  lemma {:induction false} SegmentLast(cs: seq<Chain>, vs: seq<seq<Byte>>, tail: Chain?)
    requires Segment(cs, vs, tail) && cs != []
    ensures var k := |cs| - 1;
      Segment(cs[..k], vs[..k], cs[k]) && cs[k] !in cs[..k] && cs[k].next == tail && cs[k].Holds(vs[k])
  {
    var k := |cs| - 1;
    SegmentSplit(cs, vs, tail, k);
    assert cs[k..] == [cs[k]] && vs[k..] == [vs[k]];
    SegmentOne(cs[k], vs[k], tail);
    assert cs[k] in cs[k..];
  }

  lemma {:induction false} SegmentAppend(a: seq<Chain>, va: seq<seq<Byte>>, c: Chain, v: seq<Byte>, tail: Chain?)
    requires Segment(a, va, c) && c !in a && c.Holds(v) && c.next == tail
    ensures Segment(a + [c], va + [v], tail)
  {
    SegmentOne(c, v, tail);
    SegmentJoin(a, va, [c], [v], tail);
  }

  /** The segment again after its last chain has changed to hold `v` and lead to `tail`. */
  lemma {:induction false} SegmentRelast(cs: seq<Chain>, vs: seq<seq<Byte>>, v: seq<Byte>, tail: Chain?)
    requires cs != [] && |vs| == |cs|
    requires var k := |cs| - 1;
      Segment(cs[..k], vs[..k], cs[k]) && cs[k] !in cs[..k] && cs[k].next == tail && cs[k].Holds(v)
    ensures Segment(cs, vs[|cs| - 1 := v], tail)
  {
    var k := |cs| - 1;
    SegmentAppend(cs[..k], vs[..k], cs[k], v, tail);
    assert cs == cs[..k] + [cs[k]] && vs[k := v] == vs[..k] + [v];
  }

  /** The first chain of a segment. */
  lemma {:induction false} SegmentHead(cs: seq<Chain>, vs: seq<seq<Byte>>, tail: Chain?)
    requires Segment(cs, vs, tail) && cs != []
    ensures cs[0].next == HeadOr(cs[1..], tail) && cs[0].Holds(vs[0])
    ensures cs[0] !in cs[1..] && Segment(cs[1..], vs[1..], tail)
  {
    SegmentSplit(cs, vs, tail, 1);
    assert Cell(cs, vs, tail, 0);
  }

  lemma {:induction false} SegmentCons(c: Chain, v: seq<Byte>, cs: seq<Chain>, vs: seq<seq<Byte>>, tail: Chain?)
    requires Segment(cs, vs, tail) && c !in cs && c.Holds(v) && c.next == HeadOr(cs, tail)
    ensures Segment([c] + cs, [v] + vs, tail)
  {
    SegmentOne(c, v, HeadOr(cs, tail));
    SegmentJoin([c], [v], cs, vs, tail);
  }

  /** The segment again after its first chain has changed to hold `v`. */
  lemma {:induction false} SegmentRehead(cs: seq<Chain>, vs: seq<seq<Byte>>, v: seq<Byte>, tail: Chain?)
    requires cs != [] && vs != []
    requires Segment(cs[1..], vs[1..], tail) && cs[0] !in cs[1..]
    requires cs[0].next == HeadOr(cs[1..], tail) && cs[0].Holds(v)
    ensures Segment(cs, vs[0 := v], tail)
  {
    SegmentCons(cs[0], v, cs[1..], vs[1..], tail);
    assert cs == [cs[0]] + cs[1..] && vs[0 := v] == [v] + vs[1..];
  }

  lemma {:induction false} SegmentLead(cs: seq<Chain>, vs: seq<seq<Byte>>, tail: Chain?)
    requires Segment(cs, vs, tail) && |cs| >= 2
    ensures Lead(cs).next == cs[|cs| - 1] && cs[0] != cs[|cs| - 1]
    ensures cs[0] == Lead(cs) <==> |cs| == 2
    ensures Lead(cs[1..]) == if |cs| == 2 then null else Lead(cs)
  {
    assert Cell(cs, vs, tail, |cs| - 2) && Cell(cs, vs, tail, 0);
    assert cs[1..][|cs| - 2] == cs[|cs| - 1];
    if |cs| > 2 { assert cs[1..][|cs| - 3] == cs[|cs| - 2]; }
  }

  lemma {:induction false} SegmentDistinct(cs: seq<Chain>, vs: seq<seq<Byte>>, tail: Chain?, m: nat, n: nat)
    requires Segment(cs, vs, tail) && m < n < |cs|
    ensures cs[m] != cs[n]
  {
    assert Cell(cs, vs, tail, m);
    assert cs[m + 1..][n - m - 1] == cs[n];
  }

  /** A chain of a segment is the last one, or leads to it, only at its place. */
  lemma {:induction false} SegmentPlace(cs: seq<Chain>, vs: seq<seq<Byte>>, tail: Chain?, k: nat)
    requires Segment(cs, vs, tail) && k < |cs|
    ensures cs[k] == cs[|cs| - 1] <==> k == |cs| - 1
    ensures |cs| >= 2 ==> (cs[k] == cs[|cs| - 2] <==> k == |cs| - 2)
  {
    assert Cell(cs, vs, tail, k);
    if k < |cs| - 1 { assert cs[k + 1..][|cs| - 2 - k] == cs[|cs| - 1]; }
    if k < |cs| - 2 { assert cs[k + 1..][|cs| - 3 - k] == cs[|cs| - 2]; }
    if k == |cs| - 1 && k > 0 { assert Cell(cs, vs, tail, k - 1); assert cs[k..][0] == cs[k]; }
  }

  /** One chunk on, when at least its bytes are to be passed. */
  lemma {:induction false} SegmentStep(cs: seq<Chain>, vs: seq<seq<Byte>>, n: nat)
    requires cs != [] && Segment(cs, vs, null) && Full(vs) && |vs[0]| <= n < |Flat(vs)|
    ensures |cs| >= 2 && cs[0].next == cs[1] && cs[1].Holds(vs[1])
    ensures Segment(cs[1..], vs[1..], null) && Full(vs[1..])
    ensures n - |vs[0]| < |Flat(vs[1..])| && Flat(vs)[n..] == Flat(vs[1..])[n - |vs[0]|..]
    ensures Lead(cs) != null && Lead(cs).next != cs[0]
    ensures Lead(cs[1..]) == if cs[0] == Lead(cs) then null else Lead(cs)
  {
    SegmentHead(cs, vs, null);
    FlatPast(vs, n);
    SegmentHead(cs[1..], vs[1..], null);
    SegmentLead(cs, vs, null);
  }

  /** The chain at `k`: what it holds, and the next one. */
  lemma {:induction false} SegmentAt(cs: seq<Chain>, vs: seq<seq<Byte>>, tail: Chain?, k: nat)
    requires Segment(cs, vs, tail) && k < |cs|
    ensures cs[k].Holds(vs[k]) && cs[k].next == if k + 1 < |cs| then cs[k + 1] else tail
  {
    assert Cell(cs, vs, tail, k);
  }

  lemma {:induction false} FlatFrom(vs: seq<seq<Byte>>, k: nat)
    requires k < |vs|
    ensures Flat(vs[k..]) == vs[k] + Flat(vs[k + 1..])
  {
    assert vs[k..][1..] == vs[k + 1..];
  }

  /** From the chunk at `k` to the next one, when at least its bytes are wanted. */
  lemma {:induction false} PassAt(cs: seq<Chain>, vs: seq<seq<Byte>>, k: nat, held: seq<Byte>, n: nat)
    requires Segment(cs, vs, null) && k < |cs| && |vs[k]| <= n <= |Flat(vs[k..])|
    ensures cs[k].Holds(vs[k]) && cs[k].next == if k + 1 < |cs| then cs[k + 1] else null
    ensures k + 1 < |cs| ==> cs[k + 1].Holds(vs[k + 1])
    ensures n - |vs[k]| <= |Flat(vs[k + 1..])| && held + vs[k] + Flat(vs[k + 1..]) == held + Flat(vs[k..])
    ensures k + 1 == |cs| ==> n == |vs[k]|
  {
    SegmentAt(cs, vs, null, k);
    if k + 1 < |cs| { SegmentAt(cs, vs, null, k + 1); }
    FlatFrom(vs, k);
    Assoc(held, vs[k], Flat(vs[k + 1..]));
  }

  /** The segment again after its last link has been turned to `tail`. */
  lemma {:induction false} SegmentRelink(cs: seq<Chain>, vs: seq<seq<Byte>>, tail: Chain?)
    requires cs != [] && |vs| == |cs|
    requires var k := |cs| - 1;
      Segment(cs[..k], vs[..k], cs[k]) && cs[k] !in cs[..k] && cs[k].next == tail && cs[k].Holds(vs[k])
    ensures Segment(cs, vs, tail)
  {
    SegmentRelast(cs, vs, vs[|cs| - 1], tail);
    assert vs[|cs| - 1 := vs[|cs| - 1]] == vs;
  }

  /** From the chunk at `k` to the next one, when the bytes up to and with it are fewer than all. */
  lemma {:induction false} WalkStep(cs: seq<Chain>, vs: seq<seq<Byte>>, k: nat)
    requires Segment(cs, vs, null) && k < |cs| && |Flat(vs[..k])| + |vs[k]| < |Flat(vs)|
    ensures |Flat(vs[..k + 1])| == |Flat(vs[..k])| + |vs[k]|
    ensures k + 1 < |cs| && cs[k].next == cs[k + 1] && cs[k + 1].Holds(vs[k + 1])
    ensures cs[k] == Lead(cs) <==> k == |cs| - 2
  {
    assert vs[..|vs|] == vs && vs[..k + 1] == vs[..k] + [vs[k]];
    FlatAppend(vs[..k], vs[k]);
    assert Cell(cs, vs, null, k) && Cell(cs, vs, null, k + 1) && Cell(cs, vs, null, |cs| - 2);
    if k < |cs| - 2 { assert cs[k + 1..][|cs| - 3 - k] == cs[|cs| - 2]; }
  }

  /** The chains `ds`, from `head` on, follow the chains `cs`, which end in `last`. */
  method LinkAfter(last: Chain, head: Chain?, ghost cs: seq<Chain>, ghost vs: seq<seq<Byte>>,
                   ghost ds: seq<Chain>, ghost ws: seq<seq<Byte>>, ghost tail: Chain?, ghost tail': Chain?)
    requires Segment(cs, vs, tail) && cs != [] && last == cs[|cs| - 1]
    requires Segment(ds, ws, tail') && head == HeadOr(ds, tail') && Apart(cs, ds)
    modifies last`next
    ensures Segment(cs + ds, vs + ws, tail')
  {
    assert last in cs;
    SegmentLast(cs, vs, tail);
    last.next := head;
    SegmentRelink(cs, vs, head);
    SegmentJoin(cs, vs, ds, ws, tail');
  }

  /** Nothing follows the chains `cs`, which end in `last`, any more. */
  method CutAfter(last: Chain, ghost cs: seq<Chain>, ghost vs: seq<seq<Byte>>, ghost tail: Chain?)
    requires Segment(cs, vs, tail) && cs != [] && last == cs[|cs| - 1]
    modifies last`next
    ensures Segment(cs, vs, null)
  {
    SegmentLast(cs, vs, tail);
    last.next := null;
    SegmentRelink(cs, vs, null);
  }
}
