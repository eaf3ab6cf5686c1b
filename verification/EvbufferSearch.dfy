/** Pointers into an evbuffer, searching and line reading (libevent/buffer.c:1295-1527 and
    2410-2559): chunk by chunk, as on the flat byte string. */
module EvbufferSearch {
  import opened EvbufferShape
  import opened Evbuffer

  const CR: Byte := 13
  const LF: Byte := 10

  /** struct evbuffer_ptr: the flat offset `pos`, and the chunk and offset in it. */
  datatype Ptr = Ptr(pos: int, chain: Chain?, inChain: nat)

  // ---------------------------------------------------------------- the flat string

  /** The first byte of `s` that is in `stops`: memchr, for a single one. */
  function FirstIn(s: seq<Byte>, stops: set<Byte>): (r: int)
    ensures -1 <= r < |s|
    ensures r >= 0 ==> s[r] in stops
    ensures forall i :: 0 <= i < (if r < 0 then |s| else r) ==> s[i] !in stops
  {
    if s == [] then -1
    else if s[0] in stops then 0
    else
      var r := FirstIn(s[1..], stops);
      if r < 0 then -1 else r + 1
  }

  /** memcmp of two strings of the same length: the difference of the first bytes that differ. */
  function MemCmp(a: seq<Byte>, b: seq<Byte>): (r: int)
    requires |a| == |b|
    ensures r == 0 <==> a == b
  {
    if a == [] then 0
    else if a[0] != b[0] then a[0] as int - b[0] as int
    else MemCmp(a[1..], b[1..])
  }

  /** The first bytes that differ decide. */
  lemma {:induction false} MemCmpDecides(a: seq<Byte>, b: seq<Byte>) returns (i: nat)
    requires |a| == |b| && a != b
    ensures i < |a| && a[..i] == b[..i] && a[i] != b[i] && MemCmp(a, b) == a[i] as int - b[i] as int
  {
    if a[0] != b[0] {
      i := 0;
    } else {
      assert a == [a[0]] + a[1..] && b == [b[0]] + b[1..];
      var j := MemCmpDecides(a[1..], b[1..]);
      i := j + 1;
      assert a[..i] == [a[0]] + a[1..][..j] && b[..i] == [b[0]] + b[1..][..j];
    }
  }

  /** memcmp in two parts. */
  lemma {:induction false} MemCmpParts(a: seq<Byte>, b: seq<Byte>, k: nat)
    requires |a| == |b| && k <= |a|
    ensures MemCmp(a, b) == if MemCmp(a[..k], b[..k]) != 0 then MemCmp(a[..k], b[..k]) else MemCmp(a[k..], b[k..])
  {
    if k == 0 {
      assert a[k..] == a && b[k..] == b;
    } else if a[0] == b[0] {
      MemCmpParts(a[1..], b[1..], k - 1);
      assert a[..k][1..] == a[1..][..k - 1] && b[..k][1..] == b[1..][..k - 1];
      assert a[1..][k - 1..] == a[k..] && b[1..][k - 1..] == b[k..];
    }
  }

  /** `what` is in `s` at offset `i`. */
  ghost predicate Matches(s: seq<Byte>, what: seq<Byte>, i: int) {
    0 <= i && i + |what| <= |s| && s[i..i + |what|] == what
  }

  // ---------------------------------------------------------------- pointers

  /** `p` stands before the byte at its flat offset; the chunk at `k` has that byte, or ends
      there. */
  ghost predicate Points(b: Buffer, p: Ptr, k: nat)
    requires b.Valid()
    reads b, b.chains
  {
    k <= |b.chains| &&
    p.chain == (if k < |b.chains| then b.chains[k] else null) &&
    p.pos == |Flat(b.chunks[..k])| + p.inChain &&
    p.inChain <= (if k < |b.chunks| then |b.chunks[k]| else 0)
  }

  /** The chunk at `k` in the flat string. */
  lemma {:induction false} ChunkAt(b: Buffer, k: nat)
    requires b.Valid() && k < |b.chains|
    ensures b.chains[k].Holds(b.chunks[k])
    ensures b.chains[k].next == if k + 1 < |b.chains| then b.chains[k + 1] else null
    ensures var o := |Flat(b.chunks[..k])|;
      |Flat(b.chunks[..k + 1])| == o + |b.chunks[k]| <= |b.Contents()| &&
      b.Contents()[o..o + |b.chunks[k]|] == b.chunks[k]
    ensures k + 1 == |b.chains| ==> |Flat(b.chunks[..k + 1])| == |b.Contents()|
  {
    var vs := b.chunks;
    assert Cell(b.chains, vs, null, k);
    FlatAppend(vs[..k], vs[k]);
    FlatConcat(vs[..k + 1], vs[k + 1..]);
    assert vs[..k + 1] == vs[..k] + [vs[k]] && vs == vs[..k + 1] + vs[k + 1..];
    assert k + 1 == |vs| ==> vs[k + 1..] == [];
  }

  lemma {:induction false} PastTheEnd(b: Buffer)
    requires b.Valid()
    ensures |Flat(b.chunks[..|b.chains|])| == |b.Contents()|
  {
    assert b.chunks[..|b.chains|] == b.chunks;
  }

  /** evbuffer_ptr_set with EVBUFFER_PTR_SET (libevent/buffer.c:2410-2450). */
  method PtrSet(b: Buffer, position: nat) returns (p: Ptr, ok: bool, ghost k: nat)
    requires b.Valid()
    ensures ok <==> position < |b.Contents()|
    ensures ok ==> Points(b, p, k) && k < |b.chains| && p.inChain < |b.chunks[k]| && p.pos == position
    ensures !ok ==> p.pos == -1 && p.chain == null
  {
    p, ok, k := Walk(b, b.first, position, 0, position, 0, 0);
  }

  /** evbuffer_ptr_set with EVBUFFER_PTR_ADD (libevent/buffer.c:2410-2450). */
  method PtrAdd(b: Buffer, from: Ptr, n: nat, ghost k0: nat) returns (p: Ptr, ok: bool, ghost k: nat)
    requires b.Valid() && Points(b, from, k0)
    ensures ok <==> from.pos + n < |b.Contents()|
    ensures ok ==> Points(b, p, k) && k < |b.chains| && p.inChain < |b.chunks[k]| && p.pos == from.pos + n
    ensures !ok ==> p.pos == -1 && p.chain == null
  {
    p, ok, k := Walk(b, from.chain, from.pos + n, from.inChain, n, from.inChain, k0);
  }

  /** The walk of evbuffer_ptr_set (libevent/buffer.c:2434-2445). */
  method Walk(b: Buffer, start: Chain?, pos: int, position0: nat, left0: nat, inChain: nat, ghost k0: nat)
    returns (p: Ptr, ok: bool, ghost k: nat)
    requires b.Valid() && Points(b, Ptr(pos - left0, start, position0), k0)
    ensures ok <==> pos < |b.Contents()|
    ensures ok ==> Points(b, p, k) && k < |b.chains| && p.inChain < |b.chunks[k]| && p.pos == pos
    ensures !ok ==> p.pos == -1 && p.chain == null
  {
    var chain, position, left := start, position0, left0;
    k := k0;
    PastTheEnd(b);
    if k < |b.chains| { ChunkAt(b, k); }
    while chain != null && position + left >= chain.off
      invariant 0 <= position && 0 <= left && Points(b, Ptr(pos - left, chain, position), k)
      invariant k < |b.chains| ==> chain.off == |b.chunks[k]|
      decreases |b.chains| - k
    {
      ChunkAt(b, k);
      left := left - (chain.off - position);
      chain := chain.next;
      position := 0;
      k := k + 1;
      if k < |b.chains| { ChunkAt(b, k); }
    }
    ok := chain != null;
    p := if ok then Ptr(pos, chain, position + left) else Ptr(-1, null, inChain);
    if ok { ChunkAt(b, k); }
  }

  /** `n` bytes of the chunk at `k` from offset `i` on, and where they are in the flat string. */
  lemma {:induction false} ChunkPiece(b: Buffer, k: nat, i: nat, n: nat)
    requires b.Valid() && k < |b.chains| && i + n <= |b.chunks[k]|
    ensures var o, c := |Flat(b.chunks[..k])|, b.chains[k];
      c.off == |b.chunks[k]| && c.misalign + c.off <= |c.buffer| && o + |b.chunks[k]| <= |b.Contents()| &&
      c.buffer[c.misalign + i..c.misalign + i + n] == b.Contents()[o + i..o + i + n]
  {
    ChunkAt(b, k);
    var o, c := |Flat(b.chunks[..k])|, b.chains[k];
    SliceWithin(b.Contents(), o, b.chunks[k], i, n);
    SliceWithin(c.buffer, c.misalign, b.chunks[k], i, n);
  }

  lemma {:induction false} SliceWithin(s: seq<Byte>, o: nat, d: seq<Byte>, i: nat, n: nat)
    requires o + |d| <= |s| && s[o..o + |d|] == d && i + n <= |d|
    ensures s[o + i..o + i + n] == d[i..i + n]
  {
    var x, y := s[o + i..o + i + n], d[i..i + n];
    forall j | 0 <= j < n ensures x[j] == y[j] {
      assert s[o..o + |d|][i + j] == s[o + i + j];
    }
  }

  const CHUNK_SZ := 128
  const EOL: set<Byte> := {CR, LF}

  /** find_eol_char (libevent/buffer.c:1320-1346): two memchrs, over 128 bytes at a time. */
  method FindEolChar(s: seq<Byte>) returns (r: int)
    ensures r == FirstIn(s, EOL)
  {
    var at := 0;
    while at < |s|
      invariant 0 <= at && forall i :: 0 <= i < at && i < |s| ==> s[i] !in EOL
    {
      var chunk := if at + CHUNK_SZ < |s| then CHUNK_SZ else |s| - at;
      var window := s[at..at + chunk];
      var cr, lf := FirstIn(window, {CR}), FirstIn(window, {LF});
      if cr >= 0 {
        r := at + if lf >= 0 && lf < cr then lf else cr;
        FirstInIs(s, EOL, r);
        return;
      } else if lf >= 0 {
        r := at + lf;
        FirstInIs(s, EOL, r);
        return;
      }
      at := at + CHUNK_SZ;
    }
    r := -1;
  }

  lemma {:induction false} FirstInIs(s: seq<Byte>, stops: set<Byte>, r: nat)
    requires r < |s| && s[r] in stops && forall i :: 0 <= i < r ==> s[i] !in stops
    ensures FirstIn(s, stops) == r
  {
  }

  /** The next chunk, or the end. */
  lemma {:induction false} PointsNext(b: Buffer, p: Ptr, k: nat)
    requires b.Valid() && Points(b, p, k) && k < |b.chains|
    ensures Points(b, Ptr(p.pos - p.inChain + p.chain.off, p.chain.next, 0), k + 1)
  {
    ChunkAt(b, k);
  }

  /** No byte of `s` from `from` up to `to` is in `stops`. */
  ghost predicate Without(s: seq<Byte>, from: int, to: int, stops: set<Byte>) {
    forall i :: from <= i < to && 0 <= i < |s| ==> s[i] !in stops
  }

  lemma {:induction false} WithoutPiece(s: seq<Byte>, from: nat, at: nat, n: nat, stops: set<Byte>)
    requires Without(s, from, at, stops) && from <= at && at + n <= |s|
    ensures var r := FirstIn(s[at..at + n], stops);
      if r < 0 then Without(s, from, at + n, stops) else s[at + r] in stops && Without(s, from, at + r, stops)
  {
    var t, r := s[at..at + n], FirstIn(s[at..at + n], stops);
    forall i | from <= i < at + (if r < 0 then n else r) ensures s[i] !in stops {
      if i >= at { assert t[i - at] == s[i]; }
    }
  }

  /** The search of one chunk, from `p` on: its next byte in `stops` is `at` bytes on. */
  method SearchChunk(b: Buffer, p: Ptr, stops: set<Byte>, ghost k: nat) returns (at: int, n: nat)
    requires b.Valid() && Points(b, p, k) && p.chain != null
    ensures n == p.chain.off - p.inChain == |b.chunks[k]| - p.inChain && p.pos + n <= |b.Contents()|
    ensures at == FirstIn(b.Contents()[p.pos..p.pos + n], stops)
  {
    ChunkAt(b, k);
    n := p.chain.off - p.inChain;
    ChunkPiece(b, k, p.inChain, n);
    var piece := p.chain.buffer[p.chain.misalign + p.inChain..p.chain.misalign + p.inChain + n];
    if stops == EOL {
      at := FindEolChar(piece);
    } else {
      at := FirstIn(piece, stops);
    }
  }

  /** The same, as an offset in the flat string. */
  method SearchOn(b: Buffer, p: Ptr, stops: set<Byte>, ghost k: nat) returns (at: int, n: nat)
    requires b.Valid() && Points(b, p, k) && p.chain != null
    ensures n == p.chain.off - p.inChain == |b.chunks[k]| - p.inChain && p.pos + n <= |b.Contents()|
    ensures if at < 0 then Without(b.Contents(), p.pos, p.pos + n, stops)
            else at < n && b.Contents()[p.pos + at] in stops && Without(b.Contents(), p.pos, p.pos + at, stops)
  {
    at, n := SearchChunk(b, p, stops, k);
    WithoutPiece(b.Contents(), p.pos, p.pos, n, stops);
  }

  /** The chunk at `k`, from `p` on: to its first byte in `stops`, or else to the next chunk
      (libevent/buffer.c:1300-1314, 1353-1367 and 2522-2548). */
  method ScanChunk(b: Buffer, p: Ptr, stops: set<Byte>, ghost k: nat) returns (found: bool, q: Ptr)
    requires b.Valid() && Points(b, p, k) && p.chain != null
    ensures p.pos <= q.pos && Without(b.Contents(), p.pos, q.pos, stops)
    ensures found ==> Points(b, q, k) && q.chain == p.chain && p.inChain <= q.inChain < q.chain.off
    ensures found ==> q.pos < |b.Contents()| && b.Contents()[q.pos] in stops
    ensures !found ==> Points(b, q, k + 1) && q.pos == p.pos - p.inChain + p.chain.off
  {
    var at, n := SearchOn(b, p, stops, k);
    found := at >= 0;
    if found {
      q := Ptr(p.pos + at, p.chain, p.inChain + at);
    } else {
      PointsNext(b, p, k);
      q := Ptr(p.pos + n, p.chain.next, 0);
    }
  }

  // ---------------------------------------------------------------- searching

  /** What is left to compare once `i` bytes of `mem` have been found at offset `o`. */
  ghost function ToCompare(s: seq<Byte>, o: nat, mem: seq<Byte>, i: nat): int
    requires o + |mem| <= |s| && i <= |mem|
  {
    MemCmp(s[o + i..o + |mem|], mem[i..])
  }

  lemma {:induction false} ToCompareEnds(s: seq<Byte>, o: nat, mem: seq<Byte>)
    requires o + |mem| <= |s|
    ensures ToCompare(s, o, mem, 0) == MemCmp(s[o..o + |mem|], mem) && ToCompare(s, o, mem, |mem|) == 0
  {
    assert mem[0..] == mem;
  }

  /** One piece of `n` bytes on. */
  lemma {:induction false} ToCompareStep(s: seq<Byte>, o: nat, mem: seq<Byte>, i: nat, n: nat)
    requires o + |mem| <= |s| && i + n <= |mem|
    ensures var r := MemCmp(s[o + i..o + i + n], mem[i..i + n]);
      ToCompare(s, o, mem, i) == if r != 0 then r else ToCompare(s, o, mem, i + n)
  {
    MemCmpParts(s[o + i..o + |mem|], mem[i..], n);
    assert s[o + i..o + |mem|][..n] == s[o + i..o + i + n] && s[o + i..o + |mem|][n..] == s[o + i + n..o + |mem|];
    assert mem[i..][..n] == mem[i..i + n] && mem[i..][n..] == mem[i + n..];
  }

  /** One turn of the loop of evbuffer_ptr_memcmp (libevent/buffer.c:2470-2482): `n` bytes of
      `mem`, from `i` on, against the chunk at `k`. */
  method ComparePiece(b: Buffer, chain: Chain, position: nat, mem: seq<Byte>, i: nat, ghost o: nat, ghost k: nat)
    returns (n: nat, r: int)
    requires b.Valid() && i < |mem| && Points(b, Ptr(o + i, chain, position), k) && o + |mem| <= |b.Contents()|
    ensures i + n <= |mem| && (r != 0 ==> r == ToCompare(b.Contents(), o, mem, i))
    ensures r == 0 ==> ToCompare(b.Contents(), o, mem, i) == ToCompare(b.Contents(), o, mem, i + n)
    ensures k < |b.chains| && (i + n < |mem| ==> Points(b, Ptr(o + i + n, chain.next, 0), k + 1))
  {
    ChunkAt(b, k);
    n := if |mem| - i + position > chain.off then chain.off - position else |mem| - i;
    ChunkPiece(b, k, position, n);
    ToCompareStep(b.Contents(), o, mem, i, n);
    r := MemCmp(chain.buffer[chain.misalign + position..chain.misalign + position + n], mem[i..i + n]);
  }

  /** evbuffer_ptr_memcmp (libevent/buffer.c:2452-2488). */
  method PtrMemcmp(b: Buffer, p: Ptr, mem: seq<Byte>, ghost k0: nat) returns (r: int)
    requires b.Valid() && Points(b, p, k0)
    ensures r == if p.pos + |mem| > |b.Contents()| then -1
                 else MemCmp(b.Contents()[p.pos..p.pos + |mem|], mem)
  {
    if p.pos + |mem| > b.totalLen {
      return -1;
    }
    r := 0;
    var chain, position, i: nat := p.chain, p.inChain, 0;
    ghost var k, o := k0, p.pos as nat;
    PastTheEnd(b);
    ToCompareEnds(b.Contents(), o, mem);
    while i < |mem| && chain != null
      invariant i <= |mem| && 0 <= position && (i < |mem| ==> Points(b, Ptr(o + i, chain, position), k))
      invariant ToCompare(b.Contents(), o, mem, 0) == ToCompare(b.Contents(), o, mem, i)
      decreases |b.chains| - k
    {
      var n;
      n, r := ComparePiece(b, chain, position, mem, i, o, k);
      if r != 0 {
        return;
      }
      i := i + n;
      position := 0;
      chain := chain.next;
      k := k + 1;
    }
  }

  /** `what` is nowhere in `s` from offset `from` up to `to`. */
  ghost predicate Nowhere(s: seq<Byte>, what: seq<Byte>, from: int, to: int) {
    forall i :: from <= i < to ==> !Matches(s, what, i)
  }

  lemma {:induction false} MatchStart(s: seq<Byte>, what: seq<Byte>, i: nat)
    requires what != [] && Matches(s, what, i)
    ensures s[i] == what[0]
  {
    assert s[i..i + |what|][0] == what[0];
  }

  lemma {:induction false} NoFirstByte(s: seq<Byte>, what: seq<Byte>, from: nat, to: nat)
    requires what != [] && Without(s, from, to, {what[0]})
    ensures Nowhere(s, what, from, to)
  {
    forall i | from <= i < to ensures !Matches(s, what, i) {
      if Matches(s, what, i) { MatchStart(s, what, i); }
    }
  }

  /** evbuffer_search_range at a byte that `what` starts with (libevent/buffer.c:2529-2541): the
      place itself on a match, else the next one. */
  method TryAt(b: Buffer, p: Ptr, what: seq<Byte>, ghost k: nat) returns (hit: bool, q: Ptr, ghost k': nat)
    requires b.Valid() && Points(b, p, k) && p.chain != null && p.inChain < p.chain.off
    ensures hit == Matches(b.Contents(), what, p.pos) && Points(b, q, k')
    ensures if hit then q == p else q.pos == p.pos + 1 && (k' == k + 1 || (k' == k && q.inChain == p.inChain + 1))
  {
    ChunkAt(b, k);
    q, k' := p, k;
    var r := PtrMemcmp(b, p, what, k);
    hit := r == 0;
    if !hit {
      q := Ptr(p.pos + 1, p.chain, p.inChain + 1);
      if q.inChain == q.chain.off {
        PointsNext(b, q, k);
        q := Ptr(q.pos, q.chain.next, 0);
        k' := k + 1;
      }
    }
  }

  /** Two pointers into the same chunk. */
  lemma {:induction false} PointsSame(b: Buffer, p: Ptr, k: nat, end: Ptr, ke: nat)
    requires b.Valid() && Points(b, p, k) && Points(b, end, ke) && p.chain != null && p.chain == end.chain
    ensures end.pos <= p.pos - p.inChain + p.chain.off
  {
    ChunkAt(b, k);
    if k < ke {
      SegmentDistinct(b.chains, b.chunks, null, k, ke);
    } else if ke < k {
      SegmentDistinct(b.chains, b.chunks, null, ke, k);
    }
  }

  /** One turn of the loop of evbuffer_search_range (libevent/buffer.c:2526-2552): the rest of the
      chunk is searched for the first byte, and tried there. */
  method SearchTurn(b: Buffer, what: seq<Byte>, ghost from: nat, p: Ptr, ghost k: nat)
    returns (found: bool, hit: bool, q: Ptr, ghost k': nat)
    requires b.Valid() && Points(b, p, k) && p.chain != null && what != []
    requires from <= p.pos && Nowhere(b.Contents(), what, from, p.pos)
    ensures Points(b, q, k') && from <= q.pos && Nowhere(b.Contents(), what, from, q.pos)
    ensures hit ==> found && Matches(b.Contents(), what, q.pos)
    ensures !hit ==> k' == k + 1 || (k' == k && q.inChain > p.inChain)
    ensures !found ==> k' == k + 1 && q.pos == p.pos - p.inChain + p.chain.off
  {
    hit := false;
    found, q := ScanChunk(b, p, {what[0]}, k);
    NoFirstByte(b.Contents(), what, p.pos, q.pos);
    if found {
      hit, q, k' := TryAt(b, q, what, k);
    } else {
      k' := k + 1;
    }
  }

  /** evbuffer_search_range (libevent/buffer.c:2496-2559), from `start`; when `bounded`, the
      match has to end before `end`. */
  method SearchRange(b: Buffer, what: seq<Byte>, start: Ptr, bounded: bool, end: Ptr, ghost k0: nat, ghost ke: nat)
    returns (p: Ptr, ghost k: nat)
    requires b.Valid() && Points(b, start, k0) && (bounded ==> Points(b, end, ke))
    ensures what == [] ==> p == start
    ensures what != [] && p.pos >= 0 ==>
              start.pos <= p.pos && Matches(b.Contents(), what, p.pos) &&
              Nowhere(b.Contents(), what, start.pos, p.pos) && (bounded ==> p.pos + |what| <= end.pos) &&
              Points(b, p, k)
    ensures what != [] && p.pos < 0 ==>
              p.pos == -1 &&
              forall i :: start.pos <= i && Matches(b.Contents(), what, i) ==> bounded && i + |what| > end.pos
  {
    p, k := start, k0;
    if what == [] {
      return;
    }
    var lastChain := if bounded then end.chain else null;
    PastTheEnd(b);
    while p.chain != null
      invariant Points(b, p, k) && start.pos <= p.pos && Nowhere(b.Contents(), what, start.pos, p.pos)
      decreases |b.chains| - k, if k < |b.chunks| then |b.chunks[k]| - p.inChain else 0
    {
      var found, hit, q;
      ghost var k';
      found, hit, q, k' := SearchTurn(b, what, start.pos, p, k);
      if !found && p.chain == lastChain {
        PointsSame(b, p, k, end, ke);
        break;
      }
      p, k := q, k';
      if hit {
        if bounded && p.pos + |what| > end.pos {
          break;
        }
        return;
      }
    }
    p := Ptr(-1, null, p.inChain);
  }

  // ---------------------------------------------------------------- line ends

  /** evbuffer_find_eol_char with all line ends, and evbuffer_strchr with one byte
      (libevent/buffer.c:1295-1318 and 1348-1371): they differ in the search of a chunk. */
  method Scan(b: Buffer, p: Ptr, stops: set<Byte>, ghost k0: nat) returns (ok: bool, q: Ptr, ghost k: nat)
    requires b.Valid() && Points(b, p, k0)
    ensures ok ==> Points(b, q, k) && p.pos <= q.pos < |b.Contents()| && q.chain != null && q.inChain < q.chain.off
    ensures ok ==> b.Contents()[q.pos] in stops && Without(b.Contents(), p.pos, q.pos, stops)
    ensures !ok ==> Without(b.Contents(), p.pos, |b.Contents()|, stops)
  {
    ok, q, k := false, p, k0;
    PastTheEnd(b);
    while q.chain != null
      invariant Points(b, q, k) && p.pos <= q.pos && Without(b.Contents(), p.pos, q.pos, stops)
      decreases |b.chains| - k
    {
      ok, q := ScanChunk(b, q, stops, k);
      if ok {
        return;
      }
      k := k + 1;
    }
  }

  /** Every byte of `s` from `from` up to `to` is in `chars`. */
  ghost predicate Within(s: seq<Byte>, from: int, to: int, chars: set<Byte>) {
    forall i :: from <= i < to && 0 <= i < |s| ==> s[i] in chars
  }

  /** The inner loop of evbuffer_strspn (libevent/buffer.c:1384-1397): `n` bytes of the chunk at
      `k` are in `chars`; `stopped` at one that is not. */
  method SpanChunk(b: Buffer, p: Ptr, chars: set<Byte>, ghost k: nat) returns (n: nat, stopped: bool)
    requires b.Valid() && Points(b, p, k) && p.chain != null
    ensures p.inChain + n <= p.chain.off == |b.chunks[k]| && p.pos + n <= |b.Contents()|
    ensures Within(b.Contents(), p.pos, p.pos + n, chars)
    ensures if stopped then p.pos + n < |b.Contents()| && b.Contents()[p.pos + n] !in chars
            else p.inChain + n == p.chain.off
  {
    ChunkAt(b, k);
    n, stopped := 0, false;
    var data := p.chain.buffer[p.chain.misalign + p.inChain..p.chain.misalign + p.chain.off];
    ChunkPiece(b, k, p.inChain, |data|);
    ghost var s := b.Contents();
    assert data == s[p.pos..p.pos + |data|];
    while n < |data|
      invariant n <= |data| && Within(s, p.pos, p.pos + n, chars)
    {
      assert data[n] == s[p.pos + n];
      if data[n] !in chars {
        stopped := true;
        return;
      }
      n := n + 1;
    }
  }

  /** evbuffer_strspn (libevent/buffer.c:1373-1411): the number of bytes in `chars` from `p` on,
      and where the pointer is left: at the first other byte, or at the start of the last chunk
      when there is none. */
  method StrSpn(b: Buffer, p: Ptr, chars: set<Byte>, ghost k0: nat) returns (count: int, q: Ptr, ghost k: nat)
    requires b.Valid() && Points(b, p, k0)
    ensures p.chain == null ==> count == -1 && q == p
    ensures p.chain != null ==>
              0 <= count && q.pos == p.pos + count <= |b.Contents()| && Within(b.Contents(), p.pos, q.pos, chars) &&
              if q.pos < |b.Contents()| then b.Contents()[q.pos] !in chars && Points(b, q, k)
              else q.chain == b.last && q.inChain == 0
  {
    count, q, k := -1, p, k0;
    if p.chain == null {
      return;
    }
    count := 0;
    PastTheEnd(b);
    while true
      invariant q.chain != null && 0 <= count && q.pos == p.pos + count && Points(b, q, k)
      invariant Within(b.Contents(), p.pos, p.pos + count, chars)
      decreases |b.chains| - k
    {
      var n, stopped := SpanChunk(b, q, chars, k);
      count := count + n;
      if stopped {
        q := Ptr(q.pos + n, q.chain, q.inChain + n);
        return;
      }
      PointsNext(b, q, k);
      if q.chain.next == null {
        ChunkAt(b, k);
        q := Ptr(q.pos + n, q.chain, 0);
        return;
      }
      q := Ptr(q.pos + n, q.chain.next, 0);
      k := k + 1;
    }
  }

  datatype EolStyle = Any | CrlfStrict | Crlf | Lf

  /** The bytes `s[i..i + n]` are a line end of the given style (libevent/include/event2/buffer.h:362-380). */
  ghost predicate EolAt(s: seq<Byte>, i: int, style: EolStyle, n: nat) {
    0 <= i && 0 < n && i + n <= |s| &&
    match style
    case Any => Within(s, i, i + n, EOL) && (i + n == |s| || s[i + n] !in EOL)
    case CrlfStrict => n == 2 && Matches(s, [CR, LF], i)
    case Crlf => (n == 1 && s[i] == LF) || (n == 2 && Matches(s, [CR, LF], i))
    case Lf => n == 1 && s[i] == LF
  }

  /** No line end starts in `s` from `from` up to `to`. */
  ghost predicate NoEol(s: seq<Byte>, from: int, to: int, style: EolStyle) {
    forall i, n :: from <= i < to ==> !EolAt(s, i, style, n)
  }

  /** A two-byte line end. */
  lemma {:induction false} CrLfAt(s: seq<Byte>, i: nat)
    requires i + 2 <= |s|
    ensures Matches(s, [CR, LF], i) <==> s[i] == CR && s[i + 1] == LF
  {
    assert s[i..i + 2] == [s[i], s[i + 1]];
  }

  /** A line end starts with a stop byte. */
  lemma {:induction false} EolStart(s: seq<Byte>, i: nat, style: EolStyle, n: nat)
    requires EolAt(s, i, style, n)
    ensures s[i] in (if style == Lf then {LF} else EOL)
  {
    if i + 2 <= |s| { CrLfAt(s, i); }
  }

  /** Where no stop byte is, no line end starts. */
  lemma {:induction false} NoEolWithout(s: seq<Byte>, from: nat, to: nat, style: EolStyle)
    requires Without(s, from, to, if style == Lf then {LF} else EOL)
    ensures NoEol(s, from, to, style)
  {
    forall i, n | from <= i < to ensures !EolAt(s, i, style, n) {
      if EolAt(s, i, style, n) { EolStart(s, i, style, n); }
    }
  }

  lemma {:induction false} NoEolStep(s: seq<Byte>, from: int, mid: int, to: int, style: EolStyle)
    requires NoEol(s, from, mid, style) && NoEol(s, mid, to, style)
    ensures NoEol(s, from, to, style)
  {
  }

  /** evbuffer_getchr (libevent/buffer.c:1414-1421). */
  method GetChr(b: Buffer, it: Ptr, ghost k: nat) returns (c: Byte)
    requires b.Valid() && Points(b, it, k) && it.chain != null && it.inChain < it.chain.off
    ensures it.pos < |b.Contents()| && c == b.Contents()[it.pos]
  {
    ChunkAt(b, k);
    ChunkPiece(b, k, it.inChain, 1);
    c := it.chain.buffer[it.chain.misalign + it.inChain];
    assert c == it.chain.buffer[it.chain.misalign + it.inChain..it.chain.misalign + it.inChain + 1][0];
    assert b.Contents()[it.pos] == b.Contents()[it.pos..it.pos + 1][0];
  }

  /** The line end at a CR or LF, if it is one (libevent/buffer.c:1452-1459). */
  method CrlfHere(b: Buffer, it: Ptr, ghost k: nat) returns (n: nat)
    requires b.Valid() && Points(b, it, k) && it.chain != null && it.inChain < it.chain.off
    ensures n > 0 ==> EolAt(b.Contents(), it.pos, Crlf, n)
    ensures n == 0 ==> NoEol(b.Contents(), it.pos, it.pos + 1, Crlf)
  {
    n := 0;
    var c := GetChr(b, it, k);
    if c == LF {
      n := 1;
    } else {
      var r := PtrMemcmp(b, it, [CR, LF], k);
      if r == 0 {
        n := 2;
      }
    }
  }

  /** The loop of evbuffer_search_eol for LF with an optional CR (libevent/buffer.c:1448-1464). */
  method SearchCrlf(b: Buffer, start: Ptr, ghost k0: nat) returns (it: Ptr, n: nat, ghost k: nat)
    requires b.Valid() && Points(b, start, k0)
    ensures it.pos >= 0 ==>
              start.pos <= it.pos && Points(b, it, k) && EolAt(b.Contents(), it.pos, Crlf, n) &&
              NoEol(b.Contents(), start.pos, it.pos, Crlf)
    ensures it.pos < 0 ==> it.pos == -1 && NoEol(b.Contents(), start.pos, |b.Contents()|, Crlf)
  {
    it, n, k := start, 0, k0;
    ghost var s := b.Contents();
    while true
      invariant Points(b, it, k) && start.pos <= it.pos && NoEol(s, start.pos, it.pos, Crlf)
      decreases |s| - it.pos
    {
      var ok;
      ghost var from := it.pos;
      ok, it, k := Scan(b, it, EOL, k);
      NoEolWithout(s, from, if ok then it.pos else |s|, Crlf);
      NoEolStep(s, start.pos, from, if ok then it.pos else |s|, Crlf);
      if !ok {
        it := Ptr(-1, null, 0);
        return;
      }
      n := CrlfHere(b, it, k);
      if n > 0 {
        return;
      }
      NoEolStep(s, start.pos, it.pos, it.pos + 1, Crlf);
      it, ok, k := PtrAdd(b, it, 1, k);
      if !ok {
        return;
      }
    }
  }

  /** The first line end from `start` on, and its length (libevent/buffer.c:1423-1488). */
  method SearchEol(b: Buffer, start: Ptr, style: EolStyle, ghost k0: nat) returns (it: Ptr, n: nat, ghost k: nat)
    requires b.Valid() && Points(b, start, k0)
    ensures it.pos >= 0 ==>
              start.pos <= it.pos && Points(b, it, k) && EolAt(b.Contents(), it.pos, style, n) &&
              NoEol(b.Contents(), start.pos, it.pos, style)
    ensures it.pos < 0 ==> it.pos == -1 && NoEol(b.Contents(), start.pos, |b.Contents()|, style)
  {
    n := 0;
    ghost var s := b.Contents();
    match style {
      case Any =>
        var ok;
        ok, it, k := Scan(b, start, EOL, k0);
        NoEolWithout(s, start.pos, if ok then it.pos else |s|, style);
        if ok {
          var count, rest, _ := StrSpn(b, it, EOL, k);
          n := count;
        } else {
          it := Ptr(-1, null, 0);
        }
      case CrlfStrict =>
        it, k := SearchRange(b, [CR, LF], start, false, start, k0, k0);
        n := 2;
      case Crlf =>
        it, n, k := SearchCrlf(b, start, k0);
      case Lf =>
        var ok;
        ok, it, k := Scan(b, start, {LF}, k0);
        NoEolWithout(s, start.pos, if ok then it.pos else |s|, style);
        n := 1;
        if !ok {
          it := Ptr(-1, null, 0);
        }
    }
  }

  datatype Option<T> = None | Some(value: T)

  lemma {:induction false} LineParts(s: seq<Byte>, i: nat, n: nat)
    requires i + n <= |s|
    ensures s == s[..i] + s[i..][..n] + s[i..][n..]
    ensures i == 0 ==> s[i..] == s
    ensures n == |s[i..]| ==> s[i..][n..] == []
  {
  }

  /** The first bytes leave the buffer for the caller. */
  method TakeBytes(b: Buffer, i: nat) returns (bytes: seq<Byte>)
    requires b.Valid() && !b.freezeStart && i <= |b.Contents()|
    modifies b`first, b`last, b`lastWithDatap, b`totalLen, b`chains, b`chunks, b.chains
    ensures b.Valid() && bytes == old(b.Contents())[..i] && b.Contents() == old(b.Contents())[i..]
    ensures forall c :: c in b.chains ==> c in old(b.chains)
  {
    ghost var s := b.Contents();
    LineParts(s, i, 0);
    var data := new Byte[i + 1];
    var copied := b.Remove(data, i);
    assert data[..i] == s[..i];
    bytes := data[..i];
  }

  /** The first bytes are lost. */
  method DropBytes(b: Buffer, n: nat)
    requires b.Valid() && !b.freezeStart && n <= |b.Contents()|
    modifies b`first, b`last, b`lastWithDatap, b`totalLen, b`chains, b`chunks, b.chains
    ensures b.Valid() && b.Contents() == old(b.Contents())[n..]
    ensures forall c :: c in b.chains ==> c in old(b.chains)
  {
    ghost var s := b.Contents();
    LineParts(s, 0, n);
    var drained := b.Drain(n);
  }

  /** The line and its line end leave the buffer (libevent/buffer.c:1510-1517). */
  method TakeLine(b: Buffer, i: nat, n: nat) returns (line: Option<seq<Byte>>, ghost eol: seq<Byte>)
    requires b.Valid() && !b.freezeStart && 0 < n && i + n <= |b.Contents()|
    modifies b`first, b`last, b`lastWithDatap, b`totalLen, b`chains, b`chunks, b.chains
    ensures b.Valid() && line.Some? && |line.value| == i && |eol| == n
    ensures old(b.Contents()) == line.value + eol + b.Contents()
    ensures forall c :: c in b.chains ==> c in old(b.chains)
  {
    ghost var s := b.Contents();
    LineParts(s, i, n);
    var bytes := TakeBytes(b, i);
    assert forall j :: 0 <= j < |b.chains| ==> b.chains[j] in old(b.chains);
    eol := b.Contents()[..n];
    DropBytes(b, n);
    line := Some(bytes);
  }

  /** evbuffer_readln (libevent/buffer.c:1490-1527): the first line, without its line end; both
      leave the buffer. */
  method ReadLn(b: Buffer, style: EolStyle) returns (line: Option<seq<Byte>>, ghost eol: seq<Byte>)
    requires b.Valid()
    modifies b`first, b`last, b`lastWithDatap, b`totalLen, b`chains, b`chunks, b.chains
    ensures b.Valid()
    ensures line.None? ==>
              b.Contents() == old(b.Contents()) &&
              (b.freezeStart || NoEol(old(b.Contents()), 0, |old(b.Contents())|, style))
    ensures line.Some? ==>
              !b.freezeStart && old(b.Contents()) == line.value + eol + b.Contents() &&
              EolAt(old(b.Contents()), |line.value|, style, |eol|) &&
              NoEol(old(b.Contents()), 0, |line.value|, style)
    ensures forall c :: c in b.chains ==> c in old(b.chains)
  {
    eol := [];
    if b.freezeStart {
      return None, eol;
    }
    var start := Ptr(0, b.first, 0);
    var it, n;
    ghost var k;
    it, n, k := SearchEol(b, start, style, 0);
    if it.pos < 0 {
      return None, eol;
    }
    line, eol := TakeLine(b, it.pos, n);
  }
}
