/** The evbuffer of libevent/buffer.c: a list of chunks that behaves as one byte string. */
module Evbuffer {
  import opened EvbufferShape

  /** libevent/buffer.c:1529 and 1704. */
  const CHAIN_MAX_AUTO_SIZE := 4096
  const MAX_TO_REALIGN_IN_EXPAND := 2048

  /** Where first, last and last_with_datap point for the chains `cs`. */
  ghost predicate Ends(cs: seq<Chain>, first: Chain?, last: Chain?, lastWithDatap: Chain?) {
    first == HeadOr(cs, null) &&
    last == (if cs == [] then null else cs[|cs| - 1]) &&
    lastWithDatap == Lead(cs)
  }

  lemma {:induction false} EndsJoin(a: seq<Chain>, first: Chain?, last: Chain?, lead: Chain?,
                                    b: seq<Chain>, next: Chain?, last': Chain?, lead': Chain?)
    requires a != [] && b != [] && Ends(a, first, last, lead) && Ends(b, next, last', lead')
    ensures Ends(a + b, first, last', if lead' == null then last else lead')
  {
  }

  lemma {:induction false} EndsRest(cs: seq<Chain>, first: Chain?, last: Chain?, lead: Chain?, k: nat)
    requires k < |cs| && first == cs[0] && last == cs[|cs| - 1]
    requires lead == if k + 1 < |cs| then cs[|cs| - 2] else null
    ensures Ends(cs[k..], cs[k], last, lead) && cs == cs[..k] + cs[k..]
  {
  }

  lemma {:induction false} FullPulled(held: seq<Byte>, vrest: seq<seq<Byte>>)
    requires held != [] && forall i :: 0 <= i < |vrest| ==> vrest[i] != []
    ensures Full([held] + vrest) && Flat([held] + vrest) == held + Flat(vrest)
  {
    assert ([held] + vrest)[1..] == vrest;
  }

  class Buffer {
    var first: Chain?
    var last: Chain?
    /** The chunk whose `next` link last_with_datap points at; null for `&first`. */
    var lastWithDatap: Chain?
    var totalLen: nat
    var freezeStart: bool
    var freezeEnd: bool
    ghost var chains: seq<Chain>
    ghost var chunks: seq<seq<Byte>>

    /** The chunks are linked from `first` to `last`; every chunk holds data, except for a
        single empty one; last_with_datap designates the last chunk. */
    ghost predicate Linked()
      reads this, chains
    {
      Segment(chains, chunks, null) && Full(chunks) && Ends(chains, first, last, lastWithDatap)
    }

    ghost predicate Valid()
      reads this, chains
    {
      Linked() && totalLen == |Contents()|
    }

    /** The byte string the buffer stands for. */
    ghost function Contents(): seq<Byte>
      reads this
    {
      Flat(chunks)
    }

    /** evbuffer_new (libevent/buffer.c:338-352). */
    constructor ()
      ensures Valid() && Contents() == [] && !freezeStart && !freezeEnd && chains == []
    {
      first, last, lastWithDatap, totalLen := null, null, null, 0;
      freezeStart, freezeEnd := false, false;
      chains, chunks := [], [];
    }

    /** *last_with_datap. */
    function LastWithData(): Chain?
      reads this, lastWithDatap
    {
      if lastWithDatap == null then first else lastWithDatap.next
    }

    // -------------------------------------------------------------- appending

    /** The last chunk, and what leads to it. */
    lemma {:induction false} LastChunk()
      requires Valid() && chains != []
      ensures last == chains[|chains| - 1] && last.next == null && last.Holds(chunks[|chunks| - 1])
      ensures Segment(chains[..|chains| - 1], chunks[..|chunks| - 1], last) && last !in chains[..|chains| - 1]
      ensures |chains| > 1 ==> lastWithDatap.next == last && last.off > 0
    {
      SegmentLast(chains, chunks, null);
      if |chains| > 1 {
        SegmentLead(chains, chunks, null);
      }
    }

    /** A buffer without bytes has no chunk, or a single empty one. */
    lemma {:induction false} EmptyContents()
      requires Valid()
      ensures Contents() == [] <==> chains == [] || last.off == 0
      ensures chains != [] && last.off == 0 ==> |chains| == 1
    {
      if chains != [] {
        LastChunk();
        FlatLast(chunks, []);
        if |chains| == 1 { FlatSingle(chunks[0]); assert chunks == [chunks[0]]; }
      }
    }

    /** The search for the first chunk without data at the end (libevent/buffer.c:267-270 and
        293-296): `ch` is the chunk whose link leads to `victim`, null for `first`. */
    method FindVictim() returns (ch: Chain?, victim: Chain?)
      requires Valid()
      ensures Valid()
      ensures victim == if chains == [] || last.off != 0 then null else last
      ensures ch == if chains == [] || last.off == 0 then null else last
    {
      ch := lastWithDatap;
      if chains != [] { LastChunk(); }
      victim := LastWithData();
      while victim != null && victim.off != 0
        invariant Valid()
        invariant victim != null ==> victim == last && ch == lastWithDatap
        invariant victim == null && chains != [] ==> ch == last && last.off != 0
        invariant chains == [] ==> victim == null && ch == null
        decreases if victim != null then 1 else 0
      {
        ch := victim;
        victim := ch.next;
      }
    }

    /** The chunk list with `chain` after the last chunk (libevent/buffer.c:299-301 and 308). */
    method AppendChunk(chain: Chain, ghost held: seq<Byte>)
      requires Valid() && chains != [] && last.off > 0
      requires chain.Holds(held) && chain.off > 0 && chain.next == null && chain !in chains
      modifies this`last, this`lastWithDatap, this`totalLen, this`chains, this`chunks, last`next
      ensures Valid() && chains == old(chains) + [chain] && Contents() == old(Contents()) + held
    {
      ghost var cs, vs := chains, chunks;
      LastChunk();
      SegmentOne(chain, held, null);
      LinkAfter(last, chain, cs, vs, [chain], [held], null, null);
      FlatAppend(vs, held);
      if chain.off > 0 {
        lastWithDatap := last;
      }
      last := chain;
      totalLen := totalLen + chain.off;
      chains, chunks := cs + [chain], vs + [held];
    }

    /** The chunk list with `chain` alone (libevent/buffer.c:291 and 303-308). */
    method OnlyChunk(chain: Chain, ghost held: seq<Byte>)
      requires Valid() && Contents() == [] && chain.Holds(held) && chain.next == null
      modifies this`first, this`last, this`totalLen, this`chains, this`chunks
      ensures Valid() && chains == [chain] && Contents() == held
    {
      EmptyContents();
      FlatSingle(held);
      SegmentOne(chain, held, null);
      first := chain;
      last := chain;
      totalLen := totalLen + chain.off;
      chains, chunks := [chain], [held];
    }

    /** evbuffer_chain_insert (libevent/buffer.c:279-311).  Among the modelled operations an
        empty chunk is only inserted into a buffer without chunks. */
    method ChainInsert(chain: Chain, ghost held: seq<Byte>)
      requires Valid() && chain.Holds(held) && chain.next == null && chain !in chains
      requires held != [] || chains == []
      modifies this`first, this`last, this`lastWithDatap, this`totalLen, this`chains, this`chunks, last
      ensures Valid() && last == chain && Contents() == old(Contents()) + held
      ensures chains == if old(Contents()) == [] then [chain] else old(chains) + [chain]
      ensures chain.Holds(held)
    {
      EmptyContents();
      EmptyConcat(held);
      if chains != [] { LastChunk(); }
      if LastWithData() == null {
        OnlyChunk(chain, held);
      } else {
        var ch, victim := FindVictim();
        if victim == null {
          AppendChunk(chain, held);
        } else {
          OnlyChunk(chain, held);
        }
      }
    }

    /** The last chunk takes `data` behind what it holds (libevent/buffer.c:1563-1567,
        1574-1577 and 1596-1600). */
    method WriteLast(data: seq<Byte>)
      requires Valid() && chains != [] && Remain() >= |data|
      modifies this`totalLen, this`chunks, last`buffer, last`off
      ensures Valid() && Contents() == old(Contents()) + data
    {
      ghost var cs, vs, k := chains, chunks, |chunks| - 1;
      LastChunk();
      FlatLast(vs, data);
      last.Append(data, vs[k]);
      totalLen := totalLen + |data|;
      SegmentRelast(cs, vs, vs[k] + data, null);
      chunks := vs[k := vs[k] + data];
    }

    /** evbuffer_chain_align (libevent/buffer.c:1693-1701) on the last chunk. */
    method AlignLast()
      requires Valid() && chains != []
      modifies last`buffer, last`misalign
      ensures Valid() && Contents() == old(Contents())
      ensures last.misalign == 0 && |last.buffer| == old(|last.buffer|)
    {
      ghost var cs, vs, k := chains, chunks, |chunks| - 1;
      LastChunk();
      last.Align(vs[k]);
      SegmentRelink(cs, vs, null);
    }

    /** evbuffer_chain_should_realign (libevent/buffer.c:1708-1715). */
    static predicate ShouldRealign(bufferLen: nat, off: nat, datlen: nat) {
      bufferLen >= off + datlen && off < bufferLen / 2 && off <= MAX_TO_REALIGN_IN_EXPAND
    }

    /** A buffer without chunks gets an empty one (libevent/buffer.c:1548-1555 and 1635-1640). */
    method FirstChunk(size: nat, fill: Byte)
      requires Valid()
      modifies this`first, this`last, this`lastWithDatap, this`totalLen, this`chains, this`chunks, last
      ensures Valid() && chains != [] && Contents() == old(Contents())
      ensures old(chains) != [] ==> chains == old(chains)
      ensures old(chains) == [] ==> |chains| == 1 && fresh(chains[0])
    {
      if first == null {
        var chain := new Chain(size, fill);
        ChainInsert(chain, []);
      }
    }

    /** The unused bytes behind the data of the last chunk. */
    function Remain(): (r: int)
      requires last != null
      reads this, last
    {
      |last.buffer| - last.misalign - last.off
    }

    /** The tail of evbuffer_add: `data` fills the last chunk (libevent/buffer.c:1594-1600). */
    method FillLast(data: seq<Byte>) returns (rest: seq<Byte>)
      requires Valid() && chains != [] && Remain() < |data|
      modifies this`totalLen, this`chunks, last`buffer, last`off
      ensures Valid() && Contents() + rest == old(Contents()) + data && 0 < |rest| <= |data|
    {
      LastChunk();
      var remain := Remain();
      AppendInParts(Contents(), data, remain);
      if remain != 0 {
        WriteLast(data[..remain]);
      }
      rest := data[remain..];
    }

    /** The tail of evbuffer_add: `data` overflows into a new chunk (libevent/buffer.c:1584-1607). */
    method Spill(data: seq<Byte>, fill: Byte)
      requires Valid() && chains != [] && Remain() < |data|
      modifies this`first, this`last, this`lastWithDatap, this`totalLen, this`chains, this`chunks, last
      ensures Valid() && Contents() == old(Contents()) + data
      ensures last != null && last.off > 0 && fresh(last)
      ensures chains == old(chains) + [last] || chains == [last]
    {
      LastChunk();
      var toAlloc := |last.buffer|;
      if toAlloc <= CHAIN_MAX_AUTO_SIZE / 2 {
        toAlloc := toAlloc * 2;
      }
      if |data| > toAlloc {
        toAlloc := |data|;
      }
      var tmp := new Chain(toAlloc, fill);
      assert tmp !in chains;
      var rest := FillLast(data);
      tmp.Append(rest, []);
      EmptyConcat(rest);
      ChainInsert(tmp, rest);
    }

    /** evbuffer_add (libevent/buffer.c:1531-1617). */
    method Add(data: seq<Byte>, fill: Byte) returns (result: int)
      requires Valid()
      modifies this`first, this`last, this`lastWithDatap, this`totalLen, this`chains, this`chunks, last
      ensures Valid()
      ensures result == if freezeEnd then -1 else 0
      ensures Contents() == if freezeEnd then old(Contents()) else old(Contents()) + data
      ensures forall c :: c in chains ==> c in old(chains) || fresh(c)
    {
      if freezeEnd {
        return -1;
      }
      result := 0;
      FirstChunk(|data|, fill);
      LastChunk();
      if Remain() >= |data| {
        WriteLast(data);
      } else if ShouldRealign(|last.buffer|, last.off, |data|) {
        AlignLast();
        WriteLast(data);
      } else {
        Spill(data, fill);
      }
    }

    // -------------------------------------------------------------- prepending

    /** An empty first chunk is treated as empty at its beginning (libevent/buffer.c:1644-1647). */
    method SlideFirst()
      requires Valid() && first != null
      modifies first`misalign
      ensures Valid() && Contents() == old(Contents())
      ensures first.off == 0 ==> first.misalign == |first.buffer| > 0
    {
      ghost var cs, vs := chains, chunks;
      SegmentHead(cs, vs, null);
      if first.off == 0 {
        first.misalign := |first.buffer|;
      }
      SegmentRehead(cs, vs, vs[0], null);
      assert vs[0 := vs[0]] == vs;
    }

    /** The first chunk takes `data` before what it holds (libevent/buffer.c:1649-1667). */
    method WriteFirst(data: seq<Byte>)
      requires Valid() && first != null && |data| <= first.misalign
      modifies this`totalLen, this`chunks, first`buffer, first`misalign, first`off
      ensures Valid() && Contents() == data + old(Contents())
      ensures first.misalign == old(first.misalign) - |data| && first.off == old(first.off) + |data|
    {
      ghost var cs, vs := chains, chunks;
      SegmentHead(cs, vs, null);
      first.Prepend(data, vs[0]);
      FlatFirst(vs, data);
      totalLen := totalLen + |data|;
      SegmentRehead(cs, vs, data + vs[0], null);
      chunks := vs[0 := data + vs[0]];
    }

    /** The part of `data` that fits before the first chunk (libevent/buffer.c:1658-1668). */
    method FillFirst(data: seq<Byte>) returns (rest: seq<Byte>)
      requires Valid() && first != null && first.misalign < |data|
      requires first.off == 0 ==> first.misalign > 0
      modifies this`totalLen, this`chunks, first`buffer, first`misalign, first`off
      ensures Valid() && rest + Contents() == data + old(Contents()) && 0 < |rest| <= |data| && first.off > 0
    {
      var fit := |data| - first.misalign;
      PrependInParts(Contents(), data, fit);
      if first.misalign != 0 {
        WriteFirst(data[fit..]);
      }
      rest := data[..fit];
    }

    /** A new chunk with `data` at its end that leads to `chain` (libevent/buffer.c:1671-1682). */
    static method NewFirst(data: seq<Byte>, chain: Chain, fill: Byte) returns (tmp: Chain)
      ensures fresh(tmp) && tmp.next == chain && tmp.Holds(data)
    {
      tmp := new Chain(|data|, fill);
      tmp.next := chain;
      tmp.misalign := |tmp.buffer|;
      tmp.Prepend(data, []);
      EmptyConcat(data);
    }

    /** The new first chunk of evbuffer_prepend (libevent/buffer.c:1671-1683). */
    method PushFirst(data: seq<Byte>, fill: Byte)
      requires Valid() && first != null && first.off > 0 && data != []
      modifies this`first, this`lastWithDatap, this`totalLen, this`chains, this`chunks
      ensures Valid() && Contents() == data + old(Contents())
      ensures first != null && fresh(first) && chains == [first] + old(chains)
    {
      ghost var cs, vs := chains, chunks;
      SegmentHead(cs, vs, null);
      var tmp := NewFirst(data, first, fill);
      SegmentCons(tmp, data, cs, vs, null);
      assert ([data] + vs)[1..] == vs;
      first := tmp;
      if lastWithDatap == null {
        lastWithDatap := tmp;
      }
      totalLen := totalLen + |data|;
      chains, chunks := [tmp] + cs, [data] + vs;
    }

    /** evbuffer_prepend once there is a first chunk (libevent/buffer.c:1642-1683). */
    method PrependHere(data: seq<Byte>, fill: Byte)
      requires Valid() && first != null
      modifies this`first, this`lastWithDatap, this`totalLen, this`chains, this`chunks
      modifies first`buffer, first`misalign, first`off
      ensures Valid() && Contents() == data + old(Contents())
      ensures chains == old(chains) || (first != null && fresh(first) && chains == [first] + old(chains))
    {
      SlideFirst();
      if first.misalign >= |data| {
        WriteFirst(data);
      } else {
        var rest := FillFirst(data);
        PushFirst(rest, fill);
      }
    }

    /** evbuffer_prepend (libevent/buffer.c:1619-1691). */
    method Prepend(data: seq<Byte>, fill: Byte) returns (result: int)
      requires Valid()
      modifies this`first, this`last, this`lastWithDatap, this`totalLen, this`chains, this`chunks, chains
      ensures Valid()
      ensures result == if freezeStart then -1 else 0
      ensures Contents() == if freezeStart then old(Contents()) else data + old(Contents())
      ensures forall c :: c in chains ==> c in old(chains) || fresh(c)
    {
      if freezeStart {
        return -1;
      }
      result := 0;
      if chains != [] { LastChunk(); }
      FirstChunk(|data|, fill);
      PrependHere(data, fill);
    }

    // -------------------------------------------------------------- draining

    /** ZERO_CHAIN (libevent/buffer.c:737-745). */
    method ZeroChain()
      modifies this`first, this`last, this`lastWithDatap, this`totalLen, this`chains, this`chunks
      ensures Valid() && Contents() == [] && chains == []
    {
      first, last, lastWithDatap, totalLen := null, null, null, 0;
      chains, chunks := [], [];
    }

    /** The chunks that evbuffer_drain frees (libevent/buffer.c:981-998): `rest` are left, and
        the first of them, `chain`, loses `remaining` bytes. */
    method SkipChunks(len: nat)
      returns (chain: Chain, remaining: nat, ghost gone: seq<Chain>, ghost rest: seq<Chain>,
               ghost vrest: seq<seq<Byte>>)
      requires Linked() && len < |Contents()|
      modifies this`lastWithDatap
      ensures rest != [] && chain == rest[0] && chains == gone + rest && chain in chains
      ensures Segment(rest, vrest, null) && Full(vrest) && Ends(rest, chain, last, lastWithDatap)
      ensures remaining < chain.off && remaining < |Flat(vrest)| && Contents()[len..] == Flat(vrest)[remaining..]
    {
      gone, rest, vrest, remaining, chain := [], chains, chunks, len, first;
      SegmentHead(rest, vrest, null);
      while remaining >= chain.off
        invariant rest != [] && Segment(rest, vrest, null) && Full(vrest)
        invariant chain == rest[0] && chain.Holds(vrest[0]) && chains == gone + rest
        invariant lastWithDatap == Lead(rest)
        invariant remaining < |Flat(vrest)| && Contents()[len..] == Flat(vrest)[remaining..]
        decreases |rest|
      {
        SegmentStep(rest, vrest, remaining);
        MoveOver(gone, rest);
        var next := chain.next;
        remaining := remaining - chain.off;
        if chain == LastWithData() || chain == lastWithDatap {
          lastWithDatap := null;
        }
        gone, rest, vrest := gone + [rest[0]], rest[1..], vrest[1..];
        chain := next;
      }
    }

    /** The first chunk loses its first bytes, but not all. */
    method DropFirst(n: nat)
      requires Linked() && first != null && n < first.off
      modifies this`chunks, first`misalign, first`off
      ensures Linked() && n < |old(Contents())| && Contents() == old(Contents())[n..]
    {
      ghost var cs, vs := chains, chunks;
      SegmentHead(cs, vs, null);
      FlatDrop(vs, n);
      first.Drop(n, vs[0]);
      SegmentRehead(cs, vs, vs[0][n..], null);
      chunks := vs[0 := vs[0][n..]];
    }

    /** evbuffer_drain of fewer bytes than there are (libevent/buffer.c:976-1004). */
    method DrainPart(len: nat)
      requires Valid() && len < totalLen
      modifies this`first, this`lastWithDatap, this`totalLen, this`chains, this`chunks, chains
      ensures Valid() && Contents() == old(Contents())[len..]
      ensures forall c :: c in chains ==> c in old(chains)
    {
      totalLen := totalLen - len;
      var chain, remaining, gone, rest, vrest := SkipChunks(len);
      first := chain;
      chains, chunks := rest, vrest;
      DropFirst(remaining);
    }

    /** evbuffer_drain (libevent/buffer.c:950-1016): an empty buffer is left alone even when
        its start is frozen. */
    method Drain(len: nat) returns (result: int)
      requires Valid()
      modifies this`first, this`last, this`lastWithDatap, this`totalLen, this`chains, this`chunks, chains
      ensures Valid()
      ensures result == if old(Contents()) != [] && freezeStart then -1 else 0
      ensures Contents() ==
              if result < 0 || old(Contents()) == [] then old(Contents())
              else if len >= |old(Contents())| then []
              else old(Contents())[len..]
      ensures forall c :: c in chains ==> c in old(chains)
    {
      if totalLen == 0 {
        return 0;
      }
      if freezeStart {
        return -1;
      }
      if len >= totalLen {
        ZeroChain();
      } else {
        DrainPart(len);
      }
      result := 0;
    }

    /** The copying is at the chunk at `k`, with `left` bytes to go. */
    ghost predicate Copying(dst: array<Byte>, chain: Chain?, at: nat, left: nat, k: nat, was: seq<Byte>)
      reads this, chains, dst
    {
      Linked() && k <= |chains| && (k < |chains| ==> chain == chains[k] && chains[k].Holds(chunks[k])) &&
      left <= |Flat(chunks[k..])| && (k == |chains| ==> left == 0 && chain == null) &&
      Copied(dst[..], Contents(), at, was) && Contents()[at..] == Flat(chunks[k..])
    }

    /** A whole chunk is copied. */
    method CopyChunk(dst: array<Byte>, chain: Chain, at: nat, left: nat, ghost k: nat, ghost was: seq<Byte>)
      requires Copying(dst, chain, at, left, k, was) && chain.off <= left && at + left <= dst.Length
      modifies dst
      ensures Copying(dst, chain.next, at + chain.off, left - chain.off, k + 1, was)
    {
      PassAt(chains, chunks, k, [], left);
      FlatFrom(chunks, k);
      chain.CopyTo(dst, at, chain.off, chunks[k], Contents(), Flat(chunks[k + 1..]), was);
    }

    lemma {:induction false} CopyStart(dst: array<Byte>, left: nat)
      requires Valid() && 0 < left <= totalLen && left <= dst.Length
      ensures Copying(dst, first, 0, left, 0, dst[..])
    {
      SegmentAt(chains, chunks, null, 0);
      assert chunks[0..] == chunks && Contents()[0..] == Contents();
    }

    /** The part of the last chunk is copied. */
    method CopyEnd(dst: array<Byte>, chain: Chain?, at: nat, left: nat, ghost k: nat, ghost was: seq<Byte>)
      requires Copying(dst, chain, at, left, k, was) && (left != 0 ==> chain != null && left < chain.off) &&
               at + left <= dst.Length
      modifies dst
      ensures Linked() && Copied(dst[..], Contents(), at + left, was)
    {
      if left != 0 {
        FlatFrom(chunks, k);
        chain.CopyTo(dst, at, left, chunks[k], Contents(), Flat(chunks[k + 1..]), was);
      }
    }

    /** The copying loop of evbuffer_copyout (libevent/buffer.c:1057-1071). */
    method CopyChunks(dst: array<Byte>, datlen: nat)
      requires Valid() && 0 < datlen <= totalLen && datlen <= dst.Length
      modifies dst
      ensures Valid() && dst[..] == Contents()[..datlen] + old(dst[..])[datlen..]
    {
      ghost var was := dst[..];
      var chain, left: nat, at: nat := first, datlen, 0;
      ghost var k := 0;
      CopyStart(dst, datlen);
      while left != 0 && left >= chain.off
        invariant Copying(dst, chain, at, left, k, was) && at + left == datlen
        decreases |chains| - k
      {
        CopyChunk(dst, chain, at, left, k, was);
        at, left, chain := at + chain.off, left - chain.off, chain.next;
        k := k + 1;
      }
      CopyEnd(dst, chain, at, left, k, was);
    }

    /** evbuffer_copyout (libevent/buffer.c:1034-1078). */
    method CopyOut(dst: array<Byte>, datlen: nat) returns (result: int)
      requires Valid() && datlen <= dst.Length
      modifies dst
      ensures Valid() && Contents() == old(Contents())
      ensures result == if datlen == 0 || totalLen == 0 then 0 else if freezeStart then -1
                        else if datlen < totalLen then datlen else totalLen
      ensures dst[..] == if result <= 0 then old(dst[..]) else Contents()[..result] + old(dst[..])[result..]
    {
      var n := if datlen >= totalLen then totalLen else datlen;
      if n == 0 {
        return 0;
      }
      if freezeStart {
        return -1;
      }
      CopyChunks(dst, n);
      result := n;
    }

    /** evbuffer_remove (libevent/buffer.c:1019-1032). */
    method Remove(dst: array<Byte>, datlen: nat) returns (result: int)
      requires Valid() && datlen <= dst.Length
      modifies this`first, this`last, this`lastWithDatap, this`totalLen, this`chains, this`chunks, chains, dst
      ensures Valid()
      ensures result == if datlen == 0 || old(Contents()) == [] then 0 else if freezeStart then -1
                        else if datlen < |old(Contents())| then datlen else |old(Contents())|
      ensures dst[..] == if result <= 0 then old(dst[..]) else old(Contents())[..result] + old(dst[..])[result..]
      ensures Contents() == if result <= 0 then old(Contents()) else old(Contents())[result..]
      ensures forall c :: c in chains ==> c in old(chains)
    {
      result := CopyOut(dst, datlen);
      if result > 0 {
        var drained := Drain(result);
        if drained < 0 {
          result := -1;
        }
      }
    }

    // -------------------------------------------------------------- moving between buffers

    /** COPY_CHAIN (libevent/buffer.c:799-811): this buffer, without bytes, takes over the
        chunks of `src`. */
    method CopyChain(src: Buffer)
      requires src.Valid() && src != this
      modifies this`first, this`last, this`lastWithDatap, this`totalLen, this`chains, this`chunks
      ensures Valid() && Contents() == src.Contents() && chains == src.chains
    {
      first := src.first;
      lastWithDatap := src.lastWithDatap;
      last := src.last;
      totalLen := src.totalLen;
      chains, chunks := src.chains, src.chunks;
    }

    /** APPEND_CHAIN (libevent/buffer.c:813-825). */
    method AppendChain(src: Buffer)
      requires Valid() && src.Valid() && src != this && Apart(chains, src.chains)
      requires Contents() != [] && src.Contents() != []
      modifies this`last, this`lastWithDatap, this`totalLen, this`chains, this`chunks, last`next
      ensures Valid() && Contents() == old(Contents()) + src.Contents() && chains == old(chains) + src.chains
    {
      ghost var cs, vs, ds, ws := chains, chunks, src.chains, src.chunks;
      assert first != null && src.first != null;
      EndsJoin(cs, first, last, lastWithDatap, ds, src.first, src.last, src.lastWithDatap);
      FullJoin(vs, ws);
      LinkAfter(last, src.first, cs, vs, ds, ws, null, null);
      lastWithDatap := if src.lastWithDatap == null then last else src.lastWithDatap;
      last := src.last;
      totalLen := totalLen + src.totalLen;
      chains, chunks := cs + ds, vs + ws;
    }

    /** PREPEND_CHAIN (libevent/buffer.c:827-844).  Its first case, a destination without
        data, is ruled out by the caller (libevent/buffer.c:927-934). */
    method PrependChain(src: Buffer)
      requires Valid() && src.Valid() && src != this && Apart(src.chains, chains)
      requires Contents() != [] && src.Contents() != []
      modifies this`first, this`lastWithDatap, this`totalLen, this`chains, this`chunks, src.last`next
      ensures Valid() && Contents() == src.Contents() + old(Contents()) && chains == src.chains + old(chains)
    {
      ghost var cs, vs, ds, ws := chains, chunks, src.chains, src.chunks;
      assert first != null && src.first != null;
      EndsJoin(ds, src.first, src.last, src.lastWithDatap, cs, first, last, lastWithDatap);
      FullJoin(ws, vs);
      LinkAfter(src.last, first, ds, ws, cs, vs, null, null);
      first := src.first;
      totalLen := totalLen + src.totalLen;
      if lastWithDatap == null {
        lastWithDatap := src.last;
      }
      chains, chunks := ds + cs, ws + vs;
    }

    /** evbuffer_add_buffer (libevent/buffer.c:860-902). */
    method AddBuffer(inbuf: Buffer) returns (result: int)
      requires Valid() && inbuf.Valid() && (inbuf != this ==> Apart(chains, inbuf.chains))
      modifies this`first, this`last, this`lastWithDatap, this`totalLen, this`chains, this`chunks, last
      modifies inbuf`first, inbuf`last, inbuf`lastWithDatap, inbuf`totalLen, inbuf`chains, inbuf`chunks
      ensures Valid() && inbuf.Valid() && (inbuf != this ==> Apart(chains, inbuf.chains))
      ensures result == if old(inbuf.Contents()) == [] || inbuf == this then 0
                        else if freezeEnd || inbuf.freezeStart then -1 else 0
      ensures result < 0 || inbuf == this ==>
                Contents() == old(Contents()) && inbuf.Contents() == old(inbuf.Contents())
      ensures result == 0 && inbuf != this ==>
                Contents() == old(Contents()) + old(inbuf.Contents()) && inbuf.Contents() == []
      ensures forall c :: c in chains ==> c in old(chains) || c in old(inbuf.chains)
      ensures forall c :: c in inbuf.chains ==> c in old(inbuf.chains)
    {
      if inbuf.totalLen == 0 || this == inbuf {
        EmptyConcat(Contents());
        return 0;
      }
      if freezeEnd || inbuf.freezeStart {
        return -1;
      }
      if totalLen == 0 {
        EmptyConcat(inbuf.Contents());
        CopyChain(inbuf);
      } else {
        AppendChain(inbuf);
      }
      inbuf.ZeroChain();
      result := 0;
    }

    /** evbuffer_prepend_buffer (libevent/buffer.c:904-948). */
    method PrependBuffer(inbuf: Buffer) returns (result: int)
      requires Valid() && inbuf.Valid() && (inbuf != this ==> Apart(inbuf.chains, chains))
      modifies this`first, this`last, this`lastWithDatap, this`totalLen, this`chains, this`chunks, inbuf.last
      modifies inbuf`first, inbuf`last, inbuf`lastWithDatap, inbuf`totalLen, inbuf`chains, inbuf`chunks
      ensures Valid() && inbuf.Valid() && (inbuf != this ==> Apart(inbuf.chains, chains))
      ensures result == if old(inbuf.Contents()) == [] || inbuf == this then 0
                        else if freezeStart || inbuf.freezeStart then -1 else 0
      ensures result < 0 || inbuf == this ==>
                Contents() == old(Contents()) && inbuf.Contents() == old(inbuf.Contents())
      ensures result == 0 && inbuf != this ==>
                Contents() == old(inbuf.Contents()) + old(Contents()) && inbuf.Contents() == []
      ensures forall c :: c in chains ==> c in old(chains) || c in old(inbuf.chains)
      ensures forall c :: c in inbuf.chains ==> c in old(inbuf.chains)
    {
      if inbuf.totalLen == 0 || inbuf == this {
        EmptyConcat(Contents());
        return 0;
      }
      if freezeStart || inbuf.freezeStart {
        return -1;
      }
      if totalLen == 0 {
        EmptyConcat(inbuf.Contents());
        CopyChain(inbuf);
      } else {
        PrependChain(inbuf);
      }
      inbuf.ZeroChain();
      result := 0;
    }

    /** evbuffer_free_trailing_empty_chains (libevent/buffer.c:258-277): the empty chunk, if
        any, is gone; `ch` is the chunk whose link the next chunk belongs at, null for `first`.
        `last` is the caller's to fix. */
    method FreeTrailingEmptyChains() returns (ch: Chain?)
      requires Valid()
      modifies this`first, this`chains, this`chunks
      ensures Segment(chains, chunks, null) && (chains != [] ==> Full(chunks) && Contents() != [])
      ensures Ends(chains, first, ch, lastWithDatap) && Contents() == old(Contents())
      ensures chains == if old(Contents()) == [] then [] else old(chains)
      ensures chunks == if old(Contents()) == [] then [] else old(chunks)
    {
      var victim;
      EmptyContents();
      ch, victim := FindVictim();
      if victim != null {
        first := null;
        chains, chunks := [], [];
      }
    }

    /** advance_last_with_data (libevent/buffer.c:646-659): from the chunk at `at` on. */
    method AdvanceLastWithData(ghost at: nat)
      requires Segment(chains, chunks, null) && (forall i :: 0 <= i < |chunks| ==> chunks[i] != [])
      requires at < |chains| && first == chains[0] && lastWithDatap == if at == 0 then null else chains[at - 1]
      modifies this`lastWithDatap
      ensures lastWithDatap == Lead(chains)
    {
      ghost var k := at;
      if k > 0 { SegmentAt(chains, chunks, null, k - 1); }
      AdvanceTest(k);
      while LastWithData().next != null && LastWithData().next.off != 0
        invariant at <= k < |chains| && lastWithDatap == if k == 0 then null else chains[k - 1]
        invariant LastWithData() == chains[k] && chains[k].next == if k + 1 < |chains| then chains[k + 1] else null
        invariant k + 1 < |chains| ==> chains[k + 1].off != 0
        decreases |chains| - k
      {
        lastWithDatap := LastWithData();
        k := k + 1;
        AdvanceTest(k);
      }
    }

    /** The chunk behind the one at `k` has data, if there is one. */
    lemma {:induction false} AdvanceTest(k: nat)
      requires Segment(chains, chunks, null) && (forall i :: 0 <= i < |chunks| ==> chunks[i] != []) && k < |chains|
      ensures chains[k].next == if k + 1 < |chains| then chains[k + 1] else null
      ensures k + 1 < |chains| ==> chains[k + 1].off != 0
    {
      SegmentAt(chains, chunks, null, k);
      if k + 1 < |chains| { SegmentAt(chains, chunks, null, k + 1); }
    }

    /** The chunks `gone`, from `head` to `previous`, are linked in behind `chp`
        (libevent/buffer.c:1134-1140). */
    method LinkChunks(chp: Chain?, head: Chain, previous: Chain, ghost gone: seq<Chain>, ghost vgone: seq<seq<Byte>>,
                      ghost tail: Chain?)
      requires Segment(chains, chunks, null) && Ends(chains, first, chp, lastWithDatap)
      requires gone != [] && Segment(gone, vgone, tail) && Apart(chains, gone)
      requires head == gone[0] && previous == gone[|gone| - 1]
      modifies this`first, this`last, this`chains, this`chunks, chp, previous`next
      ensures Segment(chains, chunks, null) && chains == old(chains) + gone && chunks == old(chunks) + vgone
      ensures first == chains[0] && last == previous
    {
      ghost var cs, vs := chains, chunks;
      if first == null {
        first := head;
        assert cs + gone == gone && vs + vgone == vgone;
      } else {
        LinkAfter(chp, head, cs, vs, gone, vgone, null, tail);
      }
      last := previous;
      CutAfter(previous, cs + gone, vs + vgone, tail);
      chains, chunks := cs + gone, vs + vgone;
    }

    /** The chunks `gone`, from `head` to `previous`, are behind the chunks with data; the one at
        `at` is the last of these (libevent/buffer.c:1130-1140). */
    method JoinChunks(head: Chain, previous: Chain, ghost gone: seq<Chain>, ghost vgone: seq<seq<Byte>>,
                      ghost tail: Chain?)
      returns (ghost at: nat)
      requires Valid() && gone != [] && Segment(gone, vgone, tail) && Apart(chains, gone)
      requires Full(vgone) && Flat(vgone) != []
      requires head == gone[0] && previous == gone[|gone| - 1]
      modifies this`first, this`last, this`chains, this`chunks, last, previous`next
      ensures Segment(chains, chunks, null) && (forall i :: 0 <= i < |chunks| ==> chunks[i] != [])
      ensures at < |chains| && first == chains[0] && last == chains[|chains| - 1]
      ensures lastWithDatap == if at == 0 then null else chains[at - 1]
      ensures Contents() == old(Contents()) + Flat(vgone)
      ensures forall c :: c in chains ==> c in old(chains) || c in gone
    {
      var chp := FreeTrailingEmptyChains();
      at := if chains == [] then 0 else |chains| - 1;
      FullJoinAny(chunks, vgone);
      LinkChunks(chp, head, previous, gone, vgone, tail);
    }

    /** The chunks `gone`, from `head` to `previous`, go to the end of this buffer
        (libevent/buffer.c:1130-1143). */
    method TakeChunks(head: Chain, previous: Chain, nread: nat, ghost gone: seq<Chain>, ghost vgone: seq<seq<Byte>>,
                      ghost tail: Chain?)
      requires Valid() && gone != [] && Segment(gone, vgone, tail) && Apart(chains, gone)
      requires Full(vgone) && Flat(vgone) != [] && nread == |Flat(vgone)|
      requires head == gone[0] && previous == gone[|gone| - 1]
      modifies this`first, this`last, this`lastWithDatap, this`totalLen, this`chains, this`chunks, last, previous`next
      ensures Valid() && Contents() == old(Contents()) + Flat(vgone)
      ensures forall c :: c in chains ==> c in old(chains) || c in gone
    {
      ghost var at := JoinChunks(head, previous, gone, vgone, tail);
      AdvanceLastWithData(at);
      totalLen := totalLen + nread;
    }

    /** The chunks that evbuffer_remove_buffer can move as they are (libevent/buffer.c:1113-1126):
        the first `k`, with `nread` bytes.  Of the next one, `chain`, `left` bytes are wanted. */
    method SplitChunks(n: nat) returns (chain: Chain, previous: Chain, nread: nat, left: nat, ghost k: nat)
      requires Valid() && n < totalLen
      modifies this`lastWithDatap
      ensures k < |chains| && chain == chains[k] && chain.Holds(chunks[k]) && left < chain.off
      ensures previous == if k == 0 then chain else chains[k - 1]
      ensures nread == |Flat(chunks[..k])| && nread + left == n
      ensures lastWithDatap == if k + 1 < |chains| then chains[|chains| - 2] else null
    {
      chain, previous, nread, left, k := first, first, 0, n, 0;
      SegmentHead(chains, chunks, null);
      while chain.off <= left
        invariant k < |chains| && chain == chains[k] && chain.Holds(chunks[k])
        invariant previous == if k == 0 then chain else chains[k - 1]
        invariant nread == |Flat(chunks[..k])| && nread + left == n
        invariant lastWithDatap == if k + 1 < |chains| then chains[|chains| - 2] else null
        decreases |chains| - k
      {
        WalkStep(chains, chunks, k);
        nread := nread + chain.off;
        left := left - chain.off;
        previous := chain;
        if lastWithDatap == chain {
          lastWithDatap := null;
        }
        chain := chain.next;
        k := k + 1;
      }
    }

    /** The chunks before the one at `k`, and those from it on. */
    lemma {:induction false} DetachedParts(k: nat)
      requires Segment(chains, chunks, null) && Full(chunks) && Contents() != [] && k < |chains|
      requires first == chains[0] && last == chains[|chains| - 1]
      requires lastWithDatap == if k + 1 < |chains| then chains[|chains| - 2] else null
      ensures var gone, vgone, rest, vrest := chains[..k], chunks[..k], chains[k..], chunks[k..];
        chains == gone + rest && Apart(gone, rest) && Segment(gone, vgone, chains[k]) && Segment(rest, vrest, null) &&
        Full(vrest) && Ends(rest, chains[k], last, lastWithDatap) && (k > 0 ==> Full(vgone)) &&
        |Flat(vgone)| <= |Contents()| && (|Flat(vgone)| == 0 <==> k == 0) &&
        Flat(vgone) == Contents()[..|Flat(vgone)|] && Flat(vrest) == Contents()[|Flat(vgone)|..]
    {
      SegmentSplit(chains, chunks, null, k);
      FlatHalves(chunks, k);
      EndsRest(chains, first, last, lastWithDatap, k);
    }

    /** The chunks from the one at `k` on are left. */
    method KeepFrom(chain: Chain, ghost k: nat)
      returns (head: Chain, ghost gone: seq<Chain>, ghost vgone: seq<seq<Byte>>)
      requires Segment(chains, chunks, null) && Full(chunks) && Contents() != [] && k < |chains| && chain == chains[k]
      requires first == chains[0] && last == chains[|chains| - 1]
      requires lastWithDatap == if k + 1 < |chains| then chains[|chains| - 2] else null
      modifies this`first, this`chains, this`chunks
      ensures Linked() && first == chain && head == old(first) && gone == old(chains)[..k] && vgone == old(chunks)[..k]
      ensures old(chains) == gone + chains && Apart(gone, chains) && Segment(gone, vgone, first)
      ensures |Flat(vgone)| <= |old(Contents())| && Contents() == old(Contents())[|Flat(vgone)|..]
      ensures Flat(vgone) == old(Contents())[..|Flat(vgone)|] && (|Flat(vgone)| > 0 ==> k > 0 && Full(vgone))
    {
      gone, vgone := chains[..k], chunks[..k];
      DetachedParts(k);
      head := first;
      first := chain;
      chains, chunks := chains[k..], chunks[k..];
    }

    /** The chunks that are to leave, from `head` to `previous`, and the rest: of its first
        chunk, `left` more bytes are wanted (libevent/buffer.c:1113-1126 and 1139). */
    method DetachChunks(n: nat)
      returns (head: Chain, previous: Chain, nread: nat, left: nat, ghost gone: seq<Chain>, ghost vgone: seq<seq<Byte>>)
      requires Valid() && n < totalLen
      modifies this`first, this`lastWithDatap, this`chains, this`chunks
      ensures Linked() && first != null && left < first.off && nread + left == n
      ensures old(chains) == gone + chains && Apart(gone, chains)
      ensures nread <= |old(Contents())| && Contents() == old(Contents())[nread..]
      ensures Segment(gone, vgone, first) && nread == |Flat(vgone)| && Flat(vgone) == old(Contents())[..nread]
      ensures nread > 0 ==> gone != [] && Full(vgone) && head == gone[0] && previous == gone[|gone| - 1]
    {
      var chain;
      ghost var k;
      chain, previous, nread, left, k := SplitChunks(n);
      head, gone, vgone := KeepFrom(chain, k);
    }

    /** The chunks that go over to `dst` as they are (libevent/buffer.c:1113-1143): `nread`
        bytes; `left` more are wanted, of the chunk that is now the first. */
    method MoveChunks(dst: Buffer, n: nat) returns (nread: nat, left: nat)
      requires Valid() && n < totalLen && dst.Valid() && dst != this && Apart(dst.chains, chains)
      modifies this`first, this`lastWithDatap, this`chains, this`chunks, chains
      modifies dst`first, dst`last, dst`lastWithDatap, dst`totalLen, dst`chains, dst`chunks, dst.chains
      ensures Linked() && dst.Valid() && Apart(dst.chains, chains)
      ensures nread + left == n && first != null && left < first.off
      ensures Contents() == old(Contents())[nread..]
      ensures dst.Contents() == old(dst.Contents()) + old(Contents())[..nread]
      ensures forall c :: c in chains ==> c in old(chains)
      ensures forall c :: c in dst.chains ==> c in old(chains) || c in old(dst.chains)
    {
      var head, previous;
      ghost var gone, vgone;
      head, previous, nread, left, gone, vgone := DetachChunks(n);
      if nread != 0 {
        assert previous in gone && previous in gone + chains && (dst.last == null || dst.last in dst.chains);
        dst.TakeChunks(head, previous, nread, gone, vgone, first);
      } else {
        EmptyConcat(dst.Contents());
      }
    }

    /** The bytes of the first chunk that evbuffer_remove_buffer copies (libevent/buffer.c:1148-1151). */
    method MoveBytes(dst: Buffer, left: nat, fill: Byte)
      requires Linked() && dst.Valid() && dst != this && Apart(dst.chains, chains) && !dst.freezeEnd
      requires first != null && left < first.off
      modifies this`chunks, chains
      modifies dst`first, dst`last, dst`lastWithDatap, dst`totalLen, dst`chains, dst`chunks, dst.chains
      ensures Linked() && dst.Valid() && Apart(dst.chains, chains)
      ensures left <= |old(Contents())| && Contents() == old(Contents())[left..]
      ensures dst.Contents() == old(dst.Contents()) + old(Contents())[..left]
      ensures forall c :: c in dst.chains ==> c in old(dst.chains) || fresh(c)
    {
      SegmentHead(chains, chunks, null);
      assert first in chains && (dst.last == null || dst.last in dst.chains);
      var piece := first.buffer[first.misalign..first.misalign + left];
      assert piece == Contents()[..left];
      var added := dst.Add(piece, fill);
      DropFirst(left);
    }

    /** Whole chunks and the bytes of one more go over to `dst` (libevent/buffer.c:1113-1151). */
    method MoveAcross(dst: Buffer, datlen: nat, fill: Byte) returns (nread: nat)
      requires Valid() && dst.Valid() && dst != this && Apart(dst.chains, chains)
      requires 0 < datlen < totalLen && !dst.freezeEnd
      modifies this`first, this`lastWithDatap, this`chains, this`chunks, chains
      modifies dst`first, dst`last, dst`lastWithDatap, dst`totalLen, dst`chains, dst`chunks, dst.chains
      ensures Linked() && dst.Valid() && Apart(dst.chains, chains) && nread == datlen
      ensures Contents() == old(Contents())[datlen..]
      ensures dst.Contents() == old(dst.Contents()) + old(Contents())[..datlen]
      ensures forall c :: c in chains ==> c in old(chains)
      ensures forall c :: c in dst.chains ==> c in old(chains) || c in old(dst.chains) || fresh(c)
    {
      ghost var s, d := Contents(), dst.Contents();
      var left;
      nread, left := MoveChunks(dst, datlen);
      TakeInParts(d, s, nread, left);
      assert forall i :: 0 <= i < |chains| ==> chains[i] in old(chains);
      assert forall i :: 0 <= i < |dst.chains| ==> dst.chains[i] in old(chains) || dst.chains[i] in old(dst.chains);
      MoveBytes(dst, left, fill);
      nread := nread + left;
    }

    /** The end of evbuffer_remove_buffer (libevent/buffer.c:1113-1160). */
    method RemovePart(dst: Buffer, datlen: nat, fill: Byte) returns (result: int)
      requires Valid() && dst.Valid() && dst != this && Apart(dst.chains, chains)
      requires 0 < datlen < totalLen && !dst.freezeEnd
      modifies this`first, this`lastWithDatap, this`totalLen, this`chains, this`chunks, chains
      modifies dst`first, dst`last, dst`lastWithDatap, dst`totalLen, dst`chains, dst`chunks, dst.chains
      ensures Valid() && dst.Valid() && Apart(dst.chains, chains) && result == datlen
      ensures Contents() == old(Contents())[datlen..]
      ensures dst.Contents() == old(dst.Contents()) + old(Contents())[..datlen]
      ensures forall c :: c in chains ==> c in old(chains)
      ensures forall c :: c in dst.chains ==> c in old(chains) || c in old(dst.chains) || fresh(c)
    {
      var nread := MoveAcross(dst, datlen, fill);
      totalLen := totalLen - nread;
      result := nread;
    }

    /** evbuffer_remove_buffer (libevent/buffer.c:1080-1171): this is `src`. */
    method RemoveBuffer(dst: Buffer, datlen: nat, fill: Byte) returns (result: int)
      requires Valid() && dst.Valid() && (dst != this ==> Apart(dst.chains, chains))
      modifies this`first, this`last, this`lastWithDatap, this`totalLen, this`chains, this`chunks, chains
      modifies dst`first, dst`last, dst`lastWithDatap, dst`totalLen, dst`chains, dst`chunks, dst.chains
      ensures Valid() && dst.Valid() && (dst != this ==> Apart(dst.chains, chains))
      ensures result == if datlen == 0 || dst == this then 0
                        else if dst.freezeEnd || freezeStart then -1
                        else if datlen < |old(Contents())| then datlen else |old(Contents())|
      ensures result < 0 || dst == this ==> Contents() == old(Contents()) && dst.Contents() == old(dst.Contents())
      ensures result >= 0 && dst != this ==>
                Contents() == old(Contents())[result..] &&
                dst.Contents() == old(dst.Contents()) + old(Contents())[..result]
      ensures forall c :: c in chains ==> c in old(chains)
      ensures forall c :: c in dst.chains ==> c in old(chains) || c in old(dst.chains) || fresh(c)
    {
      if datlen == 0 || dst == this {
        EmptyConcat(dst.Contents());
        return 0;
      }
      if dst.freezeEnd || freezeStart {
        return -1;
      }
      if datlen >= totalLen {
        result := totalLen;
        assert dst.last == null || dst.last in dst.chains;
        EmptyConcat(dst.Contents());
        var added := dst.AddBuffer(this);
      } else {
        result := RemovePart(dst, datlen, fill);
      }
    }

    // -------------------------------------------------------------- pulling up

    /** The copying loop of evbuffer_pullup (libevent/buffer.c:1243-1257): whole chunks go into
        `tmp`, whose `off` here grows as it is filled.  `lostLast` and `lostLead` say whether
        the last chunk and the one that leads to it are among them. */
    static method PullChunks(tmp: Chain, from: Chain, size: nat, last: Chain, lead: Chain, ghost was: seq<Byte>,
                             ghost cs: seq<Chain>, ghost vs: seq<seq<Byte>>)
      returns (chain: Chain?, left: nat, lostLast: bool, lostLead: bool, ghost held: seq<Byte>, ghost k: nat)
      requires Segment(cs, vs, null) && (forall i :: 0 <= i < |vs| ==> vs[i] != []) && cs != [] && from == cs[0]
      requires tmp !in cs && tmp.Holds(was) && tmp.misalign + tmp.off + size <= |tmp.buffer|
      requires size <= |Flat(vs)| && last == cs[|cs| - 1] && lead == if |cs| >= 2 then cs[|cs| - 2] else tmp
      modifies tmp`buffer, tmp`off
      ensures k <= |cs| && chain == if k < |cs| then cs[k] else null
      ensures tmp.Holds(held) && tmp.misalign + tmp.off + left <= |tmp.buffer| && |held| + left == |was| + size
      ensures held + Flat(vs[k..]) == was + Flat(vs) && if k < |cs| then left < |vs[k]| else left == 0
      ensures lostLast == (k == |cs|) && lostLead == (|cs| >= 2 && |cs| - 2 < k)
    {
      chain, left, lostLast, lostLead := from, size, false, false;
      held, k := was, 0;
      SegmentAt(cs, vs, null, 0);
      assert vs[0..] == vs;
      while chain != null && left >= chain.off
        invariant k <= |cs| && chain == if k < |cs| then cs[k] else null
        invariant k < |cs| ==> chain.Holds(vs[k])
        invariant k == |cs| ==> left == 0
        invariant tmp.Holds(held) && tmp.misalign + tmp.off + left <= |tmp.buffer|
        invariant left <= |Flat(vs[k..])| && |held| + left == |was| + size
        invariant held + Flat(vs[k..]) == was + Flat(vs)
        invariant lostLast == (k == |cs|) && lostLead == (|cs| >= 2 && |cs| - 2 < k)
        decreases |cs| - k
      {
        PassAt(cs, vs, k, held, left);
        SegmentPlace(cs, vs, null, k);
        var piece := chain.buffer[chain.misalign..chain.misalign + chain.off];
        assert piece == vs[k];
        tmp.Append(piece, held);
        left := left - |piece|;
        if chain == last {
          lostLast := true;
        }
        if chain == lead {
          lostLead := true;
        }
        chain := chain.next;
        held, k := held + vs[k], k + 1;
      }
    }

    /** The part of a chunk that evbuffer_pullup takes, and the link to the rest
        (libevent/buffer.c:1258-1266). */
    static method PullTail(tmp: Chain, chain: Chain?, left: nat, ghost held: seq<Byte>,
                           ghost rest: seq<Chain>, ghost vrest: seq<seq<Byte>>)
      returns (ghost held': seq<Byte>, ghost vrest': seq<seq<Byte>>)
      requires Segment(rest, vrest, null) && (forall i :: 0 <= i < |vrest| ==> vrest[i] != [])
      requires chain == HeadOr(rest, null) && tmp !in rest && tmp.Holds(held)
      requires if rest == [] then left == 0 else left < |vrest[0]| && tmp.misalign + tmp.off + left <= |tmp.buffer|
      modifies tmp`buffer, tmp`off, tmp`next, rest
      ensures Segment([tmp] + rest, [held'] + vrest', null) && |held'| == |held| + left
      ensures held' + Flat(vrest') == held + Flat(vrest) && (forall i :: 0 <= i < |vrest'| ==> vrest'[i] != [])
      ensures chain != null ==> chain.off > 0
      ensures tmp.Holds(held') && tmp.next == chain
    {
      held', vrest' := held, vrest;
      if chain != null {
        SegmentHead(rest, vrest, null);
        FlatDrop(vrest, left);
        AppendInParts(held, Flat(vrest), left);
        var piece := chain.buffer[chain.misalign..chain.misalign + left];
        assert piece == Flat(vrest)[..left];
        tmp.Append(piece, held);
        chain.Drop(left, vrest[0]);
        SegmentRehead(rest, vrest, vrest[0][left..], null);
        held', vrest' := held + piece, vrest[0 := vrest[0][left..]];
      }
      tmp.next := chain;
      SegmentCons(tmp, held', rest, vrest', null);
    }

    /** The chunks that are left when those before `k` are used up. */
    static lemma {:induction false} LeftChunks(cs: seq<Chain>, vs: seq<seq<Byte>>, k: nat)
      requires Segment(cs, vs, null) && (forall i :: 0 <= i < |vs| ==> vs[i] != []) && k <= |cs|
      ensures Segment(cs[k..], vs[k..], null) && (forall i :: 0 <= i < |vs[k..]| ==> vs[k..][i] != [])
      ensures HeadOr(cs[k..], null) == (if k < |cs| then cs[k] else null) && (k < |cs| ==> vs[k..][0] == vs[k])
      ensures forall c :: c in cs[k..] ==> c in cs
    {
      SegmentSplit(cs, vs, null, k);
    }

    /** Where the last links of the list lead when `tmp` comes before what is left. */
    static lemma {:induction false} PulledEnds(cs: seq<Chain>, k: nat, tmp: Chain)
      requires cs != [] && k <= |cs|
      ensures var all := [tmp] + cs[k..];
        all[|all| - 1] == (if k == |cs| then tmp else cs[|cs| - 1]) &&
        Lead(all) == if k == |cs| then null else if k == |cs| - 1 then tmp else cs[|cs| - 2]
    {
    }

    /** The bytes that evbuffer_pullup copies into `tmp`, and the list with what is left behind it
        (libevent/buffer.c:1243-1266). */
    static method PullBytes(tmp: Chain, from: Chain, size: nat, last: Chain, lead: Chain, ghost was: seq<Byte>,
                            ghost cs: seq<Chain>, ghost vs: seq<seq<Byte>>)
      returns (chain: Chain?, lostLast: bool, lostLead: bool, ghost all: seq<Chain>, ghost vall: seq<seq<Byte>>)
      requires Segment(cs, vs, null) && (forall i :: 0 <= i < |vs| ==> vs[i] != []) && cs != [] && from == cs[0]
      requires tmp !in cs && tmp.Holds(was) && tmp.misalign + tmp.off + size <= |tmp.buffer|
      requires 0 < size <= |Flat(vs)| && last == cs[|cs| - 1] && lead == if |cs| >= 2 then cs[|cs| - 2] else tmp
      modifies tmp`buffer, tmp`off, tmp`next, cs
      ensures Segment(all, vall, null) && Full(vall) && Flat(vall) == was + Flat(vs)
      ensures all != [] && all[0] == tmp && |vall[0]| == |was| + size && forall c :: c in all ==> c == tmp || c in cs
      ensures all[|all| - 1] == (if lostLast then tmp else last) && lostLast == (chain == null)
      ensures Lead(all) == if lostLast then null else if lostLead then tmp else lead
      ensures tmp.next == chain && (chain != null ==> chain.off > 0)
    {
      var left;
      ghost var held, k;
      chain, left, lostLast, lostLead, held, k := PullChunks(tmp, from, size, last, lead, was, cs, vs);
      LeftChunks(cs, vs, k);
      PulledEnds(cs, k, tmp);
      ghost var vrest;
      held, vrest := PullTail(tmp, chain, left, held, cs[k..], vs[k..]);
      all, vall := [tmp] + cs[k..], [held] + vrest;
      FullPulled(held, vrest);
    }

    /** evbuffer_pullup once `tmp`, the first chunk, has room for the next `size` bytes, which
        are in the chunks from `from` on (libevent/buffer.c:1240-1277). */
    method PullInto(tmp: Chain, from: Chain, size: nat, ghost was: seq<Byte>,
                    ghost cs: seq<Chain>, ghost vs: seq<seq<Byte>>)
      requires Segment(cs, vs, null) && (forall i :: 0 <= i < |vs| ==> vs[i] != []) && cs != [] && from == cs[0]
      requires tmp !in cs && tmp.Holds(was) && tmp.misalign + tmp.off + size <= |tmp.buffer|
      requires 0 < size <= |Flat(vs)| && totalLen == |was + Flat(vs)|
      requires first == tmp && last == cs[|cs| - 1]
      requires lastWithDatap == if |cs| >= 2 then cs[|cs| - 2] else tmp
      requires |cs| == 1 ==> tmp.next == from
      modifies this`last, this`lastWithDatap, this`chains, this`chunks, tmp`buffer, tmp`off, tmp`next, cs
      ensures Valid() && Contents() == was + Flat(vs)
      ensures first == tmp && chunks != [] && |chunks[0]| == |was| + size
      ensures forall c :: c in chains ==> c == tmp || c in cs
    {
      if |cs| >= 2 { SegmentLead(cs, vs, null); }
      var chain, lostLast, lostLead;
      ghost var all, vall;
      chain, lostLast, lostLead, all, vall := PullBytes(tmp, from, size, LastWithData(), lastWithDatap, was, cs, vs);
      if chain == null {
        last := tmp;
      }
      if lostLast {
        lastWithDatap := null;
      } else if lostLead {
        lastWithDatap := if first.next != null && first.next.off != 0 then first else null;
      }
      chains, chunks := all, vall;
    }

    /** The first `size` bytes of the buffer are in its first chunk. */
    ghost predicate Together(size: nat)
      reads this, chains
    {
      Valid() && chains != [] && size <= |chunks[0]| && size <= |Contents()| && first.Holds(chunks[0]) &&
      first.buffer[first.misalign..first.misalign + size] == Contents()[..size]
    }

    lemma {:induction false} FirstTogether(size: nat)
      requires Valid() && chains != [] && size <= |chunks[0]|
      ensures Together(size)
    {
      SegmentHead(chains, chunks, null);
    }

    /** evbuffer_pullup when the first chunk does not have the bytes: it takes them if it has
        room, else a new chunk does (libevent/buffer.c:1212-1277). */
    method PullMore(size: nat, fill: Byte)
      requires Valid() && first != null && first.off < size <= totalLen
      modifies this`first, this`last, this`lastWithDatap, this`chains, this`chunks, chains
      ensures Valid() && Contents() == old(Contents())
      ensures chunks != [] && |chunks[0]| == size
      ensures forall c :: c in chains ==> c in old(chains) || fresh(c)
    {
      ghost var cs, vs := chains, chunks;
      FullData(vs);
      SegmentHead(cs, vs, null);
      EmptyConcat(Flat(vs));
      if |first.buffer| - first.misalign >= size {
        PullInto(first, first.next, size - first.off, vs[0], cs[1..], vs[1..]);
      } else {
        var tmp := new Chain(size, fill);
        var chain := first;
        first := tmp;
        PullInto(tmp, chain, size, [], cs, vs);
      }
    }

    /** evbuffer_pullup (libevent/buffer.c:1173-1283): the chunk whose data starts with the
        wanted bytes, or null. */
    method PullUp(size: int, fill: Byte) returns (result: Chain?)
      requires Valid()
      modifies this`first, this`last, this`lastWithDatap, this`chains, this`chunks, chains
      ensures Valid() && Contents() == old(Contents())
      ensures result == null <==> size == 0 || totalLen == 0 || size > totalLen
      ensures result != null ==> result == first && Together(if size < 0 then totalLen else size)
      ensures forall c :: c in chains ==> c in old(chains) || fresh(c)
    {
      var want := if size < 0 then totalLen else size;
      if want == 0 || want > totalLen {
        return null;
      }
      SegmentHead(chains, chunks, null);
      if first.off < want {
        PullMore(want, fill);
      }
      FirstTogether(want);
      result := first;
    }
  }
}
