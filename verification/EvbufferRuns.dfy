/** Runs of operations on two evbuffers, against two byte strings. */
module EvbufferRuns {
  import opened EvbufferShape
  import opened Evbuffer

  datatype Op =
    | Add(data: seq<Byte>)
    | Prepend(data: seq<Byte>)
    | Drain(n: nat)
    | CopyOut(n: nat)
    | Remove(n: nat)
    | PullUp(size: int)
    | AddBuffer
    | PrependBuffer
    | RemoveBuffer(n: nat)
    | FreezeStart(on: bool)
    | FreezeEnd(on: bool)

  /** What can be seen of an evbuffer. */
  datatype View = View(bytes: seq<Byte>, freezeStart: bool, freezeEnd: bool)

  datatype Pair = Pair(a: View, b: View)

  /** The views of the two buffers, the bytes that evbuffer_remove has handed out, those that
      evbuffer_copyout has shown, and what the calls have returned. */
  datatype State = State(a: View, b: View, out: seq<Byte>, seen: seq<Byte>, results: seq<int>)

  function Min(m: nat, n: nat): nat {
    if m < n then m else n
  }

  /** An operation on the first buffer; the splicing ones move bytes out of the second one, and
      evbuffer_remove_buffer into it. */
  ghost function OnFirst(s: Pair, op: Op): (r: Pair) {
    var bytes := s.a.bytes;
    match op
    case Add(data) => if s.a.freezeEnd then s else s.(a := s.a.(bytes := bytes + data))
    case Prepend(data) => if s.a.freezeStart then s else s.(a := s.a.(bytes := data + bytes))
    case Drain(n) => if s.a.freezeStart then s else s.(a := s.a.(bytes := bytes[Min(n, |bytes|)..]))
    case CopyOut(_) => s
    case Remove(n) => if s.a.freezeStart then s else s.(a := s.a.(bytes := bytes[Min(n, |bytes|)..]))
    case PullUp(_) => s
    case AddBuffer =>
      if s.a.freezeEnd || s.b.freezeStart then s
      else s.(a := s.a.(bytes := bytes + s.b.bytes), b := s.b.(bytes := []))
    case PrependBuffer =>
      if s.a.freezeStart || s.b.freezeStart then s
      else s.(a := s.a.(bytes := s.b.bytes + bytes), b := s.b.(bytes := []))
    case RemoveBuffer(n) =>
      if s.a.freezeStart || s.b.freezeEnd then s
      else s.(a := s.a.(bytes := bytes[Min(n, |bytes|)..]), b := s.b.(bytes := s.b.bytes + bytes[..Min(n, |bytes|)]))
    case FreezeStart(on) => s.(a := s.a.(freezeStart := on))
    case FreezeEnd(on) => s.(a := s.a.(freezeEnd := on))
  }

  /** What the call returns; for evbuffer_pullup, whether it returns a pointer. */
  ghost function ResultOf(s: Pair, op: Op): int {
    var bytes := s.a.bytes;
    match op
    case Add(_) => if s.a.freezeEnd then -1 else 0
    case Prepend(_) => if s.a.freezeStart then -1 else 0
    case Drain(_) => if bytes != [] && s.a.freezeStart then -1 else 0
    case CopyOut(n) => if n == 0 || bytes == [] then 0 else if s.a.freezeStart then -1 else Min(n, |bytes|)
    case Remove(n) => if n == 0 || bytes == [] then 0 else if s.a.freezeStart then -1 else Min(n, |bytes|)
    case PullUp(size) => if size == 0 || bytes == [] || size > |bytes| then 0 else 1
    case AddBuffer => if s.b.bytes != [] && (s.a.freezeEnd || s.b.freezeStart) then -1 else 0
    case PrependBuffer => if s.b.bytes != [] && (s.a.freezeStart || s.b.freezeStart) then -1 else 0
    case RemoveBuffer(n) =>
      if n == 0 then 0 else if s.a.freezeStart || s.b.freezeEnd then -1 else Min(n, |bytes|)
    case FreezeStart(_) => 0
    case FreezeEnd(_) => 0
  }

  /** The bytes that the call gives to its caller. */
  ghost function Handed(s: Pair, op: Op): seq<Byte> {
    if (op.Remove? || op.CopyOut?) && !s.a.freezeStart then s.a.bytes[..Min(op.n, |s.a.bytes|)] else []
  }

  ghost function Swapped(s: Pair): Pair {
    Pair(s.b, s.a)
  }

  /** One call: on the first buffer, or the second. */
  datatype Call = Call(onSecond: bool, op: Op)

  /** The two buffers, the one that is called first. */
  ghost function Subject(s: State, call: Call): Pair {
    if call.onSecond then Pair(s.b, s.a) else Pair(s.a, s.b)
  }

  ghost function Step(s: State, call: Call): State {
    var before := Subject(s, call);
    var after := OnFirst(before, call.op);
    var p := if call.onSecond then Swapped(after) else after;
    var handed := Handed(before, call.op);
    State(p.a, p.b, if call.op.Remove? then s.out + handed else s.out,
          if call.op.CopyOut? then s.seen + handed else s.seen, s.results + [ResultOf(before, call.op)])
  }

  ghost function Run(s: State, calls: seq<Call>): State
    decreases |calls|
  {
    if calls == [] then s else Run(Step(s, calls[0]), calls[1..])
  }

  ghost function ViewOf(a: Buffer): View
    reads a
  {
    View(a.Contents(), a.freezeStart, a.freezeEnd)
  }

  ghost function PairOf(a: Buffer, b: Buffer): Pair
    reads a, b
  {
    Pair(ViewOf(a), ViewOf(b))
  }

  /** The two buffers share no chunk. */
  ghost predicate Separate(a: Buffer, b: Buffer)
    reads a, b, a.chains, b.chains
  {
    a != b && a.Valid() && b.Valid() && Apart(a.chains, b.chains) && Apart(b.chains, a.chains)
  }

  ghost predicate Splices(op: Op) {
    op.AddBuffer? || op.PrependBuffer? || op.RemoveBuffer?
  }

  lemma {:induction false} DropAll(s: seq<Byte>, n: nat)
    ensures n >= |s| ==> s[Min(n, |s|)..] == [] && s[..Min(n, |s|)] == s
    ensures n == 0 || s == [] ==> s[Min(n, |s|)..] == s && s[..Min(n, |s|)] == []
  {
  }

  /** evbuffer_remove on `a` alone. */
  method PerformRemove(a: Buffer, n: nat) returns (r: int, handed: seq<Byte>)
    requires a.Valid()
    modifies a`first, a`last, a`lastWithDatap, a`totalLen, a`chains, a`chunks, a.chains
    ensures a.Valid() && (forall c :: c in a.chains ==> c in old(a.chains))
    ensures var bytes := old(a.Contents());
      var k := if a.freezeStart then 0 else Min(n, |bytes|);
      a.Contents() == bytes[k..] && handed == bytes[..k] &&
      r == if n == 0 || bytes == [] then 0 else if a.freezeStart then -1 else k
  {
    DropAll(a.Contents(), n);
    var data := new Byte[n](i => 0);
    r := a.Remove(data, n);
    handed := [];
    if r > 0 {
      assert data[..r] == old(a.Contents())[..r];
      handed := data[..r];
    }
  }

  /** evbuffer_drain on `a` alone. */
  method PerformDrain(a: Buffer, n: nat) returns (r: int)
    requires a.Valid()
    modifies a`first, a`last, a`lastWithDatap, a`totalLen, a`chains, a`chunks, a.chains
    ensures a.Valid() && (forall c :: c in a.chains ==> c in old(a.chains))
    ensures var bytes := old(a.Contents());
      a.Contents() == bytes[if a.freezeStart then 0 else Min(n, |bytes|)..] &&
      r == if bytes != [] && a.freezeStart then -1 else 0
  {
    DropAll(a.Contents(), n);
    r := a.Drain(n);
  }

  /** evbuffer_copyout on `a` alone. */
  method PerformCopyOut(a: Buffer, n: nat) returns (r: int, handed: seq<Byte>)
    requires a.Valid()
    ensures a.Valid()
    ensures var bytes := a.Contents();
      var k := if a.freezeStart then 0 else Min(n, |bytes|);
      handed == bytes[..k] && r == if n == 0 || bytes == [] then 0 else if a.freezeStart then -1 else k
  {
    DropAll(a.Contents(), n);
    var data := new Byte[n](i => 0);
    r := a.CopyOut(data, n);
    handed := [];
    if r > 0 {
      assert data[..r] == old(a.Contents())[..r];
      handed := data[..r];
    }
  }

  /** Bytes are added to `a`. */
  method PerformGrow(a: Buffer, ghost b: Buffer, op: Op, fill: Byte) returns (r: int)
    requires Separate(a, b) && (op.Add? || op.Prepend?)
    modifies a, a.chains
    ensures Separate(a, b)
    ensures PairOf(a, b) == OnFirst(old(PairOf(a, b)), op) && r == ResultOf(old(PairOf(a, b)), op)
    ensures forall c :: c in a.chains ==> c in old(a.chains) || fresh(c)
  {
    assert forall i :: 0 <= i < |a.chains| ==> a.chains[i] !in b.chains;
    assert a.last == null || a.last in a.chains;
    if op.Add? {
      r := a.Add(op.data, fill);
    } else {
      r := a.Prepend(op.data, fill);
    }
  }

  /** Bytes leave `a`. */
  method PerformShrink(a: Buffer, ghost b: Buffer, op: Op) returns (r: int, handed: seq<Byte>)
    requires Separate(a, b) && (op.Drain? || op.Remove?)
    modifies a, a.chains
    ensures Separate(a, b)
    ensures PairOf(a, b) == OnFirst(old(PairOf(a, b)), op)
    ensures r == ResultOf(old(PairOf(a, b)), op) && handed == Handed(old(PairOf(a, b)), op)
    ensures forall c :: c in a.chains ==> c in old(a.chains) || fresh(c)
  {
    handed := [];
    assert forall i :: 0 <= i < |a.chains| ==> a.chains[i] !in b.chains;
    assert a.last == null || a.last in a.chains;
    if op.Drain? {
      r := PerformDrain(a, op.n);
    } else {
      r, handed := PerformRemove(a, op.n);
    }
  }

  /** One operation on `a` alone. */
  method PerformAlone(a: Buffer, ghost b: Buffer, op: Op, fill: Byte) returns (r: int, handed: seq<Byte>)
    requires Separate(a, b) && !Splices(op)
    modifies a, a.chains
    ensures Separate(a, b)
    ensures PairOf(a, b) == OnFirst(old(PairOf(a, b)), op)
    ensures r == ResultOf(old(PairOf(a, b)), op) && handed == Handed(old(PairOf(a, b)), op)
    ensures forall c :: c in a.chains ==> c in old(a.chains) || fresh(c)
  {
    r, handed := 0, [];
    match op {
      case PullUp(size) =>
        assert forall i :: 0 <= i < |a.chains| ==> a.chains[i] !in b.chains;
        assert a.last == null || a.last in a.chains;
        var chain := a.PullUp(size, fill);
        r := if chain == null then 0 else 1;
      case FreezeStart(on) =>
        a.freezeStart := on;
      case FreezeEnd(on) =>
        a.freezeEnd := on;
      case Add(_) =>
        r := PerformGrow(a, b, op, fill);
      case Prepend(_) =>
        r := PerformGrow(a, b, op, fill);
      case Drain(_) =>
        r, handed := PerformShrink(a, b, op);
      case CopyOut(n) =>
        r, handed := PerformCopyOut(a, n);
      case Remove(_) =>
        r, handed := PerformShrink(a, b, op);
    }
  }

  /** One operation on `a`, with `b` as the other buffer. */
  method Perform(a: Buffer, b: Buffer, op: Op, fill: Byte) returns (r: int, handed: seq<Byte>)
    requires Separate(a, b)
    modifies a, b, a.chains, b.chains
    ensures Separate(a, b)
    ensures PairOf(a, b) == OnFirst(old(PairOf(a, b)), op)
    ensures r == ResultOf(old(PairOf(a, b)), op) && handed == Handed(old(PairOf(a, b)), op)
    ensures forall c :: c in a.chains || c in b.chains ==> c in old(a.chains) || c in old(b.chains) || fresh(c)
  {
    handed := [];
    assert a.last == null || a.last in a.chains;
    assert b.last == null || b.last in b.chains;
    if op.AddBuffer? {
      r := a.AddBuffer(b);
    } else if op.PrependBuffer? {
      r := a.PrependBuffer(b);
    } else if op.RemoveBuffer? {
      r := a.RemoveBuffer(b, op.n, fill);
    } else {
      r, handed := PerformAlone(a, b, op, fill);
    }
  }

  ghost function StateOf(a: Buffer, b: Buffer, out: seq<Byte>, seen: seq<Byte>, results: seq<int>): State
    reads a, b
  {
    State(ViewOf(a), ViewOf(b), out, seen, results)
  }

  /** One call. */
  method PerformCall(a: Buffer, b: Buffer, call: Call, out: seq<Byte>, seen: seq<Byte>, results: seq<int>, fill: Byte)
    returns (out': seq<Byte>, seen': seq<Byte>, results': seq<int>)
    requires Separate(a, b)
    modifies a, b, a.chains, b.chains
    ensures Separate(a, b)
    ensures StateOf(a, b, out', seen', results') == Step(old(StateOf(a, b, out, seen, results)), call)
    ensures forall c :: c in a.chains || c in b.chains ==> c in old(a.chains) || c in old(b.chains) || fresh(c)
  {
    var r, handed;
    if call.onSecond {
      r, handed := Perform(b, a, call.op, fill);
    } else {
      r, handed := Perform(a, b, call.op, fill);
    }
    out' := if call.op.Remove? then out + handed else out;
    seen' := if call.op.CopyOut? then seen + handed else seen;
    results' := results + [r];
  }

  /** Every run of calls on two evbuffers is a run on two byte strings: the contents, what the
      calls return and the bytes that they give to their callers are the same. */
  method RunCalls(a: Buffer, b: Buffer, calls: seq<Call>, fill: Byte)
    returns (out: seq<Byte>, seen: seq<Byte>, results: seq<int>)
    requires Separate(a, b)
    modifies a, b, a.chains, b.chains
    ensures Separate(a, b)
    ensures StateOf(a, b, out, seen, results) == Run(old(StateOf(a, b, [], [], [])), calls)
  {
    out, seen, results := [], [], [];
    ghost var s0 := StateOf(a, b, [], [], []);
    var i := 0;
    assert calls[..0] == [];
    while i < |calls|
      invariant 0 <= i <= |calls| && Separate(a, b)
      invariant StateOf(a, b, out, seen, results) == Run(s0, calls[..i])
      invariant forall c :: c in a.chains || c in b.chains ==> c in old(a.chains) || c in old(b.chains) || fresh(c)
    {
      assert forall j :: 0 <= j < |a.chains| ==>
        a.chains[j] in old(a.chains) || a.chains[j] in old(b.chains) || fresh(a.chains[j]);
      assert forall j :: 0 <= j < |b.chains| ==>
        b.chains[j] in old(a.chains) || b.chains[j] in old(b.chains) || fresh(b.chains[j]);
      out, seen, results := PerformCall(a, b, calls[i], out, seen, results, fill);
      RunLast(s0, calls, i);
      i := i + 1;
    }
    assert calls[..i] == calls;
  }

  lemma {:induction false} RunLast(s: State, calls: seq<Call>, i: nat)
    requires i < |calls|
    ensures Run(s, calls[..i + 1]) == Step(Run(s, calls[..i]), calls[i])
    decreases i
  {
    if i == 0 {
      assert calls[..1] == [calls[0]] && calls[..1][1..] == [] && calls[..0] == [];
    } else {
      RunLast(Step(s, calls[0]), calls[1..], i - 1);
      assert calls[..i + 1][1..] == calls[1..][..i] && calls[..i][1..] == calls[1..][..i - 1];
    }
  }

  // ---------------------------------------------------------------- laws of runs

  /** The bytes that a call brings in. */
  ghost function BytesIn(v: View, op: Op): multiset<Byte> {
    match op
    case Add(data) => if v.freezeEnd then multiset{} else multiset(data)
    case Prepend(data) => if v.freezeStart then multiset{} else multiset(data)
    case _ => multiset{}
  }

  ghost function AllBytes(s: State): multiset<Byte> {
    multiset(s.a.bytes) + multiset(s.b.bytes) + multiset(s.out)
  }

  lemma {:induction false} PairConserves(p: Pair, op: Op)
    requires !op.Drain?
    ensures var r := OnFirst(p, op);
      multiset(r.a.bytes) + multiset(r.b.bytes) + (if op.Remove? then multiset(Handed(p, op)) else multiset{}) ==
      multiset(p.a.bytes) + multiset(p.b.bytes) + BytesIn(p.a, op)
  {
    match op {
      case Remove(n) => SplitAt(p.a.bytes, Min(n, |p.a.bytes|));
      case RemoveBuffer(n) => SplitAt(p.a.bytes, Min(n, |p.a.bytes|));
      case _ =>
    }
  }

  /** No call but evbuffer_drain loses a byte, and none makes one up. */
  lemma {:induction false} StepConserves(s: State, call: Call)
    requires !call.op.Drain?
    ensures AllBytes(Step(s, call)) == AllBytes(s) + BytesIn(Subject(s, call).a, call.op)
  {
    var p := Subject(s, call);
    var q, r := OnFirst(p, call.op), Step(s, call);
    var handed := if call.op.Remove? then multiset(Handed(p, call.op)) else multiset{};
    PairConserves(p, call.op);
    assert multiset(r.out) == multiset(s.out) + handed;
    assert AllBytes(r) == multiset(q.a.bytes) + multiset(q.b.bytes) + handed + multiset(s.out);
    assert AllBytes(s) + BytesIn(p.a, call.op) ==
           multiset(p.a.bytes) + multiset(p.b.bytes) + BytesIn(p.a, call.op) + multiset(s.out);
  }

  lemma {:induction false} SplitAt(s: seq<Byte>, n: nat)
    requires n <= |s|
    ensures multiset(s) == multiset(s[..n]) + multiset(s[n..])
  {
    assert s == s[..n] + s[n..];
  }

  /** A pipeline: bytes are added to the first buffer, moved to the end of the second, and
      removed from there. */
  ghost predicate PipelineCall(call: Call) {
    call.op.CopyOut? || call.op.PullUp? || call.op.FreezeStart? || call.op.FreezeEnd? ||
    if call.onSecond then call.op.Remove? || call.op.AddBuffer? else call.op.Add? || call.op.RemoveBuffer?
  }

  /** What the call adds to the pipeline. */
  ghost function Fed(s: State, call: Call): seq<Byte> {
    if call.op.Add? && !call.onSecond && !s.a.freezeEnd then call.op.data else []
  }

  /** The bytes accepted in a run. */
  ghost function Accepted(s: State, calls: seq<Call>): seq<Byte>
    decreases |calls|
  {
    if calls == [] then []
    else
      Fed(s, calls[0]) + Accepted(Step(s, calls[0]), calls[1..])
  }

  /** What is removed at the far end, followed by what is still on the way, is what was
      accepted, in order. */
  lemma {:induction false} PipelineKeepsOrder(s: State, calls: seq<Call>)
    requires forall i :: 0 <= i < |calls| ==> PipelineCall(calls[i])
    ensures var r := Run(s, calls);
      r.out + r.b.bytes + r.a.bytes == s.out + s.b.bytes + s.a.bytes + Accepted(s, calls)
    decreases |calls|
  {
    if calls != [] {
      PipelineStep(s, calls[0]);
      PipelineKeepsOrder(Step(s, calls[0]), calls[1..]);
    }
  }

  lemma {:induction false} AtTheStart(p: Pair, op: Op)
    requires PipelineCall(Call(false, op))
    ensures var r := OnFirst(p, op);
      r.b.bytes + r.a.bytes == p.b.bytes + p.a.bytes + (if op.Add? && !p.a.freezeEnd then op.data else [])
  {
    if op.RemoveBuffer? {
      LineCut(p.a.bytes, Min(op.n, |p.a.bytes|));
    }
  }

  lemma {:induction false} AtTheEnd(p: Pair, op: Op)
    requires PipelineCall(Call(true, op))
    ensures var r := OnFirst(p, op);
      (if op.Remove? then Handed(p, op) else []) + r.a.bytes + r.b.bytes == p.a.bytes + p.b.bytes
  {
    if op.Remove? {
      LineCut(p.a.bytes, Min(op.n, |p.a.bytes|));
    }
  }

  lemma {:induction false} Regrouped(out: seq<Byte>, handed: seq<Byte>, b: seq<Byte>, a: seq<Byte>, b': seq<Byte>,
                                     a': seq<Byte>)
    requires handed + b' + a' == b + a
    ensures out + handed + b' + a' == out + b + a
  {
    assert out + handed + b' + a' == out + (handed + b' + a');
    assert out + b + a == out + (b + a);
  }

  lemma {:induction false} Lengthened(out: seq<Byte>, more: seq<Byte>, b: seq<Byte>, a: seq<Byte>, b': seq<Byte>,
                                      a': seq<Byte>)
    requires b' + a' == b + a + more
    ensures out + b' + a' == out + b + a + more
  {
    assert out + b' + a' == out + (b' + a');
    assert out + b + a + more == out + (b + a + more);
  }

  lemma {:induction false} PipelineStep(s: State, call: Call)
    requires PipelineCall(call)
    ensures var r := Step(s, call); r.out + r.b.bytes + r.a.bytes == s.out + s.b.bytes + s.a.bytes + Fed(s, call)
  {
    var p := Subject(s, call);
    var q := OnFirst(p, call.op);
    if call.onSecond {
      AtTheEnd(p, call.op);
      var handed := if call.op.Remove? then Handed(p, call.op) else [];
      Regrouped(s.out, handed, s.b.bytes, s.a.bytes, q.a.bytes, q.b.bytes);
      EmptyConcat(s.out);
      EmptyConcat(s.out + s.b.bytes + s.a.bytes);
    } else {
      AtTheStart(p, call.op);
      Lengthened(s.out, Fed(s, call), s.b.bytes, s.a.bytes, q.b.bytes, q.a.bytes);
    }
  }

  lemma {:induction false} LineCut(s: seq<Byte>, n: nat)
    requires n <= |s|
    ensures s[..n] + s[n..] == s
  {
  }
}
