/** What the steps of the suspension protocol do to each field (libevent/bufferevent_ratelim.c and
    libevent/bufferevent.c:65-111), and the bandwidth of a stream over whole runs of it. */
module SuspensionLaws {
  import opened TokenBucket
  import opened Suspension

  // ---------------------------------------------------------------- one stream

  /** Apart from one reason, the sides are as they were. */
  ghost predicate SameButFor(f: Flow, r: Flow, what: Reason) {
    r.read.enabled == f.read.enabled && r.read.suspended - {what} == f.read.suspended - {what} &&
    r.write.enabled == f.write.enabled && r.write.suspended - {what} == f.write.suspended - {what}
  }

  lemma {:induction false} ToggledDoes(f: Flow, d: Dir, what: Reason, on: bool)
    ensures var r := Toggled(f, d, what, on);
      r == f.(read := r.read, write := r.write) && SameButFor(f, r, what) &&
      (d.Read? ==> r.write == f.write && (what in r.read.suspended <==> on)) &&
      (d.Write? ==> r.read == f.read && (what in r.write.suspended <==> on))
  {
  }

  /** Exactly the bytes that were moved are taken from the limit of their direction; an exhausted
      limit suspends its side and sets the timer, and a limit with tokens lets it go. */
  lemma {:induction false} ChargedDoes(f: Flow, d: Dir, bytes: int)
    ensures f.cfg.None? ==> Charged(f, d, bytes) == f
    ensures var r := Charged(f, d, bytes);
      r.cfg == f.cfg && r.running == f.running && SameButFor(f, r, Bandwidth) &&
      r.bucket.lastUpdated == f.bucket.lastUpdated
    ensures var r := Charged(f, d, bytes);
      f.cfg.Some? && d.Read? ==>
        r.bucket.read == f.bucket.read - bytes && r.bucket.write == f.bucket.write && r.write == f.write &&
        (Bandwidth in r.read.suspended <==> r.bucket.read <= 0) &&
        (r.timer <==> r.bucket.read <= 0 ||
                      (f.timer && (Bandwidth in f.read.suspended ==> Bandwidth in f.write.suspended)))
    ensures var r := Charged(f, d, bytes);
      f.cfg.Some? && d.Write? ==>
        r.bucket.write == f.bucket.write - bytes && r.bucket.read == f.bucket.read && r.read == f.read &&
        (Bandwidth in r.write.suspended <==> r.bucket.write <= 0) &&
        (r.timer <==> r.bucket.write <= 0 ||
                      (f.timer && (Bandwidth in f.write.suspended ==> Bandwidth in f.read.suspended)))
  {
    if f.cfg.Some? {
      ToggledDoes(f.(bucket := WithLimit(f.bucket, d, LimitOf(f.bucket, d) - bytes)), d, Bandwidth,
        LimitOf(f.bucket, d) - bytes <= 0);
    }
  }

  /** What a reason is after a limit has gone from `was` to `left`: it only changes when the limit is
      exhausted, or has tokens again. */
  ghost predicate Crossed(was: int, left: int, before: bool, after: bool) {
    after <==> if was > 0 >= left then true else if was <= 0 < left then false else before
  }

  /** Tokens that the user takes or gives back suspend the side and let it go in the same way, but
      only when they make the difference. */
  lemma {:induction false} AdjustedDoes(f: Flow, d: Dir, decr: int)
    ensures var r := Adjusted(f, d, decr);
      r.cfg == f.cfg && r.running == f.running && SameButFor(f, r, Bandwidth) &&
      r.bucket.lastUpdated == f.bucket.lastUpdated
    ensures var r := Adjusted(f, d, decr);
      d.Read? ==>
        r.bucket.read == f.bucket.read - decr && r.bucket.write == f.bucket.write && r.write == f.write &&
        Crossed(f.bucket.read, r.bucket.read, Bandwidth in f.read.suspended, Bandwidth in r.read.suspended) &&
        (r.timer <==> if f.bucket.read > 0 >= r.bucket.read then true
                      else f.timer && (f.bucket.read <= 0 < r.bucket.read ==> Bandwidth in f.write.suspended))
    ensures var r := Adjusted(f, d, decr);
      d.Write? ==>
        r.bucket.write == f.bucket.write - decr && r.bucket.read == f.bucket.read && r.read == f.read &&
        Crossed(f.bucket.write, r.bucket.write, Bandwidth in f.write.suspended, Bandwidth in r.write.suspended) &&
        (r.timer <==> if f.bucket.write > 0 >= r.bucket.write then true
                      else f.timer && (f.bucket.write <= 0 < r.bucket.write ==> Bandwidth in f.read.suspended))
  {
    var b := f.(bucket := WithLimit(f.bucket, d, LimitOf(f.bucket, d) - decr));
    ToggledDoes(b, d, Bandwidth, true);
    ToggledDoes(b, d, Bandwidth, false);
  }

  /** Only the bucket is brought up to date. */
  lemma {:induction false} RefreshedDoes(f: Flow, tick: nat)
    ensures var r := Refreshed(f, tick); r == f.(bucket := r.bucket) && (f.cfg.None? ==> r == f)
    ensures f.cfg.Some? ==>
              Refreshed(f, tick).bucket.lastUpdated == if Counted(f.bucket, tick) == 0 then f.bucket.lastUpdated
                else tick
    ensures forall d: Dir :: f.cfg.Some? && CfgOk(f.cfg.value) && LimitFits(f.bucket, f.cfg.value, d) ==>
              LimitOf(Refreshed(f, tick).bucket, d) ==
                Min(MaximumOf(f.cfg.value, d), LimitOf(f.bucket, d) + Counted(f.bucket, tick) * RateOf(f.cfg.value, d))
  {
    forall d: Dir | f.cfg.Some? && CfgOk(f.cfg.value) && LimitFits(f.bucket, f.cfg.value, d)
      ensures LimitOf(Refreshed(f, tick).bucket, d) ==
                Min(MaximumOf(f.cfg.value, d), LimitOf(f.bucket, d) + Counted(f.bucket, tick) * RateOf(f.cfg.value, d))
    {
      RefilledFits(f.bucket, f.cfg.value, tick, d);
    }
  }

  /** The refill callback brings the bucket up to date, lets go what has tokens again, and comes back
      for the rest. */
  lemma {:induction false} CalledBackDoes(f: Flow, tick: nat)
    ensures var r := CalledBack(f, tick);
      !r.running && r.cfg == f.cfg && SameButFor(f, r, Bandwidth) && r.bucket == Refreshed(f, tick).bucket
    ensures f.cfg.None? ==> CalledBack(f, tick) == f.(running := false)
    ensures var r := CalledBack(f, tick);
      f.cfg.Some? ==>
        (Bandwidth in r.read.suspended <==> Bandwidth in f.read.suspended && r.bucket.read <= 0) &&
        (Bandwidth in r.write.suspended <==> Bandwidth in f.write.suspended && r.bucket.write <= 0) &&
        (r.timer <==> f.timer || Bandwidth in r.read.suspended || Bandwidth in r.write.suspended)
  {
    if f.cfg.Some? {
      var b := Refreshed(f, tick);
      var x := Eased(b, Read);
      ToggledDoes(b, Read, Bandwidth, Flagged(b, Read, Bandwidth) && LimitOf(b.bucket, Read) <= 0);
      ToggledDoes(x, Write, Bandwidth, Flagged(x, Write, Bandwidth) && LimitOf(x.bucket, Write) <= 0);
    }
  }

  /** A new configuration: the first one fills the bucket with one tick's worth, a later one clips it,
      and none at all takes every suspension for bandwidth away. */
  lemma {:induction false} ConfiguredDoes(f: Flow, cfg: Option<Cfg>, tick: nat)
    ensures var r := Configured(f, cfg, tick);
      r.cfg == cfg && r.running == f.running && SameButFor(f, r, Bandwidth) && (cfg == f.cfg ==> r == f)
    ensures var r := Configured(f, cfg, tick);
      cfg != f.cfg && cfg.None? ==>
        Bandwidth !in r.read.suspended && Bandwidth !in r.write.suspended && !r.timer && r.bucket == f.bucket
    ensures var r := Configured(f, cfg, tick);
      cfg != f.cfg && cfg.Some? ==>
        (Bandwidth in r.read.suspended <==> r.bucket.read <= 0) &&
        (Bandwidth in r.write.suspended <==> r.bucket.write <= 0) &&
        (r.timer <==> r.bucket.read <= 0 || r.bucket.write <= 0) &&
        if f.cfg.Some? then
          r.bucket.read == Min(f.bucket.read, cfg.value.readMaximum) &&
          r.bucket.write == Min(f.bucket.write, cfg.value.writeMaximum) && r.bucket.lastUpdated == f.bucket.lastUpdated
        else r.bucket == Limits(cfg.value.readRate, cfg.value.writeRate, tick)
  {
    if cfg != f.cfg {
      var b := if cfg.Some? then Initialised(f.bucket, cfg.value, tick, f.cfg.Some?) else f.bucket;
      var g := if cfg.Some? then f.(cfg := cfg, bucket := b) else f;
      ToggledDoes(g, Read, Bandwidth, cfg.Some? && b.read <= 0);
      ToggledDoes(Toggled(g, Read, Bandwidth, cfg.Some? && b.read <= 0), Write, Bandwidth, cfg.Some? && b.write <= 0);
    }
  }

  /** What a stream may move is no more than its own limit and its share, and no less than one of them. */
  lemma {:induction false} MaxMoveIsLeast(f: Flow, share: Option<int>, d: Dir)
    ensures var own := if f.cfg.None? then 16384 else if d.Read? then f.bucket.read else f.bucket.write;
      var m := MaxMove(f, share, d);
      m <= Pos(own) && (share.Some? ==> m <= Pos(share.value)) &&
      (m == Pos(own) || (share.Some? && m == Pos(share.value)))
  {
  }

  /** A member's share of a limit is that limit divided by the number of members, without the
      remainder, or the smallest share. */
  lemma {:induction false} ShareIsPart(limit: int, members: nat, minShare: nat)
    requires members > 0
    ensures var r := Share(limit, members, minShare);
      r >= minShare && (r > minShare ==> r * members <= limit < (r + 1) * members) &&
      (r == minShare ==> limit < (r + 1) * members)
  {
    if limit >= 0 {
      var q := limit / members;
      assert limit == q * members + limit % members && 0 <= limit % members < members;
      assert (q + 1) * members == q * members + members;
      if q < minShare { WorthGrows(q + 1, minShare + 1, members); }
    } else {
      WorthGrows(0, minShare + 1, members);
    }
  }

  // ---------------------------------------------------------------- groups

  /** Closing or opening a group reaches exactly the members whose locks can be taken: each is
      suspended for the group, or not any more.  An opened group remembers whether it missed one. */
  lemma {:induction false} SweptDoes(s: State, g: nat, d: Dir, got: set<nat>, closing: bool)
    requires g in s.groups
    ensures var r := Swept(s, g, d, got, closing);
      r.streams.Keys == s.streams.Keys && r.groups.Keys == s.groups.Keys &&
      (forall h :: h in s.groups && h != g ==> r.groups[h] == s.groups[h]) &&
      (forall b :: b in s.streams ==>
        Reach(s.streams[b], r.streams[b], b in s.groups[g].members && b in got, d, closing))
    ensures var x, r := s.groups[g], Swept(s, g, d, got, closing).groups[g];
      r.members == x.members && r.limits == x.limits && r.cfg == x.cfg && r.minShare == x.minShare &&
      var again := !closing && exists b :: b in x.members && b !in got;
      if d.Read? then
        r.readSuspended == closing && (r.pendingRead <==> again) &&
        r.writeSuspended == x.writeSuspended && r.pendingWrite == x.pendingWrite
      else
        r.writeSuspended == closing && (r.pendingWrite <==> again) &&
        r.readSuspended == x.readSuspended && r.pendingRead == x.pendingRead
  {
    forall b | b in s.streams
      ensures Reach(s.streams[b], Swept(s, g, d, got, closing).streams[b], b in s.groups[g].members && b in got, d,
              closing)
    {
      ToggledDoes(s.streams[b].flow, d, GroupBandwidth, closing);
    }
    if b :| b in s.groups[g].members && b !in got {
      var i :| 0 <= i < |s.groups[g].members| && s.groups[g].members[i] == b;
      assert s.groups[g].members[i] !in got;
    }
  }

  /** What becomes of one stream. */
  ghost predicate Reach(x: Stream, r: Stream, reached: bool, d: Dir, closing: bool) {
    if !reached then r == x
    else
      r == x.(flow := r.flow) && r.flow == x.flow.(read := r.flow.read, write := r.flow.write) &&
      SameButFor(x.flow, r.flow, GroupBandwidth) &&
      (d.Read? ==> r.flow.write == x.flow.write && (GroupBandwidth in r.flow.read.suspended <==> closing)) &&
      (d.Write? ==> r.flow.read == x.flow.read && (GroupBandwidth in r.flow.write.suspended <==> closing))
  }

  /** The bytes are taken from the group's limit; it is closed exactly when nothing is left, and the
      members that it reaches are suspended when it closes and let go when it opens. */
  lemma {:induction false} GroupChargedDoes(s: State, g: nat, d: Dir, bytes: int, got: set<nat>)
    requires g in s.groups
    ensures var x, r := s.groups[g], GroupCharged(s, g, d, bytes, got).groups;
      r.Keys == s.groups.Keys &&
      r[g].limits == (if d.Read? then x.limits.(read := x.limits.read - bytes)
                      else x.limits.(write := x.limits.write - bytes)) &&
      (Closed(r[g], d) <==> LimitOf(r[g].limits, d) <= 0) && Closed(r[g], Opposite(d)) == Closed(x, Opposite(d))
    ensures var r := GroupCharged(s, g, d, bytes, got);
      r.streams.Keys == s.streams.Keys &&
      forall b :: b in s.streams ==>
        Reach(s.streams[b], r.streams[b],
          b in s.groups[g].members && b in got && (Closed(s.groups[g], d) || Closed(r.groups[g], d)), d,
          Closed(r.groups[g], d))
  {
    var left := LimitOf(s.groups[g].limits, d) - bytes;
    var r := WithLimits(s, g, WithLimit(s.groups[g].limits, d, left));
    SweptDoes(r, g, d, got, left <= 0);
  }

  /** Tokens that the user takes from a group or gives back close and open it in the same way, but only
      when they make the difference. */
  lemma {:induction false} GroupAdjustedDoes(s: State, g: nat, d: Dir, decr: int, got: set<nat>)
    requires g in s.groups
    ensures var x, r := s.groups[g], GroupAdjusted(s, g, d, decr, got).groups;
      r.Keys == s.groups.Keys &&
      r[g].limits == (if d.Read? then x.limits.(read := x.limits.read - decr)
                      else x.limits.(write := x.limits.write - decr)) &&
      Crossed(LimitOf(x.limits, d), LimitOf(r[g].limits, d), Closed(x, d), Closed(r[g], d)) &&
      Closed(r[g], Opposite(d)) == Closed(x, Opposite(d))
    ensures var was, left, r := LimitOf(s.groups[g].limits, d), LimitOf(s.groups[g].limits, d) - decr,
                                GroupAdjusted(s, g, d, decr, got);
      r.streams.Keys == s.streams.Keys &&
      forall b :: b in s.streams ==>
        Reach(s.streams[b], r.streams[b], b in s.groups[g].members && b in got && (was > 0) != (left > 0), d, left <= 0)
  {
    var left := LimitOf(s.groups[g].limits, d) - decr;
    var r := WithLimits(s, g, WithLimit(s.groups[g].limits, d, left));
    SweptDoes(r, g, d, got, left <= 0);
  }

  /** A direction of a group opens when some member was missed, or when there is enough for the smallest
      share, and the members that it reaches are let go. */
  lemma {:induction false} ReopenedDoes(s: State, g: nat, d: Dir, got: set<nat>)
    requires g in s.groups
    ensures var x, r := s.groups[g], Reopened(s, g, d, got);
      var opens := Pending(x, d) || (Closed(x, d) && LimitOf(x.limits, d) >= x.minShare);
      g in r.groups && r.groups[g].limits == x.limits && r.groups[g].members == x.members &&
      r.groups[g].minShare == x.minShare && (Closed(r.groups[g], d) <==> Closed(x, d) && !opens) &&
      Closed(r.groups[g], Opposite(d)) == Closed(x, Opposite(d)) &&
      Pending(r.groups[g], Opposite(d)) == Pending(x, Opposite(d)) && r.streams.Keys == s.streams.Keys &&
      forall b :: b in s.streams ==> Reach(s.streams[b], r.streams[b], opens && b in x.members && b in got, d, false)
  {
    hide Toggled;
    SweptDoes(s, g, d, got, false);
  }

  /** The refill callback of a group fills its bucket, and then does so in each direction. */
  lemma {:induction false} GroupCalledBackDoes(s: State, g: nat, tick: nat, got: set<nat>, gotWrite: set<nat>, b: nat)
    requires g in s.groups
    ensures var x, y := s.groups[g], GroupCalledBack(s, g, tick, got, gotWrite).groups[g];
      y.limits == Refilled(x.limits, x.cfg, tick) && y.members == x.members &&
      (y.readSuspended <==> x.readSuspended && !x.pendingRead && y.limits.read < x.minShare) &&
      (y.writeSuspended <==> x.writeSuspended && !x.pendingWrite && y.limits.write < x.minShare)
    ensures var x, r := s.groups[g], GroupCalledBack(s, g, tick, got, gotWrite);
      b in s.streams ==>
        b in r.streams &&
        var f, h, member := s.streams[b].flow, r.streams[b].flow, b in x.members;
        SameButFor(f, h, GroupBandwidth) &&
        (GroupBandwidth in h.read.suspended <==>
           GroupBandwidth in f.read.suspended &&
           !((x.readSuspended || x.pendingRead) && !r.groups[g].readSuspended && member && b in got)) &&
        (GroupBandwidth in h.write.suspended <==>
           GroupBandwidth in f.write.suspended &&
           !((x.writeSuspended || x.pendingWrite) && !r.groups[g].writeSuspended && member && b in gotWrite))
  {
    hide Reopened, Refilled, Swept;
    var a := WithLimits(s, g, Refilled(s.groups[g].limits, s.groups[g].cfg, tick));
    ReopenedDoes(a, g, Read, got);
    ReopenedDoes(Reopened(a, g, Read, got), g, Write, gotWrite);
  }

  /** Who joins a group is its last member, and knows whether the group is suspended. */
  lemma {:induction false} JoinedDoes(s: State, b: nat, g: nat)
    requires b in s.streams && g in s.groups
    ensures var r := Suspension.Joined(s, b, g);
      r.groups[g].members == s.groups[g].members + [b] && r.streams[b].group == Some(g) &&
      r.streams[b].doing == Joining(s.groups[g].readSuspended, s.groups[g].writeSuspended) &&
      r.streams[b].flow == s.streams[b].flow
  {
  }

  /** It is then suspended for a group that was, and otherwise as before. */
  lemma {:induction false} JoinFinishedDoes(s: State, b: nat)
    requires b in s.streams && s.streams[b].doing.Joining?
    ensures var x, r := s.streams[b], JoinFinished(s, b).streams[b];
      r.doing.Idle? && r.group == x.group && SameButFor(x.flow, r.flow, GroupBandwidth) &&
      (GroupBandwidth in r.flow.read.suspended <==> x.doing.read || GroupBandwidth in x.flow.read.suspended) &&
      (GroupBandwidth in r.flow.write.suspended <==> x.doing.write || GroupBandwidth in x.flow.write.suspended)
  {
    var x := s.streams[b];
    ToggledDoes(x.flow, Read, GroupBandwidth, true);
    var f := if x.doing.read then Toggled(x.flow, Read, GroupBandwidth, true) else x.flow;
    ToggledDoes(f, Write, GroupBandwidth, true);
  }

  /** Who leaves a group is no member any more, and not suspended for it. */
  lemma {:induction false} LeftDoes(s: State, b: nat)
    requires Inv(s) && b in s.streams && s.streams[b].group.Some? && s.streams[b].group.value in s.groups
    ensures var g, r := s.streams[b].group.value, Left(s, b);
      r.streams[b].group.None? && (forall c :: c in r.groups[g].members <==> c in s.groups[g].members && c != b) &&
      var x := LeaveFinished(r, b).streams[b];
      x.doing.Idle? && GroupBandwidth !in x.flow.read.suspended && GroupBandwidth !in x.flow.write.suspended &&
      SameButFor(s.streams[b].flow, x.flow, GroupBandwidth)
  {
    var g := s.streams[b].group.value;
    assert GroupOk(s, g);
    RemovedHas(s.groups[g].members, b);
    ToggledDoes(s.streams[b].flow, Read, GroupBandwidth, false);
    ToggledDoes(Toggled(s.streams[b].flow, Read, GroupBandwidth, false), Write, GroupBandwidth, false);
  }

  // ---------------------------------------------------------------- the bandwidth over runs

  /** A refill and then a charge are a take of the bandwidth law. */
  lemma {:induction false} RefreshedThenCharged(f: Flow, d: Dir, now: nat, bytes: nat)
    requires f.cfg.Some?
    ensures Charged(Refreshed(f, now % TICKS), d, bytes).bucket == AfterTake(f.bucket, f.cfg.value, d, Take(now, bytes))
    ensures Counted(Refreshed(f, now % TICKS).bucket, now % TICKS) == 0
  {
    ChargedDoes(Refreshed(f, now % TICKS), d, bytes);
    assert Elapsed(now % TICKS, now % TICKS) == 0;
  }

  /** The share of a group only makes it less. */
  lemma {:induction false} ShareIsLess(f: Flow, share: Option<int>, d: Dir)
    ensures MaxMove(f, share, d) <= MaxMove(f, None, d)
  {
  }

  /** A move at a true tick. */
  datatype Timed = Timed(now: nat, move: Move)

  /** What is asked of the stream `b` for the bandwidth in the direction `d`: its configuration stays,
      its thread reads the clock, it gives no tokens back, and it moves bytes only when its bucket is up
      to date, and then no more than it may. */
  ghost predicate StepObeys(s: State, step: Step, now: nat, b: nat, d: Dir) {
    step.OnFlow? && step.b == b && b in s.streams ==>
      var f := s.streams[b].flow;
      match step.act
      case SetLimit(cfg, _) => cfg == f.cfg
      case Charge(e, bytes) => e == d ==> Counted(f.bucket, now % TICKS) == 0 && 0 <= bytes <= MaxMove(f, None, d)
      case Adjust(e, bytes) => e == d ==> bytes >= 0
      case CallBack(tick) => tick == now % TICKS
      case Refresh(tick) => tick == now % TICKS
      case _ => true
  }

  /** A run of the protocol, in which time does not go back. */
  ghost predicate RunObeys(s: State, run: seq<Timed>, b: nat, d: Dir, clock: nat)
    decreases |run|
  {
    run != [] ==>
      clock <= run[0].now && Can(s, run[0].move.thread, run[0].move.step) &&
      StepObeys(s, run[0].move.step, run[0].now, b, d) &&
      RunObeys(Next(s, run[0].move.thread, run[0].move.step), run[1..], b, d, run[0].now)
  }

  /** The bytes that a step moves, and those of a run. */
  ghost function MovedBy(step: Step, b: nat, d: Dir): int {
    if step.OnFlow? && step.b == b && step.act.Charge? && step.act.d == d then step.act.bytes else 0
  }

  ghost function Moved(run: seq<Timed>, b: nat, d: Dir): int {
    if run == [] then 0 else MovedBy(run[0].move.step, b, d) + Moved(run[1..], b, d)
  }

  ghost function LastNow(run: seq<Timed>, clock: nat): nat {
    if run == [] then clock else run[|run| - 1].now
  }

  /** The stream has this configuration, and its bucket was up to date at `since`. */
  ghost predicate IsFresh(s: State, b: nat, d: Dir, c: Cfg, since: nat) {
    b in s.streams && s.streams[b].flow.cfg == Some(c) && Fresh(s.streams[b].flow.bucket, c, d, since)
  }

  ghost function Tokens(s: State, b: nat, d: Dir): nat
    requires b in s.streams
  {
    Pos(LimitOf(s.streams[b].flow.bucket, d))
  }

  lemma {:induction false} NoTicks(x: int, rate: nat)
    ensures x + 0 * rate == x
  {
  }

  /** What a step does to the bucket of the stream itself. */
  lemma {:induction false} OwnStep(f: Flow, act: Act, now: nat, b: nat, d: Dir, c: Cfg, since: nat)
    returns (since': nat)
    requires f.cfg == Some(c) && Fresh(f.bucket, c, d, since) && since <= now && FlowCan(f, act)
    requires match act
             case SetLimit(cfg, _) => cfg == f.cfg
             case Charge(e, bytes) => e == d ==> 0 <= bytes <= MaxMove(f, None, d)
             case Adjust(e, bytes) => e == d ==> bytes >= 0
             case CallBack(tick) => tick == now % TICKS
             case Refresh(tick) => tick == now % TICKS
             case _ => true
    ensures since <= since' <= now && FlowAfter(f, act).cfg == Some(c) && Fresh(FlowAfter(f, act).bucket, c, d, since')
    ensures Pos(LimitOf(FlowAfter(f, act).bucket, d)) + (if act.Charge? && act.d == d then act.bytes else 0) <=
              Pos(LimitOf(f.bucket, d)) + (since' - since) * RateOf(c, d)
  {
    since' := since;
    NoTicks(Pos(LimitOf(f.bucket, d)), RateOf(c, d));
    match act {
      case SetLimit(cfg, tick) => ConfiguredDoes(f, cfg, tick);
      case Charge(e, bytes) => ChargedDoes(f, e, bytes);
      case Adjust(e, bytes) => AdjustedDoes(f, e, bytes);
      case CallBack(tick) =>
        since' := now;
        CalledBackDoes(f, tick);
        GainIsBounded(f.bucket, c, d, since, now);
      case Refresh(tick) =>
        since' := now;
        GainIsBounded(f.bucket, c, d, since, now);
      case Other(e, what, on) => ToggledDoes(f, e, what, on);
      case Enable(e, on) =>
    }
  }

  /** No step gives the stream more than the ticks that have passed are worth. */
  lemma {:induction false} StepIsBounded(s: State, m: Move, now: nat, b: nat, d: Dir, c: Cfg, since: nat)
    returns (since': nat)
    requires IsFresh(s, b, d, c, since) && since <= now && Can(s, m.thread, m.step) && StepObeys(s, m.step, now, b, d)
    ensures since <= since' <= now && IsFresh(Next(s, m.thread, m.step), b, d, c, since')
    ensures Tokens(Next(s, m.thread, m.step), b, d) + MovedBy(m.step, b, d) <=
              Tokens(s, b, d) + (since' - since) * RateOf(c, d)
  {
    if m.step.OnFlow? && m.step.b == b {
      since' := OwnStep(s.streams[b].flow, m.step.act, now, b, d, c, since);
    } else {
      since' := since;
      NoTicks(Tokens(s, b, d), RateOf(c, d));
      BudgetAfter(s, m.thread, m.step, b);
    }
  }

  /** What a stream moves from now on is covered by what its bucket has and the ticks that pass. */
  lemma {:induction false} RunIsBounded(s: State, run: seq<Timed>, b: nat, d: Dir, c: Cfg, clock: nat, since: nat)
    requires IsFresh(s, b, d, c, since) && since <= clock && RunObeys(s, run, b, d, clock)
    ensures clock <= LastNow(run, clock)
    ensures Moved(run, b, d) <= Tokens(s, b, d) + (LastNow(run, clock) - since) * RateOf(c, d)
    decreases |run|
  {
    var rate, last := RateOf(c, d), LastNow(run, clock);
    if run == [] {
      WorthGrows(0, clock - since, rate);
    } else {
      var m, now := run[0].move, run[0].now;
      var since' := StepIsBounded(s, m, now, b, d, c, since);
      RunIsBounded(Next(s, m.thread, m.step), run[1..], b, d, c, now, since');
      assert (since' - since) * rate + (last - since') * rate == (last - since) * rate;
    }
  }

  /** From the first byte that it moves, a full bucket and the rate for every tick cover it. */
  lemma {:induction false} WindowIsBounded(s: State, run: seq<Timed>, b: nat, d: Dir, c: Cfg, clock: nat, since: nat)
    requires IsFresh(s, b, d, c, since) && since <= clock && RunObeys(s, run, b, d, clock) && run != []
    ensures run[0].now <= LastNow(run, clock)
    ensures Moved(run, b, d) <= MaximumOf(c, d) + (LastNow(run, clock) - run[0].now) * RateOf(c, d)
    decreases |run|
  {
    var m, now, rate, last := run[0].move, run[0].now, RateOf(c, d), LastNow(run, clock);
    RunIsBounded(s, run, b, d, c, clock, since);
    if m.step.OnFlow? && m.step.b == b && m.step.act.Charge? && m.step.act.d == d {
      assert IsFresh(s, b, d, c, now);
      RunObeysLater(s, run, b, d, clock);
      RunIsBounded(s, run, b, d, c, now, now);
    } else {
      var since' := StepIsBounded(s, m, now, b, d, c, since);
      if |run| > 1 {
        WindowIsBounded(Next(s, m.thread, m.step), run[1..], b, d, c, now, since');
        WorthGrows(last - run[1].now, last - now, rate);
      } else {
        NoTicks(MaximumOf(c, d), rate);
      }
    }
  }

  lemma {:induction false} RunObeysLater(s: State, run: seq<Timed>, b: nat, d: Dir, clock: nat)
    requires RunObeys(s, run, b, d, clock) && run != []
    ensures RunObeys(s, run, b, d, run[0].now)
  {
  }

  lemma {:induction false} RunObeysFirst(s: State, run: seq<Timed>, b: nat, d: Dir, clock: nat, n: nat)
    requires RunObeys(s, run, b, d, clock) && n <= |run|
    ensures RunObeys(s, run[..n], b, d, clock)
    decreases n
  {
    if n > 0 {
      RunObeysFirst(Next(s, run[0].move.thread, run[0].move.step), run[1..], b, d, run[0].now, n - 1);
      assert run[..n][1..] == run[1..][..n - 1];
    }
  }

  /** The bandwidth of a stream in the protocol, whatever else the threads do: in any part of any run,
      a stream whose every operation looks at the clock and at its limit first moves at most a full
      bucket and the rate for every tick that passes. */
  lemma {:induction false} BandwidthOfRuns(s: State, run: seq<Timed>, b: nat, d: Dir, c: Cfg, clock: nat, since: nat,
                                           i: nat, j: nat)
    requires IsFresh(s, b, d, c, since) && since <= clock && RunObeys(s, run, b, d, clock) && i < j <= |run|
    ensures run[i].now <= run[j - 1].now
    ensures Moved(run[i..j], b, d) <= MaximumOf(c, d) + (run[j - 1].now - run[i].now) * RateOf(c, d)
    decreases |run|
  {
    if i == 0 {
      RunObeysFirst(s, run, b, d, clock, j);
      WindowIsBounded(s, run[..j], b, d, c, clock, since);
    } else {
      var m := run[0].move;
      var since' := StepIsBounded(s, m, run[0].now, b, d, c, since);
      BandwidthOfRuns(Next(s, m.thread, m.step), run[1..], b, d, c, run[0].now, since', i - 1, j - 1);
      SliceOfRest(run, i, j);
    }
  }

  /** A stream that gets its first configuration is up to date. */
  lemma {:induction false} ConfiguredIsFresh(f: Flow, c: Cfg, d: Dir, now: nat)
    requires f.cfg.None? && CfgOk(c)
    ensures Fresh(Configured(f, Some(c), now % TICKS).bucket, c, d, now)
  {
    ConfiguredDoes(f, Some(c), now % TICKS);
    InitialisedIsFresh(f.bucket, c, d, now);
  }
}
