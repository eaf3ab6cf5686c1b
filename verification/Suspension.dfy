/** The suspension of rate-limited streams as a protocol between threads
    (libevent/bufferevent_ratelim.c:199-806 and libevent/bufferevent.c:65-111): every step is what
    one thread does under one lock, and a group only reaches those of its members whose locks it
    can take without waiting. */
module Suspension {
  import opened TokenBucket

  /** The BEV_SUSPEND flags. */
  datatype Reason = Watermark | Bandwidth | GroupBandwidth | Lookup | FilterRead

  /** Reading, or writing: whether the user wants it, and why it is suspended. */
  datatype Side = Side(enabled: bool, suspended: set<Reason>)

  /** What the lock of a bufferevent guards.  `timer` is set while the refill timer is waiting or
      queued, so that event_del would stop it, and `running` from when its callback is taken off
      the queue until the callback has done its work. */
  datatype Flow = Flow(read: Side, write: Side, cfg: Option<Cfg>, bucket: Limits, timer: bool, running: bool)

  function Opposite(d: Dir): Dir {
    if d.Read? then Write else Read
  }

  function SideOf(f: Flow, d: Dir): Side {
    if d.Read? then f.read else f.write
  }

  function WithSide(f: Flow, d: Dir, x: Side): Flow {
    if d.Read? then f.(read := x) else f.(write := x)
  }

  predicate Flagged(f: Flow, d: Dir, what: Reason) {
    what in SideOf(f, d).suspended
  }

  /** The stream reads or writes now. */
  predicate Live(x: Side) {
    x.enabled && x.suspended == {}
  }

  // ---------------------------------------------------------------- one stream

  /** A reason is set or taken away (libevent/bufferevent.c:65-111). */
  function Toggled(f: Flow, d: Dir, what: Reason, on: bool): Flow {
    var x := SideOf(f, d);
    WithSide(f, d, x.(suspended := if on then x.suspended + {what} else x.suspended - {what}))
  }

  /** Tokens are taken for what was read or written (libevent/bufferevent_ratelim.c:283-295). */
  function Charged(f: Flow, d: Dir, bytes: int): Flow {
    if f.cfg.None? then f
    else
      var left := LimitOf(f.bucket, d) - bytes;
      var r := Toggled(f.(bucket := WithLimit(f.bucket, d, left)), d, Bandwidth, left <= 0);
      r.(timer := left <= 0 || (f.timer && (Flagged(f, d, Bandwidth) ==> Flagged(f, Opposite(d), Bandwidth))))
  }

  /** The user takes tokens, or gives some back (libevent/bufferevent_ratelim.c:900-954). */
  function Adjusted(f: Flow, d: Dir, decr: int): Flow {
    var was := LimitOf(f.bucket, d);
    var left := was - decr;
    var r := f.(bucket := WithLimit(f.bucket, d, left));
    if was > 0 && left <= 0 then Toggled(r, d, Bandwidth, true).(timer := true)
    else if was <= 0 && left > 0 then
      Toggled(r, d, Bandwidth, false).(timer := f.timer && Flagged(f, Opposite(d), Bandwidth))
    else r
  }

  /** The bucket is brought up to date before the limit is looked at. */
  function Refreshed(f: Flow, tick: nat): Flow {
    if f.cfg.None? then f else f.(bucket := Refilled(f.bucket, f.cfg.value, tick))
  }

  /** A flag for an exhausted bucket is taken away when the bucket has tokens. */
  function Eased(f: Flow, d: Dir): Flow {
    Toggled(f, d, Bandwidth, Flagged(f, d, Bandwidth) && LimitOf(f.bucket, d) <= 0)
  }

  /** The refill callback (libevent/bufferevent_ratelim.c:395-441). */
  function CalledBack(f: Flow, tick: nat): Flow {
    if f.cfg.None? then f.(running := false)
    else
      var r := Eased(Eased(Refreshed(f, tick), Read), Write);
      r.(running := false, timer := f.timer || Flagged(r, Read, Bandwidth) || Flagged(r, Write, Bandwidth))
  }

  /** A new configuration, or none (libevent/bufferevent_ratelim.c:558-635). */
  function Configured(f: Flow, cfg: Option<Cfg>, tick: nat): Flow {
    if cfg == f.cfg then f
    else if cfg.None? then
      Toggled(Toggled(f, Read, Bandwidth, false), Write, Bandwidth, false).(cfg := None, timer := false)
    else
      var b := Initialised(f.bucket, cfg.value, tick, f.cfg.Some?);
      Toggled(Toggled(f.(cfg := cfg, bucket := b), Read, Bandwidth, b.read <= 0), Write, Bandwidth, b.write <= 0)
        .(timer := b.read <= 0 || b.write <= 0)
  }

  /** A side that is suspended for an exhausted bucket will be looked at again: a timer is set or
      its callback is running. */
  predicate FlowOk(f: Flow) {
    (f.cfg.None? ==> !Flagged(f, Read, Bandwidth) && !Flagged(f, Write, Bandwidth) && !f.timer) &&
    (Flagged(f, Read, Bandwidth) || Flagged(f, Write, Bandwidth) ==> f.timer || f.running)
  }

  /** The limits are 64-bit numbers. */
  predicate FlowFits(f: Flow) {
    f.cfg.Some? ==> CfgOk(f.cfg.value) && Fits(f.bucket.read) && Fits(f.bucket.write)
  }

  /** An exhausted bucket suspends its side. */
  predicate FlowHolds(f: Flow, d: Dir) {
    f.cfg.Some? && LimitOf(f.bucket, d) <= 0 ==> Flagged(f, d, Bandwidth)
  }

  /** A refill at `tick` does not overflow a bucket whose side is not suspended. */
  predicate FlowSpares(f: Flow, tick: nat, d: Dir) {
    f.cfg.Some? && !Flagged(f, d, Bandwidth) ==> Spares(f.bucket, f.cfg.value, tick, d)
  }

  /** No tick is counted, or the tokens that come in do not overflow the bucket. */
  predicate Spares(b: Limits, c: Cfg, tick: nat, d: Dir) {
    Counted(b, tick) == 0 || KeepsTokens(LimitOf(b, d), MaximumOf(c, d), Counted(b, tick) * RateOf(c, d))
  }

  lemma {:induction false} RefilledIsPositive(b: Limits, c: Cfg, tick: nat, d: Dir)
    requires CfgOk(c) && Fits(LimitOf(b, d)) && LimitOf(b, d) > 0
    ensures LimitOf(Refilled(b, c, tick), d) > 0 <==> Spares(b, c, tick, d)
  {
    if Counted(b, tick) > 0 {
      UpdateIsPositive(LimitOf(b, d), MaximumOf(c, d), RateOf(c, d), Counted(b, tick));
    }
  }

  lemma {:induction false} RefilledHasSize(b: Limits, c: Cfg, tick: nat)
    requires CfgOk(c) && Fits(b.read) && Fits(b.write)
    ensures var r := Refilled(b, c, tick); Fits(r.read) && Fits(r.write)
  {
  }

  /** The flags of the group are its own business. */
  predicate SameGroupFlags(f: Flow, r: Flow) {
    forall d: Dir {:trigger Flagged(r, d, GroupBandwidth)} ::
      Flagged(r, d, GroupBandwidth) == Flagged(f, d, GroupBandwidth)
  }

  lemma {:induction false} ChargedKeeps(f: Flow, d: Dir, bytes: int)
    requires FlowOk(f)
    ensures FlowOk(Charged(f, d, bytes)) && SameGroupFlags(f, Charged(f, d, bytes))
    ensures forall e: Dir :: FlowHolds(f, e) ==> FlowHolds(Charged(f, d, bytes), e)
  {
  }

  lemma {:induction false} AdjustedKeeps(f: Flow, d: Dir, decr: int)
    requires FlowOk(f) && f.cfg.Some?
    ensures FlowOk(Adjusted(f, d, decr)) && SameGroupFlags(f, Adjusted(f, d, decr))
    ensures forall e: Dir :: FlowHolds(f, e) ==> FlowHolds(Adjusted(f, d, decr), e)
  {
  }

  lemma {:induction false} CalledBackKeeps(f: Flow, tick: nat)
    requires FlowOk(f)
    ensures FlowOk(CalledBack(f, tick)) && SameGroupFlags(f, CalledBack(f, tick))
  {
  }

  lemma {:induction false} ConfiguredKeeps(f: Flow, cfg: Option<Cfg>, tick: nat)
    requires FlowOk(f)
    ensures FlowOk(Configured(f, cfg, tick)) && SameGroupFlags(f, Configured(f, cfg, tick))
    ensures forall e: Dir :: FlowHolds(f, e) ==> FlowHolds(Configured(f, cfg, tick), e)
  {
  }

  /** After an update, or after the refill callback, an exhausted bucket still suspends its side
      exactly when the side was suspended or the update did not overflow. */
  lemma {:induction false} RefillHolds(f: Flow, tick: nat, d: Dir)
    requires FlowFits(f) && FlowHolds(f, d)
    ensures FlowHolds(Refreshed(f, tick), d) <==> FlowSpares(f, tick, d)
    ensures FlowHolds(CalledBack(f, tick), d) <==> FlowSpares(f, tick, d)
  {
    if f.cfg.Some? && !Flagged(f, d, Bandwidth) {
      RefilledIsPositive(f.bucket, f.cfg.value, tick, d);
    }
  }

  /** The callback lets a side go exactly when its bucket has tokens again, and otherwise it will
      be called again; so it leaves exactly the exhausted buckets suspended, unless it overflows
      one itself. */
  lemma {:induction false} CallbackLetsGo(f: Flow, tick: nat, d: Dir)
    requires f.cfg.Some? && FlowFits(f)
    ensures var r := CalledBack(f, tick);
      (Flagged(r, d, Bandwidth) <==> Flagged(f, d, Bandwidth) && LimitOf(r.bucket, d) <= 0) &&
        (Flagged(r, d, Bandwidth) ==> r.timer)
    ensures FlowHolds(f, d) ==>
              (FlowSpares(f, tick, d) <==>
                (Flagged(CalledBack(f, tick), d, Bandwidth) <==> LimitOf(CalledBack(f, tick).bucket, d) <= 0))
  {
    if FlowHolds(f, d) {
      RefillHolds(f, tick, d);
    }
  }

  // ---------------------------------------------------------------- streams, groups and threads

  /** What a thread is in the middle of: it has read the flags of the group that the stream is
      joining, or the stream has left its group and its flags are still to be cleared. */
  datatype Doing = Idle | Joining(read: bool, write: bool) | Leaving

  datatype Stream = Stream(flow: Flow, group: Option<nat>, doing: Doing, holder: Option<nat>)

  datatype Group = Group(members: seq<nat>, readSuspended: bool, writeSuspended: bool, pendingRead: bool,
                         pendingWrite: bool, limits: Limits, cfg: Cfg, minShare: nat)

  datatype State = State(streams: map<nat, Stream>, groups: map<nat, Group>)

  function Closed(g: Group, d: Dir): bool {
    if d.Read? then g.readSuspended else g.writeSuspended
  }

  function Pending(g: Group, d: Dir): bool {
    if d.Read? then g.pendingRead else g.pendingWrite
  }

  function WithFlags(g: Group, d: Dir, closed: bool, pending: bool): Group {
    if d.Read? then g.(readSuspended := closed, pendingRead := pending)
      else g.(writeSuspended := closed, pendingWrite := pending)
  }

  /** The thread has read that the group is suspended. */
  function Owes(x: Doing, d: Dir): bool {
    x.Joining? && if d.Read? then x.read else x.write
  }

  /** The group will come back to the stream: it is suspended itself, or it could not reach some
      member when it opened again. */
  predicate Minded(s: State, b: nat, d: Dir)
    requires b in s.streams
  {
    var x := s.streams[b];
    x.group.Some? && x.group.value in s.groups &&
    (Closed(s.groups[x.group.value], d) || Pending(s.groups[x.group.value], d))
  }

  ghost predicate SideMinded(s: State, b: nat, d: Dir)
    requires b in s.streams
  {
    var x := s.streams[b];
    (Flagged(x.flow, d, GroupBandwidth) ==> Minded(s, b, d) || x.doing.Leaving?) &&
    (Owes(x.doing, d) ==> Minded(s, b, d))
  }

  ghost predicate StreamOk(s: State, b: nat) {
    b in s.streams ==>
      var x := s.streams[b];
      FlowOk(x.flow) && FlowFits(x.flow) && SideMinded(s, b, Read) && SideMinded(s, b, Write) &&
      (x.group.Some? ==> x.group.value in s.groups && b in s.groups[x.group.value].members) &&
      (x.doing.Leaving? ==> x.group.None?) && (!x.doing.Idle? ==> x.holder.Some?)
  }

  ghost predicate MemberOk(s: State, g: nat, b: nat) {
    b in s.streams && s.streams[b].group == Some(g)
  }

  /** A group that will come back to some members is open, and its limits are 64-bit numbers. */
  predicate GroupFits(g: Group) {
    (g.pendingRead ==> !g.readSuspended) && (g.pendingWrite ==> !g.writeSuspended) &&
    CfgOk(g.cfg) && Fits(g.limits.read) && Fits(g.limits.write)
  }

  ghost predicate GroupOk(s: State, g: nat) {
    g in s.groups ==>
      (forall i, j :: 0 <= i < j < |s.groups[g].members| ==> s.groups[g].members[i] != s.groups[g].members[j]) &&
      (forall b {:trigger MemberOk(s, g, b)} :: b in s.groups[g].members ==> MemberOk(s, g, b)) &&
      GroupFits(s.groups[g])
  }

  ghost predicate Inv(s: State) {
    (forall b {:trigger StreamOk(s, b)} :: StreamOk(s, b)) &&
    forall g {:trigger GroupOk(s, g)} :: GroupOk(s, g)
  }

  // ---------------------------------------------------------------- what a group does

  /** The group tries to reach every member, and reaches those in `got`
      (libevent/bufferevent_ratelim.c:351-391 and 486-522). */
  function Reached(s: State, g: nat, d: Dir, got: set<nat>, closing: bool): map<nat, Stream>
    requires g in s.groups
  {
    map b | b in s.streams ::
      if b in s.groups[g].members && b in got
      then s.streams[b].(flow := Toggled(s.streams[b].flow, d, GroupBandwidth, closing))
      else s.streams[b]
  }

  predicate Missed(g: Group, got: set<nat>) {
    exists i :: 0 <= i < |g.members| && g.members[i] !in got
  }

  function Swept(s: State, g: nat, d: Dir, got: set<nat>, closing: bool): State
    requires g in s.groups
  {
    State(Reached(s, g, d, got, closing),
          s.groups[g := WithFlags(s.groups[g], d, closing, !closing && Missed(s.groups[g], got))])
  }

  function WithLimits(s: State, g: nat, limits: Limits): State
    requires g in s.groups
  {
    s.(groups := s.groups[g := s.groups[g].(limits := limits)])
  }

  /** The group's bucket pays, and the group closes or opens
      (libevent/bufferevent_ratelim.c:298-306). */
  function GroupCharged(s: State, g: nat, d: Dir, bytes: int, got: set<nat>): State
    requires g in s.groups
  {
    var left := LimitOf(s.groups[g].limits, d) - bytes;
    var r := WithLimits(s, g, WithLimit(s.groups[g].limits, d, left));
    if left <= 0 then Swept(r, g, d, got, true)
    else if Closed(s.groups[g], d) then Swept(r, g, d, got, false)
    else r
  }

  /** The user takes tokens from the group, or gives some back
      (libevent/bufferevent_ratelim.c:956-994). */
  function GroupAdjusted(s: State, g: nat, d: Dir, decr: int, got: set<nat>): State
    requires g in s.groups
  {
    var was := LimitOf(s.groups[g].limits, d);
    var left := was - decr;
    var r := WithLimits(s, g, WithLimit(s.groups[g].limits, d, left));
    if was > 0 && left <= 0 then Swept(r, g, d, got, true)
    else if was <= 0 && left > 0 then Swept(r, g, d, got, false)
    else r
  }

  function Reopened(s: State, g: nat, d: Dir, got: set<nat>): State
    requires g in s.groups
  {
    if Pending(s.groups[g], d) || (Closed(s.groups[g], d) && LimitOf(s.groups[g].limits, d) >= s.groups[g].minShare)
    then Swept(s, g, d, got, false) else s
  }

  /** The refill callback of the group (libevent/bufferevent_ratelim.c:527-556). */
  function GroupCalledBack(s: State, g: nat, tick: nat, got: set<nat>, gotWrite: set<nat>): State
    requires g in s.groups
  {
    var r := WithLimits(s, g, Refilled(s.groups[g].limits, s.groups[g].cfg, tick));
    Reopened(Reopened(r, g, Read, got), g, Write, gotWrite)
  }

  /** The smallest share of a group: no more than what comes in with one tick. */
  function ShareFor(share: nat, c: Cfg): (r: nat)
    ensures r <= share && r <= c.readRate && r <= c.writeRate && (r == share || r == c.readRate || r == c.writeRate)
  {
    var least := if share > c.readRate then c.readRate else share;
    if least > c.writeRate then c.writeRate else least
  }

  /** A new configuration of a group, which only clips its bucket, and a new smallest share
      (libevent/bufferevent_ratelim.c:667-718). */
  function GroupConfigured(s: State, g: nat, cfg: Option<Cfg>, share: nat): State
    requires g in s.groups
  {
    var x := s.groups[g];
    var c := if cfg.Some? then cfg.value else x.cfg;
    var limits := if cfg.Some? then Initialised(x.limits, c, 0, true) else x.limits;
    s.(groups := s.groups[g := x.(cfg := c, limits := limits, minShare := ShareFor(share, c))])
  }

  // ---------------------------------------------------------------- the steps

  /** What a thread that holds the lock of a stream does to it alone. */
  datatype Act =
    | SetLimit(cfg: Option<Cfg>, tick: nat)
    | Charge(d: Dir, bytes: int)
    | Adjust(d: Dir, bytes: int)
    | CallBack(tick: nat)
    | Refresh(tick: nat)
    | Other(d: Dir, what: Reason, on: bool)
    | Enable(d: Dir, on: bool)

  /** The timer fires without a lock; everything else is done by a thread that holds the lock of
      the stream, or of the group. */
  datatype Step =
    | Lock(b: nat)
    | Unlock(b: nat)
    | Fire(b: nat)
    | OnFlow(b: nat, act: Act)
    | AskGroup(b: nat, d: Dir)
    | Join(b: nat, g: nat)
    | FinishJoin(b: nat)
    | Leave(b: nat)
    | FinishLeave(b: nat)
    | ChargeGroup(g: nat, d: Dir, bytes: int, got: set<nat>)
    | AdjustGroup(g: nat, d: Dir, bytes: int, got: set<nat>)
    | CallBackGroup(g: nat, tick: nat, got: set<nat>, gotWrite: set<nat>)
    | ConfigureGroup(g: nat, groupCfg: Option<Cfg>, share: nat)

  /** A limit must stay a 64-bit number: the source computes it with signed integers. */
  predicate FlowCan(f: Flow, act: Act) {
    match act
    case SetLimit(cfg, _) => cfg.Some? ==> CfgOk(cfg.value)
    case Charge(d, bytes) => f.cfg.Some? ==> Fits(LimitOf(f.bucket, d) - bytes)
    case Adjust(d, bytes) => f.cfg.Some? && Fits(LimitOf(f.bucket, d) - bytes)
    case CallBack(_) => f.running
    case Refresh(_) => true
    case Other(_, what, _) => what != Bandwidth && what != GroupBandwidth
    case Enable(_, _) => true
  }

  function FlowAfter(f: Flow, act: Act): Flow {
    match act
    case SetLimit(cfg, tick) => Configured(f, cfg, tick)
    case Charge(d, bytes) => Charged(f, d, bytes)
    case Adjust(d, bytes) => Adjusted(f, d, bytes)
    case CallBack(tick) => CalledBack(f, tick)
    case Refresh(tick) => Refreshed(f, tick)
    case Other(d, what, on) => Toggled(f, d, what, on)
    case Enable(d, on) => WithSide(f, d, SideOf(f, d).(enabled := on))
  }

  lemma {:induction false} FlowAfterKeeps(f: Flow, act: Act)
    requires FlowOk(f) && FlowCan(f, act)
    ensures FlowOk(FlowAfter(f, act)) && SameGroupFlags(f, FlowAfter(f, act))
  {
    match act {
      case SetLimit(cfg, tick) => ConfiguredKeeps(f, cfg, tick);
      case Charge(d, bytes) => ChargedKeeps(f, d, bytes);
      case Adjust(d, bytes) => AdjustedKeeps(f, d, bytes);
      case CallBack(tick) => CalledBackKeeps(f, tick);
      case _ =>
    }
  }

  lemma {:induction false} FlowAfterFits(f: Flow, act: Act)
    requires FlowFits(f) && FlowCan(f, act)
    ensures FlowFits(FlowAfter(f, act))
  {
    if f.cfg.Some? && (act.CallBack? || act.Refresh?) {
      RefilledHasSize(f.bucket, f.cfg.value, act.tick);
    }
  }

  /** Of all that happens to a stream, only an update can leave an exhausted bucket behind whose
      side is not suspended. */
  lemma {:induction false} FlowAfterHolds(f: Flow, act: Act, d: Dir)
    requires FlowOk(f) && FlowFits(f) && FlowHolds(f, d) && FlowCan(f, act)
    ensures FlowHolds(FlowAfter(f, act), d) <==> (act.CallBack? || act.Refresh? ==> FlowSpares(f, act.tick, d))
  {
    match act {
      case SetLimit(cfg, tick) => ConfiguredKeeps(f, cfg, tick);
      case Charge(e, bytes) => ChargedKeeps(f, e, bytes);
      case Adjust(e, bytes) => AdjustedKeeps(f, e, bytes);
      case CallBack(tick) => RefillHolds(f, tick, d);
      case Refresh(tick) => RefillHolds(f, tick, d);
      case Other(_, _, _) =>
      case Enable(_, _) =>
    }
  }

  predicate HoldsLock(s: State, t: nat, b: nat) {
    b in s.streams && s.streams[b].holder == Some(t)
  }

  /** The thread is not in the middle of joining or leaving. */
  predicate Ready(s: State, t: nat) {
    forall b :: b in s.streams && s.streams[b].holder == Some(t) ==> s.streams[b].doing.Idle?
  }

  /** The members that can be reached: nobody else holds their locks.  A thread may take a lock
      again that it holds. */
  predicate Reachable(s: State, t: nat, got: set<nat>) {
    forall b :: b in got && b in s.streams ==> s.streams[b].holder == None || s.streams[b].holder == Some(t)
  }

  /** The stream looks at its group while it asks how much it may move
      (libevent/bufferevent_ratelim.c:229-252). */
  function Asked(s: State, b: nat, d: Dir): Flow
    requires b in s.streams
  {
    var x := s.streams[b];
    if x.group.Some? && x.group.value in s.groups && Closed(s.groups[x.group.value], d)
    then Toggled(x.flow, d, GroupBandwidth, true) else x.flow
  }

  /** When the thread can take the step. */
  predicate Can(s: State, t: nat, step: Step) {
    match step
    case Lock(b) => b in s.streams && s.streams[b].holder == None
    case Unlock(b) => Ready(s, t) && HoldsLock(s, t, b)
    case Fire(b) => b in s.streams && s.streams[b].flow.timer && !s.streams[b].flow.running
    case OnFlow(b, act) => Ready(s, t) && HoldsLock(s, t, b) && FlowCan(s.streams[b].flow, act)
    case AskGroup(b, _) => Ready(s, t) && HoldsLock(s, t, b)
    case Join(b, g) => Ready(s, t) && HoldsLock(s, t, b) && g in s.groups && s.streams[b].group.None?
    case FinishJoin(b) => HoldsLock(s, t, b) && s.streams[b].doing.Joining?
    case Leave(b) =>
      Ready(s, t) && HoldsLock(s, t, b) && s.streams[b].group.Some? && s.streams[b].group.value in s.groups
    case FinishLeave(b) => HoldsLock(s, t, b) && s.streams[b].doing.Leaving?
    case ChargeGroup(g, d, bytes, got) =>
      Ready(s, t) && g in s.groups && Reachable(s, t, got) && Fits(LimitOf(s.groups[g].limits, d) - bytes)
    case AdjustGroup(g, d, bytes, got) =>
      Ready(s, t) && g in s.groups && Reachable(s, t, got) && Fits(LimitOf(s.groups[g].limits, d) - bytes)
    case CallBackGroup(g, _, got, gotWrite) =>
      Ready(s, t) && g in s.groups && Reachable(s, t, got) && Reachable(s, t, gotWrite)
    case ConfigureGroup(g, cfg, _) => Ready(s, t) && g in s.groups && (cfg.Some? ==> CfgOk(cfg.value))
  }

  function WithFlow(s: State, b: nat, f: Flow): State
    requires b in s.streams
  {
    s.(streams := s.streams[b := s.streams[b].(flow := f)])
  }

  function Removed(members: seq<nat>, b: nat): seq<nat> {
    if members == [] then [] else if members[0] == b then members[1..] else [members[0]] + Removed(members[1..], b)
  }

  /** The stream becomes a member, and the thread reads the group's flags
      (libevent/bufferevent_ratelim.c:759-767). */
  function Joined(s: State, b: nat, g: nat): State
    requires b in s.streams && g in s.groups
  {
    var x := s.groups[g];
    State(s.streams[b := s.streams[b].(group := Some(g), doing := Joining(x.readSuspended, x.writeSuspended))],
          s.groups[g := x.(members := x.members + [b])])
  }

  /** The thread suspends the stream for the flags it has read
      (libevent/bufferevent_ratelim.c:769-772). */
  function JoinFinished(s: State, b: nat): State
    requires b in s.streams
  {
    var x := s.streams[b];
    var f := if Owes(x.doing, Read) then Toggled(x.flow, Read, GroupBandwidth, true) else x.flow;
    var h := if Owes(x.doing, Write) then Toggled(f, Write, GroupBandwidth, true) else f;
    s.(streams := s.streams[b := x.(flow := h, doing := Idle)])
  }

  /** The stream is no member any more (libevent/bufferevent_ratelim.c:791-799). */
  function Left(s: State, b: nat): State
    requires b in s.streams && s.streams[b].group.Some? && s.streams[b].group.value in s.groups
  {
    var g := s.streams[b].group.value;
    State(s.streams[b := s.streams[b].(group := None, doing := Leaving)],
          s.groups[g := s.groups[g].(members := Removed(s.groups[g].members, b))])
  }

  /** Its flags are cleared (libevent/bufferevent_ratelim.c:800-803). */
  function LeaveFinished(s: State, b: nat): State
    requires b in s.streams
  {
    var x := s.streams[b];
    var f := Toggled(Toggled(x.flow, Read, GroupBandwidth, false), Write, GroupBandwidth, false);
    s.(streams := s.streams[b := x.(flow := f, doing := Idle)])
  }

  function Next(s: State, t: nat, step: Step): State
    requires Can(s, t, step)
  {
    match step
    case Lock(b) => s.(streams := s.streams[b := s.streams[b].(holder := Some(t))])
    case Unlock(b) => s.(streams := s.streams[b := s.streams[b].(holder := None)])
    case Fire(b) => WithFlow(s, b, s.streams[b].flow.(timer := false, running := true))
    case OnFlow(b, act) => WithFlow(s, b, FlowAfter(s.streams[b].flow, act))
    case AskGroup(b, d) => WithFlow(s, b, Asked(s, b, d))
    case Join(b, g) => Joined(s, b, g)
    case FinishJoin(b) => JoinFinished(s, b)
    case Leave(b) => Left(s, b)
    case FinishLeave(b) => LeaveFinished(s, b)
    case ChargeGroup(g, d, bytes, got) => GroupCharged(s, g, d, bytes, got)
    case AdjustGroup(g, d, bytes, got) => GroupAdjusted(s, g, d, bytes, got)
    case CallBackGroup(g, tick, got, gotWrite) => GroupCalledBack(s, g, tick, got, gotWrite)
    case ConfigureGroup(g, cfg, share) => GroupConfigured(s, g, cfg, share)
  }

  // ---------------------------------------------------------------- every step keeps the invariant

  /** The flow of a stream changes, and nothing of the group's is set that the group does not know. */
  lemma {:induction false} FlowKeeps(s: State, b: nat, f: Flow)
    requires Inv(s) && b in s.streams && FlowOk(f) && FlowFits(f)
    requires Flagged(f, Read, GroupBandwidth) ==> Flagged(s.streams[b].flow, Read, GroupBandwidth) || Minded(s, b, Read)
    requires Flagged(f, Write, GroupBandwidth) ==>
             Flagged(s.streams[b].flow, Write, GroupBandwidth) || Minded(s, b, Write)
    ensures Inv(WithFlow(s, b, f))
  {
    var r := WithFlow(s, b, f);
    forall c ensures StreamOk(r, c) { assert StreamOk(s, c) && StreamOk(s, b); }
    forall g ensures GroupOk(r, g) {
      assert GroupOk(s, g);
      forall c | g in s.groups && c in s.groups[g].members ensures MemberOk(r, g, c) { assert MemberOk(s, g, c); }
    }
  }

  lemma {:induction false} HolderKeeps(s: State, b: nat, holder: Option<nat>)
    requires Inv(s) && b in s.streams && (s.streams[b].doing.Idle? || holder.Some?)
    ensures Inv(s.(streams := s.streams[b := s.streams[b].(holder := holder)]))
  {
    var r := s.(streams := s.streams[b := s.streams[b].(holder := holder)]);
    forall c ensures StreamOk(r, c) { assert StreamOk(s, c) && StreamOk(s, b); }
    forall g ensures GroupOk(r, g) {
      assert GroupOk(s, g);
      forall c | g in s.groups && c in s.groups[g].members ensures MemberOk(r, g, c) { assert MemberOk(s, g, c); }
    }
  }

  lemma {:induction false} LimitsKeep(s: State, g: nat, limits: Limits)
    requires Inv(s) && g in s.groups && Fits(limits.read) && Fits(limits.write)
    ensures Inv(WithLimits(s, g, limits))
  {
    var r := WithLimits(s, g, limits);
    forall c ensures StreamOk(r, c) { assert StreamOk(s, c); }
    forall h ensures GroupOk(r, h) {
      assert GroupOk(s, h);
      forall c | h in s.groups && c in s.groups[h].members ensures MemberOk(r, h, c) { assert MemberOk(s, h, c); }
    }
  }

  /** Closing or opening a group, whichever members it reaches: those that it could not reach
      find out by themselves, or it will come back to them. */
  lemma {:induction false} SweptKeeps(s: State, g: nat, limits: Limits, d: Dir, got: set<nat>, closing: bool)
    requires Inv(s) && g in s.groups && (forall b :: b in got && b in s.streams ==> s.streams[b].doing.Idle?)
    requires Fits(limits.read) && Fits(limits.write)
    ensures Inv(Swept(WithLimits(s, g, limits), g, d, got, closing))
  {
    var r := Swept(WithLimits(s, g, limits), g, d, got, closing);
    forall h ensures GroupOk(r, h) {
      assert GroupOk(s, h);
      forall c | h in s.groups && c in s.groups[h].members ensures MemberOk(r, h, c) { assert MemberOk(s, h, c); }
    }
    forall c ensures StreamOk(r, c) { SweptStream(s, g, limits, d, got, closing, c); }
  }

  lemma {:induction false} SweptStream(s: State, g: nat, limits: Limits, d: Dir, got: set<nat>, closing: bool, b: nat)
    requires Inv(s) && g in s.groups && (b in got && b in s.streams ==> s.streams[b].doing.Idle?)
    ensures StreamOk(Swept(WithLimits(s, g, limits), g, d, got, closing), b)
  {
    var r := Swept(WithLimits(s, g, limits), g, d, got, closing);
    assert StreamOk(s, b) && GroupOk(s, g);
    if b in s.streams && b in s.groups[g].members {
      assert MemberOk(s, g, b);
      if b !in got { assert Missed(s.groups[g], got); }
    }
  }

  lemma {:induction false} RemovedHas(members: seq<nat>, b: nat)
    requires forall i, j :: 0 <= i < j < |members| ==> members[i] != members[j]
    ensures var r := Removed(members, b);
      (forall c :: c in r <==> c in members && c != b) && forall i, j :: 0 <= i < j < |r| ==> r[i] != r[j]
  {
    if members != [] {
      var rest := members[1..];
      RemovedHas(rest, b);
      assert members == [members[0]] + rest;
      assert members[0] !in rest by { assert forall i :: 0 <= i < |rest| ==> rest[i] == members[i + 1]; }
    }
  }

  lemma {:induction false} JoinedKeeps(s: State, t: nat, b: nat, g: nat)
    requires Inv(s) && Can(s, t, Join(b, g))
    ensures Inv(Joined(s, b, g))
  {
    var r := Joined(s, b, g);
    assert StreamOk(s, b);
    forall c ensures StreamOk(r, c) { assert StreamOk(s, c); }
    forall h ensures GroupOk(r, h) {
      assert GroupOk(s, h);
      assert b in s.groups[g].members ==> MemberOk(s, g, b) by { assert GroupOk(s, g); }
      forall c | h in r.groups && c in r.groups[h].members ensures MemberOk(r, h, c) {
        if h in s.groups && c in s.groups[h].members { assert MemberOk(s, h, c); }
      }
    }
  }

  lemma {:induction false} JoinFinishedKeeps(s: State, t: nat, b: nat)
    requires Inv(s) && Can(s, t, FinishJoin(b))
    ensures Inv(JoinFinished(s, b))
  {
    var r := JoinFinished(s, b);
    forall c ensures StreamOk(r, c) { assert StreamOk(s, c) && StreamOk(s, b); }
    forall h ensures GroupOk(r, h) {
      assert GroupOk(s, h);
      forall c | h in s.groups && c in s.groups[h].members ensures MemberOk(r, h, c) { assert MemberOk(s, h, c); }
    }
  }

  lemma {:induction false} LeftKeeps(s: State, t: nat, b: nat)
    requires Inv(s) && Can(s, t, Leave(b))
    ensures Inv(Left(s, b))
  {
    var r := Left(s, b);
    var g := s.streams[b].group.value;
    assert GroupOk(s, g) && StreamOk(s, b);
    RemovedHas(s.groups[g].members, b);
    forall c ensures StreamOk(r, c) { assert StreamOk(s, c); }
    forall h ensures GroupOk(r, h) {
      assert GroupOk(s, h);
      forall c | h in r.groups && c in r.groups[h].members ensures MemberOk(r, h, c) {
        assert MemberOk(s, h, c);
        assert MemberOk(s, h, b) ==> h == g;
      }
    }
  }

  lemma {:induction false} LeaveFinishedKeeps(s: State, t: nat, b: nat)
    requires Inv(s) && Can(s, t, FinishLeave(b))
    ensures Inv(LeaveFinished(s, b))
  {
    var r := LeaveFinished(s, b);
    forall c ensures StreamOk(r, c) { assert StreamOk(s, c) && StreamOk(s, b); }
    forall h ensures GroupOk(r, h) {
      assert GroupOk(s, h);
      forall c | h in s.groups && c in s.groups[h].members ensures MemberOk(r, h, c) { assert MemberOk(s, h, c); }
    }
  }

  /** The members that a thread can reach are not in the middle of anything. */
  lemma {:induction false} ReachableIdle(s: State, t: nat, got: set<nat>)
    requires Inv(s) && Ready(s, t) && Reachable(s, t, got)
    ensures forall b :: b in got && b in s.streams ==> s.streams[b].doing.Idle?
  {
    forall b | b in got && b in s.streams ensures s.streams[b].doing.Idle? { assert StreamOk(s, b); }
  }

  lemma {:induction false} GroupChargedKeeps(s: State, t: nat, g: nat, d: Dir, bytes: int, got: set<nat>)
    requires Inv(s) && Can(s, t, ChargeGroup(g, d, bytes, got))
    ensures Inv(GroupCharged(s, g, d, bytes, got))
  {
    ReachableIdle(s, t, got);
    assert GroupOk(s, g);
    var left := LimitOf(s.groups[g].limits, d) - bytes;
    var limits := WithLimit(s.groups[g].limits, d, left);
    if left <= 0 {
      SweptKeeps(s, g, limits, d, got, true);
    } else if Closed(s.groups[g], d) {
      SweptKeeps(s, g, limits, d, got, false);
    } else {
      LimitsKeep(s, g, limits);
    }
  }

  lemma {:induction false} GroupAdjustedKeeps(s: State, t: nat, g: nat, d: Dir, decr: int, got: set<nat>)
    requires Inv(s) && Can(s, t, AdjustGroup(g, d, decr, got))
    ensures Inv(GroupAdjusted(s, g, d, decr, got))
  {
    ReachableIdle(s, t, got);
    assert GroupOk(s, g);
    var was := LimitOf(s.groups[g].limits, d);
    var left := was - decr;
    var limits := WithLimit(s.groups[g].limits, d, left);
    if was > 0 && left <= 0 {
      SweptKeeps(s, g, limits, d, got, true);
    } else if was <= 0 && left > 0 {
      SweptKeeps(s, g, limits, d, got, false);
    } else {
      LimitsKeep(s, g, limits);
    }
  }

  lemma {:induction false} ReopenedKeeps(s: State, g: nat, d: Dir, got: set<nat>)
    requires Inv(s) && g in s.groups && (forall b :: b in got && b in s.streams ==> s.streams[b].doing.Idle?)
    ensures Inv(Reopened(s, g, d, got))
    ensures var r := Reopened(s, g, d, got);
      r.streams.Keys == s.streams.Keys && r.groups.Keys == s.groups.Keys &&
      forall b :: b in s.streams ==>
        r.streams[b].doing == s.streams[b].doing && r.streams[b].holder == s.streams[b].holder
  {
    assert GroupOk(s, g);
    if Pending(s.groups[g], d) || (Closed(s.groups[g], d) && LimitOf(s.groups[g].limits, d) >= s.groups[g].minShare) {
      SweptKeeps(s, g, s.groups[g].limits, d, got, false);
      assert WithLimits(s, g, s.groups[g].limits) == s;
    }
  }

  lemma {:induction false} GroupCalledBackKeeps(s: State, t: nat, g: nat, tick: nat, got: set<nat>, gotWrite: set<nat>)
    requires Inv(s) && Can(s, t, CallBackGroup(g, tick, got, gotWrite))
    ensures Inv(GroupCalledBack(s, g, tick, got, gotWrite))
  {
    ReachableIdle(s, t, got);
    ReachableIdle(s, t, gotWrite);
    assert GroupOk(s, g);
    var limits := Refilled(s.groups[g].limits, s.groups[g].cfg, tick);
    RefilledHasSize(s.groups[g].limits, s.groups[g].cfg, tick);
    LimitsKeep(s, g, limits);
    var r := WithLimits(s, g, limits);
    ReopenedKeeps(r, g, Read, got);
    ReopenedKeeps(Reopened(r, g, Read, got), g, Write, gotWrite);
  }

  lemma {:induction false} GroupConfiguredKeeps(s: State, t: nat, g: nat, cfg: Option<Cfg>, share: nat)
    requires Inv(s) && Can(s, t, ConfigureGroup(g, cfg, share))
    ensures Inv(GroupConfigured(s, g, cfg, share))
  {
    var r := GroupConfigured(s, g, cfg, share);
    forall c ensures StreamOk(r, c) { assert StreamOk(s, c); }
    forall h ensures GroupOk(r, h) {
      assert GroupOk(s, h);
      forall c | h in s.groups && c in s.groups[h].members ensures MemberOk(r, h, c) { assert MemberOk(s, h, c); }
    }
  }

  lemma {:induction false} FlowStepKeeps(s: State, t: nat, step: Step)
    requires Inv(s) && Can(s, t, step) && (step.Fire? || step.OnFlow? || step.AskGroup?)
    ensures Inv(Next(s, t, step))
  {
    var b := step.b;
    var f := s.streams[b].flow;
    assert StreamOk(s, b);
    if step.OnFlow? {
      FlowAfterKeeps(f, step.act);
      FlowAfterFits(f, step.act);
      assert Flagged(FlowAfter(f, step.act), Read, GroupBandwidth) == Flagged(f, Read, GroupBandwidth);
      assert Flagged(FlowAfter(f, step.act), Write, GroupBandwidth) == Flagged(f, Write, GroupBandwidth);
      FlowKeeps(s, b, FlowAfter(f, step.act));
    } else if step.Fire? {
      FlowKeeps(s, b, f.(timer := false, running := true));
    } else {
      FlowKeeps(s, b, Asked(s, b, step.d));
    }
  }

  /** Every step of every thread keeps the invariant. */
  lemma {:induction false} StepKeeps(s: State, t: nat, step: Step)
    requires Inv(s) && Can(s, t, step)
    ensures Inv(Next(s, t, step))
  {
    match step {
      case Lock(b) => HolderKeeps(s, b, Some(t));
      case Unlock(b) => HolderKeeps(s, b, None);
      case Join(b, g) => JoinedKeeps(s, t, b, g);
      case FinishJoin(b) => JoinFinishedKeeps(s, t, b);
      case Leave(b) => LeftKeeps(s, t, b);
      case FinishLeave(b) => LeaveFinishedKeeps(s, t, b);
      case ChargeGroup(g, d, bytes, got) => GroupChargedKeeps(s, t, g, d, bytes, got);
      case AdjustGroup(g, d, bytes, got) => GroupAdjustedKeeps(s, t, g, d, bytes, got);
      case CallBackGroup(g, tick, got, gotWrite) => GroupCalledBackKeeps(s, t, g, tick, got, gotWrite);
      case ConfigureGroup(g, cfg, share) => GroupConfiguredKeeps(s, t, g, cfg, share);
      case _ => FlowStepKeeps(s, t, step);
    }
  }

  // ---------------------------------------------------------------- runs

  datatype Move = Move(thread: nat, step: Step)

  /** Every step of the run can be taken when its turn comes. */
  ghost predicate IsRun(s: State, moves: seq<Move>)
    decreases |moves|
  {
    moves != [] ==> Can(s, moves[0].thread, moves[0].step) && IsRun(Next(s, moves[0].thread, moves[0].step), moves[1..])
  }

  ghost function After(s: State, moves: seq<Move>): State
    requires IsRun(s, moves)
    decreases |moves|
  {
    if moves == [] then s else After(Next(s, moves[0].thread, moves[0].step), moves[1..])
  }

  lemma {:induction false} RunKeeps(s: State, moves: seq<Move>)
    requires Inv(s) && IsRun(s, moves)
    ensures Inv(After(s, moves))
    decreases |moves|
  {
    if moves != [] {
      StepKeeps(s, moves[0].thread, moves[0].step);
      RunKeeps(Next(s, moves[0].thread, moves[0].step), moves[1..]);
    }
  }

  /** No streams are limited, and no group is suspended. */
  ghost predicate Initial(s: State) {
    (forall b :: b in s.streams ==>
       s.streams[b].flow.cfg.None? && !s.streams[b].flow.timer && !s.streams[b].flow.running &&
       !Flagged(s.streams[b].flow, Read, Bandwidth) && !Flagged(s.streams[b].flow, Write, Bandwidth) &&
       !Flagged(s.streams[b].flow, Read, GroupBandwidth) && !Flagged(s.streams[b].flow, Write, GroupBandwidth) &&
       s.streams[b].group.None? && s.streams[b].doing.Idle?) &&
    forall g :: g in s.groups ==>
      s.groups[g].members == [] && s.groups[g].limits.read > 0 && s.groups[g].limits.write > 0 &&
      BucketFits(s.groups[g].limits, s.groups[g].cfg) &&
      !s.groups[g].readSuspended && !s.groups[g].writeSuspended && !s.groups[g].pendingRead && !s.groups[g].pendingWrite
  }

  lemma {:induction false} InitialIsOk(s: State)
    requires Initial(s)
    ensures Inv(s)
  {
    forall b ensures StreamOk(s, b) {}
    forall g ensures GroupOk(s, g) {}
  }

  /** What brings a side back that is suspended for bandwidth alone. */
  ghost predicate WillComeBack(s: State, b: nat, d: Dir)
    requires b in s.streams
  {
    var x := s.streams[b];
    (Flagged(x.flow, d, Bandwidth) && (x.flow.timer || x.flow.running)) ||
    (Flagged(x.flow, d, GroupBandwidth) && (Minded(s, b, d) || x.doing.Leaving?))
  }

  /** No stream is ever stranded: at every moment of every run, whichever locks could be taken, a
      side that the user wants moves data, or is suspended for a reason other than bandwidth, or
      there is a timer, a callback, a suspended group, a pending group or a thread that will
      come back to it. */
  lemma {:induction false} NeverStranded(s: State, moves: seq<Move>, b: nat, d: Dir)
    requires Initial(s) && IsRun(s, moves) && b in After(s, moves).streams
    ensures var x := SideOf(After(s, moves).streams[b].flow, d);
      x.enabled ==> Live(x) || WillComeBack(After(s, moves), b, d) ||
                    Watermark in x.suspended || Lookup in x.suspended || FilterRead in x.suspended
  {
    InitialIsOk(s);
    RunKeeps(s, moves);
    var r := After(s, moves);
    assert StreamOk(r, b);
    var x := SideOf(r.streams[b].flow, d);
    if x.suspended != {} {
      var why :| why in x.suspended;
      assert why.Watermark? || why.Bandwidth? || why.GroupBandwidth? || why.Lookup? || why.FilterRead?;
    }
  }

  // ---------------------------------------------------------------- exhausted buckets

  /** A bucket of a stream or of a group. */
  datatype Owner = OfStream(id: nat) | OfGroup(id: nat)

  predicate GroupHolds(g: Group, d: Dir) {
    LimitOf(g.limits, d) <= 0 ==> Closed(g, d)
  }

  /** An exhausted bucket suspends its stream, or closes its group. */
  predicate Holds(s: State, who: Owner, d: Dir) {
    match who
    case OfStream(b) => b in s.streams ==> FlowHolds(s.streams[b].flow, d)
    case OfGroup(g) => g in s.groups ==> GroupHolds(s.groups[g], d)
  }

  /** A group without a smallest share opens with nothing in its bucket. */
  predicate OpensEmpty(g: Group, tick: nat, d: Dir) {
    Closed(g, d) && g.minShare == 0 && LimitOf(Refilled(g.limits, g.cfg, tick), d) == 0
  }

  predicate GroupSpares(g: Group, tick: nat, d: Dir) {
    (Closed(g, d) || Spares(g.limits, g.cfg, tick, d)) && !OpensEmpty(g, tick, d)
  }

  /** The step does not overflow the bucket with a refill, or open the group with nothing in it. */
  predicate StepSpares(s: State, step: Step, who: Owner, d: Dir) {
    match who
    case OfStream(b) =>
      step.OnFlow? && step.b == b && b in s.streams && (step.act.CallBack? || step.act.Refresh?) ==>
        FlowSpares(s.streams[b].flow, step.act.tick, d)
    case OfGroup(g) =>
      step.CallBackGroup? && step.g == g && g in s.groups ==> GroupSpares(s.groups[g], step.tick, d)
  }

  /** Nothing that has to do with the bucket of the stream changes. */
  predicate SameBudget(f: Flow, r: Flow) {
    r.cfg == f.cfg && r.bucket == f.bucket && forall d: Dir :: Flagged(r, d, Bandwidth) == Flagged(f, d, Bandwidth)
  }

  lemma {:induction false} SweptBudget(s: State, g: nat, d: Dir, got: set<nat>, closing: bool, b: nat)
    requires g in s.groups && b in s.streams
    ensures var r := Swept(s, g, d, got, closing); b in r.streams && SameBudget(s.streams[b].flow, r.streams[b].flow)
  {
  }

  lemma {:induction false} CalledBackBudget(s: State, g: nat, tick: nat, got: set<nat>, gotWrite: set<nat>, b: nat)
    requires g in s.groups && b in s.streams
    ensures var r := GroupCalledBack(s, g, tick, got, gotWrite);
      b in r.streams && SameBudget(s.streams[b].flow, r.streams[b].flow)
  {
    var r := WithLimits(s, g, Refilled(s.groups[g].limits, s.groups[g].cfg, tick));
    SweptBudget(r, g, Read, got, false, b);
    SweptBudget(Reopened(r, g, Read, got), g, Write, gotWrite, false, b);
  }

  lemma {:induction false} ChargedBudget(s: State, g: nat, d: Dir, bytes: int, got: set<nat>, b: nat)
    requires g in s.groups && b in s.streams
    ensures var r := GroupCharged(s, g, d, bytes, got);
      b in r.streams && SameBudget(s.streams[b].flow, r.streams[b].flow)
  {
    var r := WithLimits(s, g, WithLimit(s.groups[g].limits, d, LimitOf(s.groups[g].limits, d) - bytes));
    SweptBudget(r, g, d, got, true, b);
    SweptBudget(r, g, d, got, false, b);
  }

  lemma {:induction false} AdjustedBudget(s: State, g: nat, d: Dir, decr: int, got: set<nat>, b: nat)
    requires g in s.groups && b in s.streams
    ensures var r := GroupAdjusted(s, g, d, decr, got);
      b in r.streams && SameBudget(s.streams[b].flow, r.streams[b].flow)
  {
    var r := WithLimits(s, g, WithLimit(s.groups[g].limits, d, LimitOf(s.groups[g].limits, d) - decr));
    SweptBudget(r, g, d, got, true, b);
    SweptBudget(r, g, d, got, false, b);
  }

  /** What a step does to the bucket of a stream. */
  lemma {:induction false} BudgetAfter(s: State, t: nat, step: Step, b: nat)
    requires Can(s, t, step) && b in s.streams
    ensures b in Next(s, t, step).streams
    ensures var f, r := s.streams[b].flow, Next(s, t, step).streams[b].flow;
      if step.OnFlow? && step.b == b then r == FlowAfter(f, step.act) else SameBudget(f, r)
  {
    match step {
      case ChargeGroup(g, d, bytes, got) => ChargedBudget(s, g, d, bytes, got, b);
      case AdjustGroup(g, d, bytes, got) => AdjustedBudget(s, g, d, bytes, got, b);
      case CallBackGroup(g, tick, got, gotWrite) => CalledBackBudget(s, g, tick, got, gotWrite, b);
      case _ =>
    }
  }

  /** What a step does to the bucket of a group. */
  predicate LimitsStep(f: Group, r: Group, step: Step, mine: bool, d: Dir) {
    if mine && step.ConfigureGroup? then
      Closed(r, d) == Closed(f, d) && r.minShare == ShareFor(step.share, r.cfg) &&
      if step.groupCfg.Some? then
        r.cfg == step.groupCfg.value && LimitOf(r.limits, d) == Min(LimitOf(f.limits, d), MaximumOf(r.cfg, d))
      else r.cfg == f.cfg && r.limits == f.limits
    else
      r.cfg == f.cfg && r.minShare == f.minShare &&
      if mine && step.CallBackGroup? then
        r.limits == Refilled(f.limits, f.cfg, step.tick) &&
        (Closed(r, d) <==> Closed(f, d) && !Pending(f, d) && LimitOf(r.limits, d) < f.minShare)
      else if mine && (step.ChargeGroup? || step.AdjustGroup?) && step.d == d then
        LimitOf(r.limits, d) == LimitOf(f.limits, d) - step.bytes &&
        (GroupHolds(f, d) ==> GroupHolds(r, d))
      else LimitOf(r.limits, d) == LimitOf(f.limits, d) && Closed(r, d) == Closed(f, d)
  }

  predicate IsOn(step: Step, g: nat) {
    (step.ChargeGroup? || step.AdjustGroup? || step.CallBackGroup? || step.ConfigureGroup?) && step.g == g
  }

  lemma {:induction false} LimitsAfterCallBack(s: State, step: Step, d: Dir)
    requires step.CallBackGroup? && step.g in s.groups
    ensures var r := GroupCalledBack(s, step.g, step.tick, step.got, step.gotWrite);
      r.groups.Keys == s.groups.Keys && LimitsStep(s.groups[step.g], r.groups[step.g], step, true, d) &&
      forall h :: h in s.groups && h != step.g ==> r.groups[h] == s.groups[h]
  {
  }

  lemma {:induction false} LimitsAfterCharge(s: State, step: Step, d: Dir)
    requires (step.ChargeGroup? || step.AdjustGroup?) && step.g in s.groups
    ensures var r := if step.ChargeGroup? then GroupCharged(s, step.g, step.d, step.bytes, step.got)
                     else GroupAdjusted(s, step.g, step.d, step.bytes, step.got);
      r.groups.Keys == s.groups.Keys && LimitsStep(s.groups[step.g], r.groups[step.g], step, true, d) &&
      forall h :: h in s.groups && h != step.g ==> r.groups[h] == s.groups[h]
  {
  }

  lemma {:induction false} LimitsAfter(s: State, t: nat, step: Step, g: nat, d: Dir)
    requires Can(s, t, step) && g in s.groups
    ensures g in Next(s, t, step).groups && LimitsStep(s.groups[g], Next(s, t, step).groups[g], step, IsOn(step, g), d)
  {
    if step.CallBackGroup? {
      LimitsAfterCallBack(s, step, d);
    } else if step.ChargeGroup? || step.AdjustGroup? {
      LimitsAfterCharge(s, step, d);
    }
  }

  lemma {:induction false} StreamStepHolds(s: State, t: nat, step: Step, b: nat, d: Dir)
    requires Inv(s) && Can(s, t, step) && b in s.streams && FlowHolds(s.streams[b].flow, d)
    ensures b in Next(s, t, step).streams
    ensures FlowHolds(Next(s, t, step).streams[b].flow, d) <==> StepSpares(s, step, OfStream(b), d)
  {
    assert StreamOk(s, b);
    BudgetAfter(s, t, step, b);
    if step.OnFlow? && step.b == b {
      FlowAfterHolds(s.streams[b].flow, step.act, d);
    }
  }

  lemma {:induction false} GroupStepHolds(s: State, t: nat, step: Step, g: nat, d: Dir)
    requires Inv(s) && Can(s, t, step) && g in s.groups && GroupHolds(s.groups[g], d)
    ensures g in Next(s, t, step).groups
    ensures GroupHolds(Next(s, t, step).groups[g], d) <==> StepSpares(s, step, OfGroup(g), d)
  {
    assert GroupOk(s, g);
    LimitsAfter(s, t, step, g, d);
    if step.CallBackGroup? && step.g == g && LimitOf(s.groups[g].limits, d) > 0 {
      RefilledIsPositive(s.groups[g].limits, s.groups[g].cfg, step.tick, d);
    }
  }

  /** Nothing appears out of nowhere. */
  lemma {:induction false} SameOwners(s: State, t: nat, step: Step)
    requires Can(s, t, step)
    ensures Next(s, t, step).streams.Keys == s.streams.Keys && Next(s, t, step).groups.Keys == s.groups.Keys
  {
  }

  /** Whatever a thread does, an exhausted bucket goes on suspending its stream or closing its
      group, exactly except for a refill that overflows a bucket and the callback of a group that
      opens it with nothing. */
  lemma {:induction false} StepHolds(s: State, t: nat, step: Step, who: Owner, d: Dir)
    requires Inv(s) && Can(s, t, step) && Holds(s, who, d)
    ensures Holds(Next(s, t, step), who, d) <==> StepSpares(s, step, who, d)
  {
    SameOwners(s, t, step);
    match who {
      case OfStream(b) => if b in s.streams { StreamStepHolds(s, t, step, b, d); }
      case OfGroup(g) => if g in s.groups { GroupStepHolds(s, t, step, g, d); }
    }
  }

  ghost predicate RunSpares(s: State, moves: seq<Move>, who: Owner, d: Dir)
    requires IsRun(s, moves)
    decreases |moves|
  {
    moves != [] ==>
      StepSpares(s, moves[0].step, who, d) && RunSpares(Next(s, moves[0].thread, moves[0].step), moves[1..], who, d)
  }

  /** In every state of the run. */
  ghost predicate AlwaysHolds(s: State, moves: seq<Move>, who: Owner, d: Dir)
    requires IsRun(s, moves)
    decreases |moves|
  {
    Holds(s, who, d) && (moves != [] ==> AlwaysHolds(Next(s, moves[0].thread, moves[0].step), moves[1..], who, d))
  }

  lemma {:induction false} RunHolds(s: State, moves: seq<Move>, who: Owner, d: Dir)
    requires Inv(s) && IsRun(s, moves) && Holds(s, who, d)
    ensures AlwaysHolds(s, moves, who, d) <==> RunSpares(s, moves, who, d)
    ensures RunSpares(s, moves, who, d) ==> Holds(After(s, moves), who, d)
    decreases |moves|
  {
    if moves != [] {
      var m := moves[0];
      StepKeeps(s, m.thread, m.step);
      StepHolds(s, m.thread, m.step, who, d);
      if StepSpares(s, m.step, who, d) {
        RunHolds(Next(s, m.thread, m.step), moves[1..], who, d);
      } else if moves[1..] == [] {
        assert !AlwaysHolds(Next(s, m.thread, m.step), moves[1..], who, d);
      }
    }
  }

  /** The side of an exhausted bucket does nothing, and its timer is set or its callback running; a
      group with an exhausted bucket is closed, and not about to open. */
  predicate Resting(s: State, who: Owner, d: Dir) {
    match who
    case OfStream(b) =>
      b in s.streams && s.streams[b].flow.cfg.Some? && LimitOf(s.streams[b].flow.bucket, d) <= 0 ==>
        Flagged(s.streams[b].flow, d, Bandwidth) && !Live(SideOf(s.streams[b].flow, d)) &&
        (s.streams[b].flow.timer || s.streams[b].flow.running)
    case OfGroup(g) =>
      g in s.groups && LimitOf(s.groups[g].limits, d) <= 0 ==> Closed(s.groups[g], d) && !Pending(s.groups[g], d)
  }

  lemma {:induction false} HoldsIsResting(s: State, who: Owner, d: Dir)
    requires Inv(s) && Holds(s, who, d)
    ensures Resting(s, who, d)
  {
    match who {
      case OfStream(b) => assert StreamOk(s, b);
      case OfGroup(g) => assert GroupOk(s, g);
    }
  }

  /** At every moment of a run an exhausted bucket suspends its side, and an exhausted bucket of a
      group closes the group, if and only if no refill in the run overflows the bucket, or opens
      the group with nothing in it. */
  lemma {:induction false} ExhaustedIsSuspended(s: State, moves: seq<Move>, who: Owner, d: Dir)
    requires Initial(s) && IsRun(s, moves)
    ensures AlwaysHolds(s, moves, who, d) <==> RunSpares(s, moves, who, d)
    ensures RunSpares(s, moves, who, d) ==> Resting(After(s, moves), who, d)
  {
    InitialIsOk(s);
    RunHolds(s, moves, who, d);
    RunKeeps(s, moves);
    if RunSpares(s, moves, who, d) {
      HoldsIsResting(After(s, moves), who, d);
    }
  }

  /** What is given back leaves the limit at most at the maximum, and the smallest share is not set
      to nothing. */
  predicate StepIsModest(s: State, step: Step, who: Owner, d: Dir) {
    match who
    case OfStream(b) =>
      step.OnFlow? && step.b == b && b in s.streams && (step.act.Charge? || step.act.Adjust?) && step.act.d == d &&
      s.streams[b].flow.cfg.Some? ==>
        LimitOf(s.streams[b].flow.bucket, d) - step.act.bytes <= MaximumOf(s.streams[b].flow.cfg.value, d)
    case OfGroup(g) =>
      ((step.ChargeGroup? || step.AdjustGroup?) && step.g == g && g in s.groups && step.d == d ==>
         LimitOf(s.groups[g].limits, d) - step.bytes <= MaximumOf(s.groups[g].cfg, d)) &&
      (step.ConfigureGroup? && step.g == g ==> step.share >= 1)
  }

  /** Nothing is given back that the bucket has no room for, and no group loses its smallest share. */
  ghost predicate RunIsModest(s: State, moves: seq<Move>, who: Owner, d: Dir)
    requires IsRun(s, moves)
    decreases |moves|
  {
    moves != [] ==>
      StepIsModest(s, moves[0].step, who, d) && RunIsModest(Next(s, moves[0].thread, moves[0].step), moves[1..], who, d)
  }

  /** The bucket is not above its maximum, and the group has a smallest share. */
  predicate Level(s: State, who: Owner, d: Dir) {
    match who
    case OfStream(b) =>
      b in s.streams && s.streams[b].flow.cfg.Some? ==>
        LimitFits(s.streams[b].flow.bucket, s.streams[b].flow.cfg.value, d)
    case OfGroup(g) =>
      g in s.groups ==> LimitFits(s.groups[g].limits, s.groups[g].cfg, d) && s.groups[g].minShare >= 1
  }

  lemma {:induction false} InitialisedFits(b: Limits, c: Cfg, tick: nat, reinitialize: bool, d: Dir)
    requires CfgOk(c) && (reinitialize ==> Fits(LimitOf(b, d)))
    ensures LimitFits(Initialised(b, c, tick, reinitialize), c, d)
  {
  }

  lemma {:induction false} FlowAfterLevel(f: Flow, act: Act, d: Dir)
    requires FlowFits(f) && FlowCan(f, act) && (f.cfg.Some? ==> LimitFits(f.bucket, f.cfg.value, d))
    requires (act.Charge? || act.Adjust?) && act.d == d && f.cfg.Some? ==>
               LimitOf(f.bucket, d) - act.bytes <= MaximumOf(f.cfg.value, d)
    ensures var r := FlowAfter(f, act); r.cfg.Some? ==> LimitFits(r.bucket, r.cfg.value, d)
  {
    match act {
      case SetLimit(cfg, tick) => if cfg.Some? { InitialisedFits(f.bucket, cfg.value, tick, f.cfg.Some?, d); }
      case CallBack(tick) => if f.cfg.Some? { RefilledFits(f.bucket, f.cfg.value, tick, d); }
      case Refresh(tick) => if f.cfg.Some? { RefilledFits(f.bucket, f.cfg.value, tick, d); }
      case _ =>
    }
  }

  lemma {:induction false} StreamIsLevel(s: State, t: nat, step: Step, b: nat, d: Dir)
    requires Inv(s) && Can(s, t, step) && b in s.streams && Level(s, OfStream(b), d) &&
             StepIsModest(s, step, OfStream(b), d)
    ensures Level(Next(s, t, step), OfStream(b), d) && StepSpares(s, step, OfStream(b), d)
  {
    assert StreamOk(s, b);
    BudgetAfter(s, t, step, b);
    if step.OnFlow? && step.b == b {
      FlowAfterLevel(s.streams[b].flow, step.act, d);
    }
  }

  lemma {:induction false} GroupIsLevel(s: State, t: nat, step: Step, g: nat, d: Dir)
    requires Inv(s) && Can(s, t, step) && g in s.groups && Level(s, OfGroup(g), d) &&
             StepIsModest(s, step, OfGroup(g), d)
    ensures Level(Next(s, t, step), OfGroup(g), d) && StepSpares(s, step, OfGroup(g), d)
  {
    assert GroupOk(s, g);
    LimitsAfter(s, t, step, g, d);
    if step.CallBackGroup? && step.g == g {
      RefilledFits(s.groups[g].limits, s.groups[g].cfg, step.tick, d);
    }
  }

  lemma {:induction false} StepIsLevel(s: State, t: nat, step: Step, who: Owner, d: Dir)
    requires Inv(s) && Can(s, t, step) && Level(s, who, d) && StepIsModest(s, step, who, d)
    ensures Level(Next(s, t, step), who, d) && StepSpares(s, step, who, d)
  {
    SameOwners(s, t, step);
    match who {
      case OfStream(b) => if b in s.streams { StreamIsLevel(s, t, step, b, d); }
      case OfGroup(g) => if g in s.groups { GroupIsLevel(s, t, step, g, d); }
    }
  }

  lemma {:induction false} LevelRunSpares(s: State, moves: seq<Move>, who: Owner, d: Dir)
    requires Inv(s) && IsRun(s, moves) && Level(s, who, d) && RunIsModest(s, moves, who, d)
    ensures RunSpares(s, moves, who, d)
    decreases |moves|
  {
    if moves != [] {
      StepKeeps(s, moves[0].thread, moves[0].step);
      StepIsLevel(s, moves[0].thread, moves[0].step, who, d);
      LevelRunSpares(Next(s, moves[0].thread, moves[0].step), moves[1..], who, d);
    }
  }

  /** While nothing is given back that a bucket has no room for, and a group keeps a smallest share,
      an exhausted bucket always suspends its side or closes its group. */
  lemma {:induction false} ModestIsSuspended(s: State, moves: seq<Move>, who: Owner, d: Dir)
    requires Initial(s) && IsRun(s, moves) && RunIsModest(s, moves, who, d)
    requires who.OfGroup? && who.id in s.groups ==> s.groups[who.id].minShare >= 1
    ensures AlwaysHolds(s, moves, who, d) && Resting(After(s, moves), who, d)
  {
    InitialIsOk(s);
    LevelRunSpares(s, moves, who, d);
    ExhaustedIsSuspended(s, moves, who, d);
  }

  /** A run that begins with a move. */
  lemma {:induction false} Begins(s: State, m: Move, rest: seq<Move>)
    requires Can(s, m.thread, m.step) && IsRun(Next(s, m.thread, m.step), rest)
    ensures IsRun(s, [m] + rest) && After(s, [m] + rest) == After(Next(s, m.thread, m.step), rest)
  {
    assert ([m] + rest)[1..] == rest;
  }

  /** When the group's callback finds enough tokens, or members that it missed before, and can
      reach everyone now, then nobody is left behind. */
  lemma {:induction false} CallbackOpensForAll(s: State, g: nat, d: Dir, got: set<nat>, b: nat)
    requires Inv(s) && g in s.groups && b in s.groups[g].members
    requires Pending(s.groups[g], d) ||
             (Closed(s.groups[g], d) && LimitOf(s.groups[g].limits, d) >= s.groups[g].minShare)
    requires forall c :: c in s.groups[g].members ==> c in got
    ensures var r := Reopened(s, g, d, got);
      !Closed(r.groups[g], d) && !Pending(r.groups[g], d) && b in r.streams &&
      !Flagged(r.streams[b].flow, d, GroupBandwidth)
  {
    assert GroupOk(s, g) && MemberOk(s, g, b);
  }

  function TicksOf(s: State, step: Step, g: nat): nat {
    if IsOn(step, g) && step.CallBackGroup? && g in s.groups then Counted(s.groups[g].limits, step.tick) else 0
  }

  /** The ticks that the callbacks of the group count in the run. */
  ghost function TicksCounted(s: State, moves: seq<Move>, g: nat): nat
    requires IsRun(s, moves)
    decreases |moves|
  {
    if moves == [] then 0
    else
      TicksOf(s, moves[0].step, g) + TicksCounted(Next(s, moves[0].thread, moves[0].step), moves[1..], g)
  }

  /** The step takes tokens from the group's bucket, gives some back, or configures the group. */
  predicate Draws(step: Step, g: nat, d: Dir) {
    IsOn(step, g) && (step.ConfigureGroup? || ((step.ChargeGroup? || step.AdjustGroup?) && step.d == d))
  }

  lemma {:induction false} MoreTicks(limit: int, maximum: int, n: nat, m: nat, rate: nat)
    ensures Min(maximum, Min(maximum, limit + n * rate) + m * rate) == Min(maximum, limit + (n + m) * rate)
  {
    assert (n + m) * rate == n * rate + m * rate;
    assert n * rate >= 0 && m * rate >= 0;
  }

  /** The group is closed for as long as it has less than its smallest share. */
  predicate Waits(x: Group, d: Dir) {
    LimitFits(x.limits, x.cfg, d) && x.minShare <= MaximumOf(x.cfg, d) &&
    (Closed(x, d) <==> LimitOf(x.limits, d) < x.minShare)
  }

  /** The group went from `x` to `r` while its callbacks counted `n` ticks. */
  predicate WaitedFor(x: Group, r: Group, n: nat, d: Dir) {
    Waits(r, d) && r.cfg == x.cfg && r.minShare == x.minShare &&
    LimitOf(r.limits, d) == Min(MaximumOf(x.cfg, d), LimitOf(x.limits, d) + n * RateOf(x.cfg, d))
  }

  lemma {:induction false} WaitedAdds(x: Group, y: Group, z: Group, n: nat, m: nat, d: Dir)
    requires WaitedFor(x, y, n, d) && WaitedFor(y, z, m, d)
    ensures WaitedFor(x, z, n + m, d)
  {
    MoreTicks(LimitOf(x.limits, d), MaximumOf(x.cfg, d), n, m, RateOf(x.cfg, d));
  }

  lemma {:induction false} WaitsOnce(s: State, t: nat, step: Step, g: nat, d: Dir)
    requires Inv(s) && Can(s, t, step) && g in s.groups && Waits(s.groups[g], d) && !Draws(step, g, d)
    ensures g in Next(s, t, step).groups && WaitedFor(s.groups[g], Next(s, t, step).groups[g], TicksOf(s, step, g), d)
  {
    assert GroupOk(s, g);
    LimitsAfter(s, t, step, g, d);
    if IsOn(step, g) && step.CallBackGroup? {
      RefilledFits(s.groups[g].limits, s.groups[g].cfg, step.tick, d);
    }
  }

  lemma {:induction false} WaitsOn(s: State, moves: seq<Move>, g: nat, d: Dir)
    requires Inv(s) && IsRun(s, moves) && g in s.groups && Waits(s.groups[g], d)
    requires forall i :: 0 <= i < |moves| ==> !Draws(moves[i].step, g, d)
    ensures g in After(s, moves).groups &&
            WaitedFor(s.groups[g], After(s, moves).groups[g], TicksCounted(s, moves, g), d)
    decreases |moves|
  {
    if moves != [] {
      var m := moves[0];
      var r := Next(s, m.thread, m.step);
      StepKeeps(s, m.thread, m.step);
      WaitsOnce(s, m.thread, m.step, g, d);
      WaitsOn(r, moves[1..], g, d);
      WaitedAdds(s.groups[g], r.groups[g], After(r, moves[1..]).groups[g], TicksOf(s, m.step, g),
        TicksCounted(r, moves[1..], g), d);
    }
  }

  /** Whatever else happens, a closed group whose bucket nobody touches is opened by its callbacks
      exactly when they have counted as many ticks as it takes to bring the bucket to the smallest
      share. */
  lemma {:induction false} WaitingOpens(s: State, moves: seq<Move>, g: nat, d: Dir)
    requires Inv(s) && IsRun(s, moves) && g in s.groups && Closed(s.groups[g], d)
    requires LimitOf(s.groups[g].limits, d) < s.groups[g].minShare <= MaximumOf(s.groups[g].cfg, d)
    requires forall i :: 0 <= i < |moves| ==> !Draws(moves[i].step, g, d)
    ensures g in After(s, moves).groups
    ensures var x := s.groups[g];
      !Closed(After(s, moves).groups[g], d) <==>
        TicksCounted(s, moves, g) * RateOf(x.cfg, d) >= x.minShare - LimitOf(x.limits, d)
  {
    assert GroupOk(s, g);
    WaitsOn(s, moves, g, d);
  }

  // ---------------------------------------------------------------- how much may be moved

  const MAX_TO_MOVE_EVER := 16384

  /** Division in C. */
  function Quotient(x: int, n: nat): int
    requires n > 0
  {
    if x >= 0 then x / n else -((-x) / n)
  }

  /** What a member of an open group may move. */
  function Share(limit: int, members: nat, minShare: nat): int
    requires members > 0
  {
    var share := Quotient(limit, members);
    if share < minShare then minShare else share
  }

  /** What the group leaves to each member: nothing while it is suspended. */
  function GroupShare(g: Group, d: Dir): int
    requires |g.members| > 0
  {
    if Closed(g, d) then 0 else Share(LimitOf(g.limits, d), |g.members|, g.minShare)
  }

  /** _bufferevent_get_rlim_max, once the bucket is up to date
      (libevent/bufferevent_ratelim.c:199-260). */
  function MaxMove(f: Flow, share: Option<int>, d: Dir): nat {
    var own := if f.cfg.Some? then LimitOf(f.bucket, d) else MAX_TO_MOVE_EVER;
    Pos(if share.None? then own else Min(own, share.value))
  }

  lemma {:induction false} ShareIsNothing(limit: int, members: nat, minShare: nat)
    requires members > 0
    ensures Share(limit, members, minShare) <= 0 <==> minShare == 0 && limit < members
  {
    if limit >= 0 {
      QuotientBelow(limit, members, 1);
    } else {
      assert (-limit) / members >= 0;
    }
  }

  function GroupOf(s: State, b: nat): Option<Group>
    requires b in s.streams
  {
    var x := s.streams[b];
    if x.group.Some? && x.group.value in s.groups then Some(s.groups[x.group.value]) else None
  }

  /** The group is open, has less than a byte for each member, and no smallest share. */
  predicate HasNothing(g: Group, d: Dir) {
    !Closed(g, d) && g.minShare == 0 && LimitOf(g.limits, d) < |g.members|
  }

  /** A stream that may move nothing is suspended, so it never asks for nothing and takes the
      answer for the end of its peer's data, except exactly in an open group whose smallest share
      is nothing and whose bucket has less than a byte for each member. */
  lemma {:induction false} NothingMeansSuspended(s: State, b: nat, d: Dir)
    requires Inv(s) && b in s.streams
    ensures var f, g := Asked(s, b, d), GroupOf(s, b);
      (g.Some? ==> |g.value.members| > 0) &&
      (MaxMove(f, if g.Some? then Some(GroupShare(g.value, d)) else None, d) == 0 <==>
         (f.cfg.Some? && LimitOf(f.bucket, d) <= 0) || (g.Some? && (Closed(g.value, d) || HasNothing(g.value, d)))) &&
      (Holds(s, OfStream(b), d) && f.cfg.Some? && LimitOf(f.bucket, d) <= 0 ==> Flagged(f, d, Bandwidth)) &&
      (g.Some? && Closed(g.value, d) ==> Flagged(f, d, GroupBandwidth))
  {
    assert StreamOk(s, b);
    var g := GroupOf(s, b);
    if g.Some? {
      ShareIsNothing(LimitOf(g.value.limits, d), |g.value.members|, g.value.minShare);
    }
  }

  /** The limit on one operation holds only for streams without a configuration of their own, or
      with little in their buckets: a configured limit replaces it. */
  lemma {:induction false} MoveIsCapped(f: Flow, share: Option<int>, d: Dir)
    ensures MaxMove(f, share, d) <= MAX_TO_MOVE_EVER <==>
              f.cfg.None? || LimitOf(f.bucket, d) <= MAX_TO_MOVE_EVER ||
              (share.Some? && share.value <= MAX_TO_MOVE_EVER)
  {
  }

  lemma {:induction false} MoveAboveTheCap(c: Cfg)
    ensures var f := Flow(Side(true, {}), Side(true, {}), Some(c), Limits(20000, 1, 0), false, false);
      MaxMove(f, None, Read) == 20000
  {
  }

  // ---------------------------------------------------------------- runs that fail

  /** A stream that its user wants, and that nobody limits. */
  function FreeStream(): Stream {
    Stream(Flow(Side(true, {}), Side(true, {}), None, Limits(0, 0, 0), false, false), None, Idle, None)
  }

  const HUGE := 0x4000_0000_0000_0000

  function HugeCfg(): Cfg {
    Cfg(0, HUGE, HUGE, HUGE, HUGE, Timeval(1, 0), 1000)
  }

  const CREDITED := [Move(0, Lock(0)), Move(0, OnFlow(0, SetLimit(Some(HugeCfg()), 0))),
                     Move(0, OnFlow(0, Adjust(Read, -1))), Move(0, OnFlow(0, Refresh(1)))]

  /** The stream alone, with its lock taken. */
  function Alone(f: Flow): State {
    State(map[0 := Stream(f, None, Idle, Some(0))], map[])
  }

  function HugeFlow(read: int): Flow {
    FreeStream().flow.(cfg := Some(HugeCfg()), bucket := Limits(read, HUGE, 0))
  }

  lemma {:induction false} CreditedFlows()
    ensures Configured(FreeStream().flow, Some(HugeCfg()), 0) == HugeFlow(HUGE)
    ensures Adjusted(HugeFlow(HUGE), Read, -1) == HugeFlow(HUGE + 1)
    ensures Refreshed(HugeFlow(HUGE + 1), 1).(bucket := Limits(0, 0, 0)) == HugeFlow(0).(bucket := Limits(0, 0, 0))
    ensures Refreshed(HugeFlow(HUGE + 1), 1).bucket.read == 1 - 2 * HUGE
  {
    OverfullIsEmptied();
  }

  lemma {:induction false} AloneAfter(f: Flow, act: Act)
    requires FlowCan(f, act)
    ensures Can(Alone(f), 0, OnFlow(0, act)) && Next(Alone(f), 0, OnFlow(0, act)) == Alone(FlowAfter(f, act))
  {
    assert Next(Alone(f), 0, OnFlow(0, act)).streams == Alone(FlowAfter(f, act)).streams;
  }

  lemma {:induction false} CreditedRun()
    ensures IsRun(State(map[0 := FreeStream()], map[]), CREDITED)
    ensures After(State(map[0 := FreeStream()], map[]), CREDITED) == Alone(Refreshed(HugeFlow(HUGE + 1), 1))
  {
    CreditedFlows();
    AloneAfter(FreeStream().flow, SetLimit(Some(HugeCfg()), 0));
    AloneAfter(HugeFlow(HUGE), Adjust(Read, -1));
    AloneAfter(HugeFlow(HUGE + 1), Refresh(1));
    Begins(Alone(HugeFlow(HUGE + 1)), CREDITED[3], []);
    Begins(Alone(HugeFlow(HUGE)), CREDITED[2], [CREDITED[3]]);
    Begins(Alone(FreeStream().flow), CREDITED[1], [CREDITED[2], CREDITED[3]]);
    var s := State(map[0 := FreeStream()], map[]);
    assert Next(s, 0, Lock(0)).streams == Alone(FreeStream().flow).streams;
    Begins(s, CREDITED[0], [CREDITED[1], CREDITED[2], CREDITED[3]]);
    assert [CREDITED[3]] + [] == [CREDITED[3]] && [CREDITED[2]] + [CREDITED[3]] == [CREDITED[2], CREDITED[3]];
    assert [CREDITED[1]] + [CREDITED[2], CREDITED[3]] == [CREDITED[1], CREDITED[2], CREDITED[3]];
    assert [CREDITED[0]] + [CREDITED[1], CREDITED[2], CREDITED[3]] == CREDITED;
  }

  /** A full bucket gets a token back, and the next tick overflows it: the stream may read nothing,
      and it is not suspended and no timer is set. */
  lemma {:induction false} CreditEmptiesBucket()
    ensures var s := State(map[0 := FreeStream()], map[]);
      Initial(s) && IsRun(s, CREDITED) && 0 in After(s, CREDITED).streams &&
      var f := After(s, CREDITED).streams[0].flow;
      f.bucket.read == 1 - 2 * HUGE && Live(f.read) && !f.timer && !f.running && MaxMove(f, None, Read) == 0
  {
    CreditedRun();
    CreditedFlows();
  }

  /** A group without streams and without a smallest share. */
  function Lone(closed: bool, left: int, c: Cfg): State {
    State(map[], map[0 := Group([], closed, false, false, false, Limits(left, 1, 0), c, 0)])
  }

  lemma {:induction false} LoneSteps(c: Cfg)
    ensures GroupCharged(Lone(false, 5, c), 0, Read, 5, {}) == Lone(true, 0, c)
    ensures GroupCalledBack(Lone(true, 0, c), 0, 0, {}, {}) == Lone(false, 0, c)
    ensures GroupAdjusted(Lone(false, 0, c), 0, Read, 5, {}) == Lone(false, -5, c)
  {
    LoneCharged(c);
    LoneCalledBack(c);
    LoneAdjusted(c);
  }

  lemma {:induction false} LoneCharged(c: Cfg)
    ensures GroupCharged(Lone(false, 5, c), 0, Read, 5, {}) == Lone(true, 0, c)
  {
    assert GroupCharged(Lone(false, 5, c), 0, Read, 5, {}).groups == Lone(true, 0, c).groups;
  }

  lemma {:induction false} LoneCalledBack(c: Cfg)
    ensures GroupCalledBack(Lone(true, 0, c), 0, 0, {}, {}) == Lone(false, 0, c)
  {
    assert GroupCalledBack(Lone(true, 0, c), 0, 0, {}, {}).groups == Lone(false, 0, c).groups;
  }

  lemma {:induction false} LoneAdjusted(c: Cfg)
    ensures GroupAdjusted(Lone(false, 0, c), 0, Read, 5, {}) == Lone(false, -5, c)
  {
    assert GroupAdjusted(Lone(false, 0, c), 0, Read, 5, {}).groups == Lone(false, -5, c).groups;
  }

  const DRAWN := [Move(0, ChargeGroup(0, Read, 5, {})), Move(0, CallBackGroup(0, 0, {}, {})),
                  Move(0, AdjustGroup(0, Read, 5, {}))]

  lemma {:induction false} LoneRun(c: Cfg)
    ensures IsRun(Lone(false, 5, c), DRAWN) && After(Lone(false, 5, c), DRAWN) == Lone(false, -5, c)
  {
    LoneSteps(c);
    Begins(Lone(false, 0, c), DRAWN[2], []);
    Begins(Lone(true, 0, c), DRAWN[1], [DRAWN[2]]);
    Begins(Lone(false, 5, c), DRAWN[0], [DRAWN[1], DRAWN[2]]);
    assert [DRAWN[2]] + [] == [DRAWN[2]] && [DRAWN[1]] + [DRAWN[2]] == [DRAWN[1], DRAWN[2]];
    assert [DRAWN[0]] + [DRAWN[1], DRAWN[2]] == DRAWN;
  }

  /** A group without a smallest share that opens with nothing in its bucket stays open while its
      bucket is overdrawn. */
  lemma {:induction false} OverdrawnButOpen(c: Cfg)
    requires CfgOk(c) && c.readMaximum >= 5
    ensures Initial(Lone(false, 5, c)) && IsRun(Lone(false, 5, c), DRAWN)
    ensures var s := After(Lone(false, 5, c), DRAWN);
      0 in s.groups && s.groups[0].limits.read == -5 && !Closed(s.groups[0], Read) && !Pending(s.groups[0], Read)
  {
    LoneRun(c);
  }

  /** When the user takes tokens from a group, or gives some back, an exhausted bucket closes the
      group exactly unless the bucket was exhausted before and the group open. */
  lemma {:induction false} AdjustedIsClosed(s: State, g: nat, d: Dir, decr: int, got: set<nat>)
    requires g in s.groups
    ensures var was, r := LimitOf(s.groups[g].limits, d), GroupAdjusted(s, g, d, decr, got).groups[g];
      (LimitOf(r.limits, d) <= 0 ==> Closed(r, d)) <==> (was - decr > 0 || was > 0 || Closed(s.groups[g], d))
  {
  }

  function Joins(b: nat, g: nat): seq<Move> {
    [Move(0, Lock(b)), Move(0, Join(b, g)), Move(0, FinishJoin(b))]
  }

  /** A stream joins an open group. */
  lemma {:induction false} JoinsOpenGroup(s: State, b: nat, g: nat)
    requires b in s.streams && g in s.groups && !s.groups[g].readSuspended && !s.groups[g].writeSuspended && Ready(s, 0)
    requires s.streams[b].holder == None && s.streams[b].group == None && s.streams[b].doing == Idle
    ensures IsRun(s, Joins(b, g))
    ensures After(s, Joins(b, g)) == State(s.streams[b := s.streams[b].(group := Some(g), holder := Some(0))],
                                            s.groups[g := s.groups[g].(members := s.groups[g].members + [b])])
  {
    var x, y, z := Move(0, Lock(b)), Move(0, Join(b, g)), Move(0, FinishJoin(b));
    var s1 := s.(streams := s.streams[b := s.streams[b].(holder := Some(0))]);
    var s2 := Next(s1, 0, y.step);
    assert s2.streams[b].doing == Joining(false, false);
    Begins(s2, z, []);
    Begins(s1, y, [z]);
    Begins(s, x, [y, z]);
    assert [x] + [y, z] == [x, y, z] && [y] + [z] == [y, z] && [z] + [] == [z];
    assert Next(s2, 0, z.step).streams == s.streams[b := s.streams[b].(group := Some(g), holder := Some(0))];
  }

  /** One run after another. */
  lemma {:induction false} Follows(s: State, first: seq<Move>, rest: seq<Move>)
    requires IsRun(s, first) && IsRun(After(s, first), rest)
    ensures IsRun(s, first + rest) && After(s, first + rest) == After(After(s, first), rest)
    decreases |first|
  {
    if first == [] {
      assert first + rest == rest;
    } else {
      Follows(Next(s, first[0].thread, first[0].step), first[1..], rest);
      assert (first + rest)[1..] == first[1..] + rest;
    }
  }

  /** Two streams, and a group with one token and no smallest share. */
  function Poor(x: Stream, y: Stream, members: seq<nat>, c: Cfg): State {
    State(map[0 := x, 1 := y], map[0 := Group(members, false, false, false, false, Limits(1, 1, 0), c, 0)])
  }

  lemma {:induction false} BothJoin(c: Cfg)
    ensures var x := FreeStream();
      var y := x.(group := Some(0), holder := Some(0));
      IsRun(Poor(x, x, [], c), Joins(0, 0) + Joins(1, 0)) &&
      After(Poor(x, x, [], c), Joins(0, 0) + Joins(1, 0)) == Poor(y, y, [0, 1], c)
  {
    var x := FreeStream();
    var y := x.(group := Some(0), holder := Some(0));
    var s, r, q := Poor(x, x, [], c), Poor(y, x, [0], c), Poor(y, y, [0, 1], c);
    JoinsOpenGroup(s, 0, 0);
    assert s.groups[0].members + [0] == [0] && r.groups[0].members + [1] == [0, 1];
    assert s.streams[0 := y] == r.streams && s.groups[0 := s.groups[0].(members := [0])] == r.groups;
    JoinsOpenGroup(r, 1, 0);
    assert r.streams[1 := y] == q.streams && r.groups[0 := r.groups[0].(members := [0, 1])] == q.groups;
    Follows(s, Joins(0, 0), Joins(1, 0));
  }

  /** They join it: each may read nothing, and neither is suspended. */
  lemma {:induction false} NothingButNotSuspended(c: Cfg)
    requires CfgOk(c)
    ensures var s := Poor(FreeStream(), FreeStream(), [], c);
      Initial(s) && IsRun(s, Joins(0, 0) + Joins(1, 0)) &&
      var r := After(s, Joins(0, 0) + Joins(1, 0));
      r.streams.Keys == {0, 1} && r.groups.Keys == {0} && HasNothing(r.groups[0], Read) &&
      forall b :: 0 <= b <= 1 ==>
        GroupOf(r, b) == Some(r.groups[0]) && Live(r.streams[b].flow.read) && Asked(r, b, Read) == r.streams[b].flow &&
        |r.groups[0].members| == 2 && MaxMove(r.streams[b].flow, Some(GroupShare(r.groups[0], Read)), Read) == 0
  {
    BothJoin(c);
  }
}
