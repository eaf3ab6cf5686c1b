/** Rate-limited bufferevents and their groups as the source changes them in place
    (libevent/bufferevent_ratelim.c and libevent/bufferevent.c:65-111, 406-427, 496-520): each
    method is what one thread does while it holds the lock that the source takes for it. */
module RateLimiter {
  import opened TokenBucket
  import opened Suspension
  import opened SuspensionLaws

  lemma {:induction false} CallbackHolds(f: Flow, tick: nat)
    ensures FlowFits(f) ==>
              forall d: Dir :: FlowHolds(f, d) ==> (FlowHolds(CalledBack(f, tick), d) <==> FlowSpares(f, tick, d))
  {
    if FlowFits(f) {
      forall d: Dir | FlowHolds(f, d) ensures FlowHolds(CalledBack(f, tick), d) <==> FlowSpares(f, tick, d) {
        RefillHolds(f, tick, d);
      }
    }
  }

  /** struct bufferevent_private, as far as rate limiting is concerned.  A side is armed when the
      backend was told to enable it last. */
  class Bufferevent {
    var read: Side
    var write: Side
    var readArmed: bool
    var writeArmed: bool
    var connecting: bool
    var cfg: Option<Cfg>
    const bucket: Bucket
    var timer: bool
    var running: bool

    constructor ()
      ensures Valid() && FlowOk(V()) && fresh(bucket) && !read.enabled && !write.enabled
    {
      read, write := Side(false, {}), Side(false, {});
      readArmed, writeArmed, connecting := false, false, false;
      cfg, timer, running := None, false, false;
      bucket := new Bucket();
    }

    function V(): Flow
      reads this, bucket
    {
      Flow(read, write, cfg, bucket.V(), timer, running)
    }

    /** A side is armed exactly when the user wants it and nothing suspends it, except that writing
        is armed while the socket connects. */
    predicate Valid()
      reads this
    {
      readArmed == Live(read) && writeArmed == (connecting || Live(write))
    }

    /** The socket starts to connect (libevent/bufferevent_sock.c:404-409). */
    method Connect()
      requires Valid()
      modifies this`connecting, this`writeArmed
      ensures Valid() && connecting && V() == old(V())
    {
      connecting := true;
      writeArmed := true;
    }

    /** The socket has connected (libevent/bufferevent_sock.c:221-258). */
    method Connected()
      requires Valid()
      modifies this`connecting, this`writeArmed
      ensures Valid() && !connecting && V() == old(V())
    {
      if connecting {
        connecting := false;
        if !write.enabled || write.suspended != {} {
          writeArmed := false;
        }
      }
    }

    /** bufferevent_suspend_read and _write (libevent/bufferevent.c:65-75 and 89-99). */
    method Suspend(d: Dir, what: Reason)
      requires Valid()
      modifies this`read, this`write, this`readArmed, this`writeArmed
      ensures Valid() && V() == Toggled(old(V()), d, what, true)
      ensures read == if d.Read? then old(read).(suspended := old(read).suspended + {what}) else old(read)
      ensures write == if d.Write? then old(write).(suspended := old(write).suspended + {what}) else old(write)
      ensures readArmed == (read.enabled && read.suspended == {})
      ensures writeArmed == (connecting || (write.enabled && write.suspended == {}))
    {
      match d {
        case Read =>
          if read.suspended == {} {
            readArmed := false;
          }
          read := read.(suspended := read.suspended + {what});
        case Write =>
          if write.suspended == {} && !connecting {
            writeArmed := false;
          }
          write := write.(suspended := write.suspended + {what});
      }
    }

    /** bufferevent_unsuspend_read and _write (libevent/bufferevent.c:77-87 and 101-111). */
    method Unsuspend(d: Dir, what: Reason)
      requires Valid()
      modifies this`read, this`write, this`readArmed, this`writeArmed
      ensures Valid() && V() == Toggled(old(V()), d, what, false)
      ensures read == if d.Read? then old(read).(suspended := old(read).suspended - {what}) else old(read)
      ensures write == if d.Write? then old(write).(suspended := old(write).suspended - {what}) else old(write)
      ensures readArmed == (read.enabled && read.suspended == {})
      ensures writeArmed == (connecting || (write.enabled && write.suspended == {}))
    {
      match d {
        case Read =>
          read := read.(suspended := read.suspended - {what});
          if read.suspended == {} && read.enabled {
            readArmed := true;
          }
        case Write =>
          write := write.(suspended := write.suspended - {what});
          if write.suspended == {} && write.enabled {
            writeArmed := true;
          }
      }
    }

    /** bufferevent_enable (libevent/bufferevent.c:406-427): a suspended side is not armed yet. */
    method Enable(d: Dir)
      requires Valid()
      modifies this`read, this`write, this`readArmed, this`writeArmed
      ensures Valid() && V() == WithSide(old(V()), d, SideOf(old(V()), d).(enabled := true))
      ensures read == old(read).(enabled := d.Read? || old(read).enabled)
      ensures write == old(write).(enabled := d.Write? || old(write).enabled)
      ensures readArmed == (read.enabled && read.suspended == {})
      ensures writeArmed == (connecting || (write.enabled && write.suspended == {}))
    {
      match d {
        case Read =>
          read := read.(enabled := true);
          if read.suspended == {} {
            readArmed := true;
          }
        case Write =>
          write := write.(enabled := true);
          if write.suspended == {} {
            writeArmed := true;
          }
      }
    }

    /** bufferevent_disable (libevent/bufferevent.c:497-510 and libevent/bufferevent_sock.c:564-579):
        writing stays armed while the socket connects. */
    method Disable(d: Dir)
      requires Valid()
      modifies this`read, this`write, this`readArmed, this`writeArmed
      ensures Valid() && V() == WithSide(old(V()), d, SideOf(old(V()), d).(enabled := false))
      ensures read == old(read).(enabled := !d.Read? && old(read).enabled)
      ensures write == old(write).(enabled := !d.Write? && old(write).enabled)
      ensures readArmed == (read.enabled && read.suspended == {})
      ensures writeArmed == (connecting || (write.enabled && write.suspended == {}))
    {
      match d {
        case Read =>
          read, readArmed := read.(enabled := false), false;
        case Write =>
          write, writeArmed := write.(enabled := false), connecting;
      }
    }

    method Take(d: Dir, bytes: int)
      modifies bucket
      ensures bucket.V() == WithLimit(old(bucket.V()), d, LimitOf(old(bucket.V()), d) - bytes)
      ensures bucket.readLimit == old(bucket.readLimit) - if d.Read? then bytes else 0
      ensures bucket.writeLimit == old(bucket.writeLimit) - if d.Write? then bytes else 0
      ensures bucket.lastUpdated == old(bucket.lastUpdated)
    {
      match d {
        case Read => bucket.readLimit := bucket.readLimit - bytes;
        case Write => bucket.writeLimit := bucket.writeLimit - bytes;
      }
    }

    /** The part of _bufferevent_decrement_read_buckets and _write_buckets that is about the
        stream alone (libevent/bufferevent_ratelim.c:283-295 and 321-333). */
    method DecrementBuckets(d: Dir, bytes: int)
      requires Valid() && FlowOk(V())
      modifies this, bucket
      ensures Valid() && FlowOk(V()) && V() == Charged(old(V()), d, bytes)
      ensures forall e: Dir :: FlowHolds(old(V()), e) ==> FlowHolds(V(), e)
      ensures cfg.Some? ==> LimitOf(bucket.V(), d) == LimitOf(old(bucket.V()), d) - bytes
      ensures bucket.readLimit == old(bucket.readLimit) - if cfg.Some? && d.Read? then bytes else 0
      ensures bucket.writeLimit == old(bucket.writeLimit) - if cfg.Some? && d.Write? then bytes else 0
      ensures bucket.lastUpdated == old(bucket.lastUpdated) && cfg == old(cfg)
      ensures cfg.Some? ==> (Flagged(V(), d, Bandwidth) <==> LimitOf(bucket.V(), d) <= 0)
      ensures cfg.Some? && LimitOf(bucket.V(), d) <= 0 ==>
              !(if d.Read? then readArmed else writeArmed && !connecting) && timer
    {
      hide Charged, FlowHolds, FlowOk, SameButFor, SameGroupFlags;
      ChargedKeeps(V(), d, bytes);
      ChargedDoes(V(), d, bytes);
      Pay(d, bytes);
    }

    method Pay(d: Dir, bytes: int)
      requires Valid()
      modifies this, bucket
      ensures Valid() && V() == Charged(old(V()), d, bytes)
    {
      if cfg.None? {
        return;
      }
      Take(d, bytes);
      if LimitOf(bucket.V(), d) <= 0 {
        Suspend(d, Bandwidth);
        timer := true;
      } else if Flagged(V(), d, Bandwidth) {
        if !Flagged(V(), Opposite(d), Bandwidth) {
          timer := false;
        }
        Unsuspend(d, Bandwidth);
      }
    }

    /** bufferevent_decrement_read_limit and _write_limit
        (libevent/bufferevent_ratelim.c:900-954). */
    method DecrementLimit(d: Dir, decr: int)
      requires Valid() && FlowOk(V()) && cfg.Some?
      modifies this, bucket
      ensures Valid() && FlowOk(V()) && V() == Adjusted(old(V()), d, decr)
      ensures forall e: Dir :: FlowHolds(old(V()), e) ==> FlowHolds(V(), e)
      ensures bucket.readLimit == old(bucket.readLimit) - if d.Read? then decr else 0
      ensures bucket.writeLimit == old(bucket.writeLimit) - if d.Write? then decr else 0
      ensures bucket.lastUpdated == old(bucket.lastUpdated) && cfg == old(cfg)
      ensures Crossed(LimitOf(old(bucket.V()), d), LimitOf(bucket.V(), d), Flagged(old(V()), d, Bandwidth),
                Flagged(V(), d, Bandwidth))
    {
      hide Adjusted, FlowHolds, FlowOk, SameButFor, SameGroupFlags, Crossed;
      AdjustedKeeps(V(), d, decr);
      AdjustedDoes(V(), d, decr);
      PayOrGiveBack(d, decr);
    }

    method PayOrGiveBack(d: Dir, decr: int)
      requires Valid()
      modifies this, bucket
      ensures Valid() && V() == Adjusted(old(V()), d, decr)
    {
      var was := LimitOf(bucket.V(), d);
      Take(d, decr);
      var left := LimitOf(bucket.V(), d);
      if was > 0 && left <= 0 {
        Suspend(d, Bandwidth);
        timer := true;
      } else if was <= 0 && left > 0 {
        if !Flagged(V(), Opposite(d), Bandwidth) {
          timer := false;
        }
        Unsuspend(d, Bandwidth);
      }
    }

    /** _bev_refill_callback (libevent/bufferevent_ratelim.c:395-441). */
    method RefillCallback(tick: nat)
      requires Valid() && FlowOk(V()) && running
      modifies this, bucket
      ensures Valid() && FlowOk(V()) && !running && V() == CalledBack(old(V()), tick)
      ensures cfg.Some? ==>
                forall d: Dir :: Flagged(V(), d, Bandwidth) <==>
                  Flagged(old(V()), d, Bandwidth) && LimitOf(bucket.V(), d) <= 0
      ensures cfg.Some? ==> (timer <==> old(timer) || Flagged(V(), Read, Bandwidth) || Flagged(V(), Write, Bandwidth))
      ensures FlowFits(old(V())) ==>
                forall d: Dir :: FlowHolds(old(V()), d) ==> (FlowHolds(V(), d) <==> FlowSpares(old(V()), tick, d))
    {
      hide CalledBack, FlowHolds, FlowOk, FlowFits, FlowSpares, SameButFor, SameGroupFlags, Refreshed;
      CalledBackKeeps(V(), tick);
      CalledBackDoes(V(), tick);
      CallbackHolds(V(), tick);
      Refill(tick);
    }

    method BringUpToDate(tick: nat)
      requires cfg.Some?
      modifies bucket
      ensures bucket.V() == Refilled(old(bucket.V()), cfg.value, tick)
    {
      var updated := bucket.Update(cfg.value, tick);
    }

    method Refill(tick: nat)
      requires Valid()
      modifies this, bucket
      ensures Valid() && V() == CalledBack(old(V()), tick)
    {
      hide Refilled;
      var again := false;
      if cfg.None? {
        running := false;
        return;
      }
      BringUpToDate(tick);
      if Flagged(V(), Read, Bandwidth) {
        if bucket.readLimit > 0 {
          Unsuspend(Read, Bandwidth);
        } else {
          again := true;
        }
      }
      if Flagged(V(), Write, Bandwidth) {
        if bucket.writeLimit > 0 {
          Unsuspend(Write, Bandwidth);
        } else {
          again := true;
        }
      }
      if again {
        timer := true;
      }
      running := false;
    }

    /** _bufferevent_get_rlim_max (libevent/bufferevent_ratelim.c:199-260), for a member of the
        group.  A member that finds its group suspended suspends itself. */
    method RlimMax(d: Dir, group: RateGroup?, tick: nat) returns (most: nat)
      requires Valid() && (group != null ==> this in group.members && group.limits != bucket)
      modifies this`read, this`write, this`readArmed, this`writeArmed, bucket
      ensures Valid() &&
              V() == if group != null && group.Closed(d)
                     then Toggled(Refreshed(old(V()), tick), d, GroupBandwidth, true) else Refreshed(old(V()), tick)
      ensures most == MaxMove(V(), if group != null then Some(group.ShareOf(d)) else None, d)
      ensures var own := if cfg.None? then MAX_TO_MOVE_EVER else LimitOf(bucket.V(), d);
        most <= Pos(own) && (group != null ==> most <= Pos(group.ShareOf(d))) &&
        (most == Pos(own) || (group != null && most == Pos(group.ShareOf(d))))
    {
      var maxSoFar: int := MAX_TO_MOVE_EVER;
      if cfg.Some? {
        BringUpToDate(tick);
        maxSoFar := LimitOf(bucket.V(), d);
      }
      if group != null {
        var share: int;
        if group.Closed(d) {
          Suspend(d, GroupBandwidth);
          share := 0;
        } else {
          share := Quotient(LimitOf(group.limits.V(), d), |group.members|);
          if share < group.minShare {
            share := group.minShare;
          }
        }
        if maxSoFar > share {
          maxSoFar := share;
        }
      }
      most := if maxSoFar < 0 then 0 else maxSoFar;
    }

    /** The flag of a side after its limit was looked at
        (libevent/bufferevent_ratelim.c:614-626). */
    method Settle(d: Dir) returns (suspended: bool)
      requires Valid()
      modifies this`read, this`write, this`readArmed, this`writeArmed
      ensures Valid() && V() == Toggled(old(V()), d, Bandwidth, suspended) && suspended == (LimitOf(bucket.V(), d) <= 0)
    {
      suspended := LimitOf(bucket.V(), d) <= 0;
      if suspended {
        Suspend(d, Bandwidth);
      } else {
        Unsuspend(d, Bandwidth);
      }
    }

    /** bufferevent_set_rate_limit (libevent/bufferevent_ratelim.c:558-635). */
    method SetRateLimit(cfg: Option<Cfg>, tick: nat)
      requires Valid() && FlowOk(V()) && (cfg.Some? ==> CfgOk(cfg.value))
      modifies this, bucket
      ensures Valid() && FlowOk(V()) && V() == Configured(old(V()), cfg, tick)
      ensures forall e: Dir :: FlowHolds(old(V()), e) ==> FlowHolds(V(), e)
      ensures this.cfg == cfg
      ensures cfg.Some? && cfg != old(this.cfg) ==>
                (forall d: Dir :: Flagged(V(), d, Bandwidth) <==> LimitOf(bucket.V(), d) <= 0) &&
                (timer <==> LimitOf(bucket.V(), Read) <= 0 || LimitOf(bucket.V(), Write) <= 0)
    {
      ConfiguredKeeps(V(), cfg, tick);
      ConfiguredDoes(V(), cfg, tick);
      if cfg.None? {
        this.cfg := None;
        Unsuspend(Read, Bandwidth);
        Unsuspend(Write, Bandwidth);
        timer := false;
        return;
      }
      if this.cfg == cfg {
        return;
      }
      var reinit := this.cfg.Some?;
      this.cfg := cfg;
      bucket.Init(cfg.value, tick, reinit);
      if reinit {
        timer := false;
      }
      var readSuspended := Settle(Read);
      var writeSuspended := Settle(Write);
      if readSuspended || writeSuspended {
        timer := true;
      }
    }
  }

  // ---------------------------------------------------------------- groups

  /** The group's bucket has paid. */
  ghost function Taken(s: State, d: Dir, bytes: int): State
    requires 0 in s.groups
  {
    WithLimits(s, 0, WithLimit(s.groups[0].limits, d, LimitOf(s.groups[0].limits, d) - bytes))
  }

  lemma {:induction false} ChargedIsSwept(s: State, d: Dir, bytes: int, got: set<nat>)
    requires 0 in s.groups
    ensures var r := Taken(s, d, bytes);
      GroupCharged(s, 0, d, bytes, got) ==
        if LimitOf(s.groups[0].limits, d) - bytes <= 0 then Swept(r, 0, d, got, true)
        else if Closed(s.groups[0], d) then Swept(r, 0, d, got, false) else r
  {
  }

  lemma {:induction false} AdjustedIsSwept(s: State, d: Dir, decr: int, got: set<nat>)
    requires 0 in s.groups
    ensures var r, was := Taken(s, d, decr), LimitOf(s.groups[0].limits, d);
      GroupAdjusted(s, 0, d, decr, got) ==
        if was > 0 && was - decr <= 0 then Swept(r, 0, d, got, true)
        else if was <= 0 && was - decr > 0 then Swept(r, 0, d, got, false) else r
  {
  }

  /** The group has its configuration and share. */
  ghost function Shared(s: State, c: Cfg, share: nat): State
    requires 0 in s.groups
  {
    s.(groups := s.groups[0 := s.groups[0].(cfg := c, minShare := ShareFor(share, c))])
  }

  lemma {:induction false} ConfiguredIsShared(s: State, c: Cfg, share: nat)
    requires 0 in s.groups
    ensures GroupConfigured(s, 0, Some(c), share) ==
            Shared(WithLimits(s, 0, Initialised(s.groups[0].limits, c, 0, true)), c, share)
  {
  }

  /** What the protocol says of a group whose members are numbered by their places. */
  lemma {:induction false} SweptFlows(s: State, n: nat, d: Dir, got: set<nat>, closing: bool)
    requires 0 in s.groups && s.groups[0].members == seq(n, i => i) && forall b: nat :: b in s.streams <==> b < n
    ensures var r := Swept(s, 0, d, got, closing);
      (forall b: nat :: b in r.streams <==> b < n) &&
      (forall b: nat {:trigger r.streams[b]} :: b < n ==>
        r.streams[b].flow == if b in got then Toggled(s.streams[b].flow, d, GroupBandwidth, closing)
          else s.streams[b].flow) &&
      r.groups == s.groups[0 := WithFlags(s.groups[0], d, closing, !closing && exists i: nat :: i < n && i !in got)]
  {
    var r := Swept(s, 0, d, got, closing);
    forall b: nat | b < n
      ensures r.streams[b].flow == if b in got then Toggled(s.streams[b].flow, d, GroupBandwidth, closing)
              else s.streams[b].flow
    {
      assert s.groups[0].members[b] == b;
    }
    assert forall i :: 0 <= i < n ==> s.groups[0].members[i] == i;
    if i: nat :| i < n && i !in got {
      assert s.groups[0].members[i] !in got;
    }
  }

  /** The members as the protocol shows them. */
  ghost function FlowsOf(s: State, n: nat): seq<Flow>
    requires forall b: nat :: b < n ==> b in s.streams
  {
    seq(n, i requires 0 <= i < n => s.streams[i].flow)
  }

  /** struct bufferevent_rate_limit_group. */
  class RateGroup {
    var members: seq<Bufferevent>
    var readSuspended: bool
    var writeSuspended: bool
    var pendingRead: bool
    var pendingWrite: bool
    const limits: Bucket
    var cfg: Cfg
    var configuredMinShare: nat
    var minShare: nat

    constructor (cfg: Cfg, tick: nat)
      requires CfgOk(cfg)
      ensures Valid() && members == [] && !Closed(Read) && !Closed(Write) && !Pending(Read) && !Pending(Write)
      ensures fresh(limits) && limits.V() == Limits(cfg.readRate, cfg.writeRate, tick)
      ensures BucketFits(limits.V(), cfg) && limits.readLimit > 0 && limits.writeLimit > 0
      ensures 1 <= minShare <= 64 && minShare <= cfg.readRate && minShare <= cfg.writeRate
    {
      members := [];
      readSuspended, writeSuspended, pendingRead, pendingWrite := false, false, false, false;
      this.cfg := cfg;
      configuredMinShare, minShare := 64, 64;
      limits := new Bucket();
      new;
      limits.Init(cfg, tick, false);
      SetMinShare(64);
    }

    predicate Closed(d: Dir)
      reads this`readSuspended, this`writeSuspended
    {
      if d.Read? then readSuspended else writeSuspended
    }

    predicate Pending(d: Dir)
      reads this`pendingRead, this`pendingWrite
    {
      if d.Read? then pendingRead else pendingWrite
    }

    predicate Valid()
      reads this, members
    {
      (forall i, j :: 0 <= i < j < |members| ==> members[i] != members[j]) &&
      forall i :: 0 <= i < |members| ==> members[i].Valid()
    }

    /** The group's buckets are no member's. */
    predicate Apart()
      reads this`members
    {
      forall i :: 0 <= i < |members| ==> members[i].bucket != limits
    }

    /** bufferevent_rate_limit_group_set_min_share (libevent/bufferevent_ratelim.c:699-718): a
        share is never more than what comes in with one tick. */
    method SetMinShare(share: nat)
      modifies this`configuredMinShare, this`minShare
      ensures share <= SSIZE_MAX ==> configuredMinShare == share && minShare == ShareFor(share, cfg)
      ensures share > SSIZE_MAX ==> configuredMinShare == old(configuredMinShare) && minShare == old(minShare)
    {
      if share > SSIZE_MAX {
        return;
      }
      configuredMinShare := share;
      var s := share;
      if s > cfg.readRate {
        s := cfg.readRate;
      }
      if s > cfg.writeRate {
        s := cfg.writeRate;
      }
      minShare := s;
    }

    /** What the group leaves to each member. */
    function ShareOf(d: Dir): int
      requires |members| > 0
      reads this, limits
    {
      if Closed(d) then 0 else Share(LimitOf(limits.V(), d), |members|, minShare)
    }

    /** What the lock of the group guards. */
    function V(): Group
      reads this, limits
    {
      Group(seq(|members|, i => i), readSuspended, writeSuspended, pendingRead, pendingWrite, limits.V(), cfg, minShare)
    }

    /** What the members look like. */
    ghost predicate Are(flows: seq<Flow>)
      reads this`members, members, set i | 0 <= i < |members| :: members[i].bucket
    {
      |flows| == |members| && forall i :: 0 <= i < |members| ==> members[i].V() == flows[i]
    }

    /** The group and its members are those of the protocol. */
    ghost predicate Shows(s: State)
      reads this, limits, members, set i | 0 <= i < |members| :: members[i].bucket
    {
      s.groups == map[0 := V()] && (forall b: nat :: b in s.streams <==> b < |members|) &&
      forall i :: 0 <= i < |members| ==> s.streams[i].flow == members[i].V()
    }

    /** The members whose locks can be taken, by their places. */
    ghost function Ids(got: set<Bufferevent>): set<nat>
      reads this`members
    {
      set i: nat | i < |members| && members[i] in got
    }

    /** What a member looks like after the group tried to reach it. */
    ghost function Reach(f: Flow, d: Dir, got: bool, closing: bool): Flow {
      if got then Toggled(f, d, GroupBandwidth, closing) else f
    }

    /** The group has tried to reach every member. */
    ghost predicate Reached(flows: seq<Flow>, d: Dir, got: set<Bufferevent>, closing: bool)
      reads this`members, members, set i | 0 <= i < |members| :: members[i].bucket
    {
      |flows| == |members| &&
      forall i :: 0 <= i < |members| ==> members[i].V() == Reach(flows[i], d, members[i] in got, closing)
    }

    /** The protocol's sweep shows what became of a group and its members. */
    lemma ShowsSwept(s: State, g: Group, d: Dir, got: set<Bufferevent>, closing: bool)
      requires s.groups == map[0 := g] && (forall b: nat :: b in s.streams <==> b < |members|)
      requires Reached(FlowsOf(s, |members|), d, got, closing)
      requires g.members == seq(|members|, i => i)
      requires V() == WithFlags(g, d, closing, !closing && Misses(got))
      ensures Shows(Swept(s, 0, d, Ids(got), closing))
    {
      SweptFlows(s, |members|, d, Ids(got), closing);
      MissesIds(got);
    }

    /** Some member cannot be reached. */
    ghost predicate Misses(got: set<Bufferevent>)
      reads this`members
    {
      exists i :: 0 <= i < |members| && members[i] !in got
    }

    lemma MissesIds(got: set<Bufferevent>)
      ensures Misses(got) <==> exists i: nat :: i < |members| && i !in Ids(got)
    {
      if i :| 0 <= i < |members| && members[i] !in got {
        assert i !in Ids(got);
      }
      if i: nat :| i < |members| && i !in Ids(got) {
        assert members[i] !in got;
      }
    }

    /** _bev_group_suspend_reading and _writing (libevent/bufferevent_ratelim.c:351-391).  `got`
        are the members whose locks can be taken. */
    method SuspendAll(d: Dir, got: set<Bufferevent>, ghost s: State)
      requires Valid() && Shows(s)
      modifies this`readSuspended, this`writeSuspended, this`pendingRead, this`pendingWrite
      modifies members
      ensures Valid() && members == old(members) && Closed(d) && !Pending(d)
      ensures Closed(Opposite(d)) == old(Closed(Opposite(d))) && Pending(Opposite(d)) == old(Pending(Opposite(d)))
      ensures limits.V() == old(limits.V()) && Shows(Swept(s, 0, d, Ids(got), true))
    {
      ghost var g := V();
      SuspendMembers(d, got, FlowsOf(s, |members|));
      ShowsSwept(s, g, d, got, true);
    }

    method SuspendMembers(d: Dir, got: set<Bufferevent>, ghost flows: seq<Flow>)
      requires Valid() && Are(flows)
      modifies this`readSuspended, this`writeSuspended, this`pendingRead, this`pendingWrite
      modifies members
      ensures Valid() && members == old(members) && V() == WithFlags(old(V()), d, true, false) &&
              Reached(flows, d, got, true)
    {
      match d {
        case Read => readSuspended, pendingRead := true, false;
        case Write => writeSuspended, pendingWrite := true, false;
      }
      CloseMembers(d, got, flows);
    }

    method CloseMembers(d: Dir, got: set<Bufferevent>, ghost flows: seq<Flow>)
      requires Valid() && Are(flows)
      modifies members
      ensures Valid() && unchanged(this) && unchanged(limits) && Reached(flows, d, got, true)
    {
      var n := 0;
      while n < |members|
        invariant n <= |members| && Valid()
        invariant forall i :: 0 <= i < |members| ==>
                  members[i].V() == Reach(flows[i], d, i < n && members[i] in got, true)
      {
        if members[n] in got {
          members[n].Suspend(d, GroupBandwidth);
        }
        n := n + 1;
      }
    }

    /** The places that a walk over the whole group from `first` has seen when it is at `n`:
        from `first` to the end, and then from the start. */
    ghost predicate Seen(first: nat, n: nat, i: nat)
      requires first <= |members|
      reads this`members
    {
      if n <= |members| then first <= i < n else first <= i < |members| || i < n - |members|
    }

    /** _bev_group_unsuspend_reading and _writing (libevent/bufferevent_ratelim.c:486-522), from a
        random member on; `got` are the members whose locks can be taken. */
    method UnsuspendAll(d: Dir, got: set<Bufferevent>, random: nat, ghost s: State)
      requires Valid() && Shows(s)
      modifies this`readSuspended, this`writeSuspended, this`pendingRead, this`pendingWrite
      modifies members
      ensures Valid() && members == old(members) && !Closed(d)
      ensures Closed(Opposite(d)) == old(Closed(Opposite(d))) && Pending(Opposite(d)) == old(Pending(Opposite(d)))
      ensures limits.V() == old(limits.V()) && Shows(Swept(s, 0, d, Ids(got), false))
    {
      ghost var g := V();
      UnsuspendMembers(d, got, random, FlowsOf(s, |members|));
      ShowsSwept(s, g, d, got, false);
    }

    method UnsuspendMembers(d: Dir, got: set<Bufferevent>, random: nat, ghost flows: seq<Flow>)
      requires Valid() && Are(flows)
      modifies this`readSuspended, this`writeSuspended, this`pendingRead, this`pendingWrite
      modifies members
      ensures Valid() && members == old(members) && V() == WithFlags(old(V()), d, false, Misses(got)) &&
              Reached(flows, d, got, false)
    {
      match d {
        case Read => readSuspended := false;
        case Write => writeSuspended := false;
      }
      var again := Visit(d, got, random, flows);
      match d {
        case Read => pendingRead := again;
        case Write => pendingWrite := again;
      }
    }

    /** What a walk has found and done when it is at `n`. */
    ghost predicate Walked(d: Dir, got: set<Bufferevent>, first: nat, n: nat, again: bool, flows: seq<Flow>)
      requires first <= |members| && |flows| == |members|
      reads this`members, members, set i | 0 <= i < |members| :: members[i].bucket
    {
      (again <==> exists i {:trigger members[i]} :: 0 <= i < |members| && Seen(first, n, i) && members[i] !in got) &&
      forall i {:trigger members[i]} :: 0 <= i < |members| ==>
        members[i].V() == Reach(flows[i], d, Seen(first, n, i) && members[i] in got, false)
    }

    /** FOREACH_RANDOM_ORDER (libevent/bufferevent_ratelim.c:473-484): two loops that see every
        member once. */
    method Visit(d: Dir, got: set<Bufferevent>, random: nat, ghost flows: seq<Flow>) returns (again: bool)
      requires Valid() && Are(flows)
      modifies members
      ensures Valid() && unchanged(this) && unchanged(limits)
      ensures (again <==> Misses(got)) && Reached(flows, d, got, false)
    {
      var first := if members == [] then 0 else random % |members|;
      again := VisitFrom(d, got, first, flows);
      again := VisitUpTo(d, got, first, again, flows);
    }

    method VisitFrom(d: Dir, got: set<Bufferevent>, first: nat, ghost flows: seq<Flow>) returns (again: bool)
      requires Valid() && first <= |members| && Are(flows)
      modifies members
      ensures Valid() && unchanged(this) && unchanged(limits) && Walked(d, got, first, |members|, again, flows)
    {
      again := false;
      var n := first;
      while n < |members|
        invariant first <= n <= |members| && Valid() && Walked(d, got, first, n, again, flows)
      {
        again := VisitOne(d, got, first, n, n, again, flows);
        n := n + 1;
      }
    }

    method VisitUpTo(d: Dir, got: set<Bufferevent>, first: nat, before: bool, ghost flows: seq<Flow>)
      returns (again: bool)
      requires Valid() && first <= |members| && |flows| == |members| && Walked(d, got, first, |members|, before, flows)
      modifies members
      ensures Valid() && unchanged(this) && unchanged(limits) && Walked(d, got, first, |members| + first, again, flows)
    {
      again := before;
      var n := 0;
      while n < first
        invariant 0 <= n <= first && Valid() && Walked(d, got, first, |members| + n, again, flows)
      {
        again := VisitOne(d, got, first, |members| + n, n, again, flows);
        n := n + 1;
      }
    }

    /** The block of the loop. */
    method VisitOne(d: Dir, got: set<Bufferevent>, ghost first: nat, ghost n: nat, at: nat, before: bool,
                    ghost flows: seq<Flow>)
      returns (again: bool)
      requires Valid() && |flows| == |members| && first <= |members| && at < |members|
      requires (first <= n == at) || (n == |members| + at && at < first)
      requires Walked(d, got, first, n, before, flows)
      modifies members[at]
      ensures Valid() && Walked(d, got, first, n + 1, again, flows)
    {
      again := before;
      if members[at] in got {
        members[at].Unsuspend(d, GroupBandwidth);
      } else {
        again := true;
      }
    }

    method Take(d: Dir, bytes: int, ghost s: State)
      requires Valid() && Apart() && Shows(s)
      modifies limits
      ensures Valid() && Shows(Taken(s, d, bytes))
      ensures limits.V() == WithLimit(old(limits.V()), d, LimitOf(old(limits.V()), d) - bytes)
      ensures limits.readLimit == old(limits.readLimit) - if d.Read? then bytes else 0
      ensures limits.writeLimit == old(limits.writeLimit) - if d.Write? then bytes else 0
    {
      hide WithLimit, LimitOf;
      TakeTokens(d, bytes);
    }

    method TakeTokens(d: Dir, bytes: int)
      modifies limits
      ensures limits.V() == WithLimit(old(limits.V()), d, LimitOf(old(limits.V()), d) - bytes)
      ensures limits.readLimit == old(limits.readLimit) - if d.Read? then bytes else 0
      ensures limits.writeLimit == old(limits.writeLimit) - if d.Write? then bytes else 0
    {
      match d {
        case Read => limits.readLimit := limits.readLimit - bytes;
        case Write => limits.writeLimit := limits.writeLimit - bytes;
      }
    }

    /** The part of _bufferevent_decrement_read_buckets and _write_buckets that is about the group
        (libevent/bufferevent_ratelim.c:297-307 and 335-345). */
    method Decrement(d: Dir, bytes: int, got: set<Bufferevent>, random: nat, ghost s: State)
      requires Valid() && Apart() && Shows(s)
      modifies this`readSuspended, this`writeSuspended, this`pendingRead, this`pendingWrite, limits
      modifies members
      ensures Valid() && members == old(members) && Shows(GroupCharged(s, 0, d, bytes, Ids(got)))
      ensures Closed(d) <==> LimitOf(limits.V(), d) <= 0
      ensures limits.readLimit == old(limits.readLimit) - if d.Read? then bytes else 0
      ensures limits.writeLimit == old(limits.writeLimit) - if d.Write? then bytes else 0
    {
      Take(d, bytes, s);
      ghost var r := Taken(s, d, bytes);
      ChargedIsSwept(s, d, bytes, Ids(got));
      if LimitOf(limits.V(), d) <= 0 {
        SuspendAll(d, got, r);
      } else if Closed(d) {
        UnsuspendAll(d, got, random, r);
      }
    }

    /** bufferevent_rate_limit_group_decrement_read and _write
        (libevent/bufferevent_ratelim.c:956-994). */
    method DecrementLimit(d: Dir, decr: int, got: set<Bufferevent>, random: nat, ghost s: State)
      requires Valid() && Apart() && Shows(s)
      modifies this`readSuspended, this`writeSuspended, this`pendingRead, this`pendingWrite, limits
      modifies members
      ensures Valid() && members == old(members) && Shows(GroupAdjusted(s, 0, d, decr, Ids(got)))
      ensures limits.readLimit == old(limits.readLimit) - if d.Read? then decr else 0
      ensures limits.writeLimit == old(limits.writeLimit) - if d.Write? then decr else 0
      ensures Crossed(LimitOf(old(limits.V()), d), LimitOf(limits.V(), d), old(Closed(d)), Closed(d))
    {
      var was := LimitOf(limits.V(), d);
      Take(d, decr, s);
      ghost var r := Taken(s, d, decr);
      AdjustedIsSwept(s, d, decr, Ids(got));
      if was > 0 && LimitOf(limits.V(), d) <= 0 {
        SuspendAll(d, got, r);
      } else if was <= 0 && LimitOf(limits.V(), d) > 0 {
        UnsuspendAll(d, got, random, r);
      }
    }

    method Clip(c: Cfg, ghost s: State)
      requires Valid() && Apart() && Shows(s)
      modifies limits
      ensures Valid() && Shows(WithLimits(s, 0, Initialised(s.groups[0].limits, c, 0, true)))
      ensures limits.readLimit == Min(old(limits.readLimit), c.readMaximum) &&
              limits.writeLimit == Min(old(limits.writeLimit), c.writeMaximum)
    {
      hide Initialised, Min;
      ClipLimits(c);
    }

    method ClipLimits(c: Cfg)
      modifies limits
      ensures limits.V() == Initialised(old(limits.V()), c, 0, true)
      ensures limits.readLimit == Min(old(limits.readLimit), c.readMaximum) &&
              limits.writeLimit == Min(old(limits.writeLimit), c.writeMaximum)
    {
      if limits.readLimit > c.readMaximum {
        limits.readLimit := c.readMaximum;
      }
      if limits.writeLimit > c.writeMaximum {
        limits.writeLimit := c.writeMaximum;
      }
    }

    /** bufferevent_rate_limit_group_set_cfg (libevent/bufferevent_ratelim.c:667-697). */
    method SetCfg(c: Cfg, ghost s: State)
      requires Valid() && Apart() && Shows(s) && configuredMinShare <= SSIZE_MAX
      modifies this`cfg, this`minShare, this`configuredMinShare, limits
      ensures Valid() && Shows(GroupConfigured(s, 0, Some(c), configuredMinShare))
      ensures configuredMinShare == old(configuredMinShare) && cfg == c && minShare == ShareFor(configuredMinShare, c)
      ensures limits.readLimit == Min(old(limits.readLimit), c.readMaximum) &&
              limits.writeLimit == Min(old(limits.writeLimit), c.writeMaximum)
    {
      ghost var r := WithLimits(s, 0, Initialised(s.groups[0].limits, c, 0, true));
      ConfiguredIsShared(s, c, configuredMinShare);
      Clip(c, s);
      Reconfigure(c, r);
    }

    method Reconfigure(c: Cfg, ghost s: State)
      requires Valid() && Shows(s) && configuredMinShare <= SSIZE_MAX
      modifies this`cfg, this`minShare, this`configuredMinShare
      ensures Valid() && Shows(Shared(s, c, configuredMinShare)) && configuredMinShare == old(configuredMinShare)
      ensures cfg == c && minShare == ShareFor(configuredMinShare, c)
    {
      cfg := c;
      SetMinShare(configuredMinShare);
    }

    /** What _bev_group_refill_callback does in one direction
        (libevent/bufferevent_ratelim.c:541-548). */
    method Reopen(d: Dir, got: set<Bufferevent>, random: nat, ghost s: State)
      requires Valid() && Apart() && Shows(s)
      modifies this`readSuspended, this`writeSuspended, this`pendingRead, this`pendingWrite
      modifies members
      ensures Valid() && members == old(members) && Shows(Reopened(s, 0, d, Ids(got)))
      ensures Closed(d) <==> old(Closed(d)) && !old(Pending(d)) && LimitOf(limits.V(), d) < minShare
      ensures limits.V() == old(limits.V()) &&
              Closed(Opposite(d)) == old(Closed(Opposite(d))) && Pending(Opposite(d)) == old(Pending(Opposite(d)))
    {
      if Pending(d) || (Closed(d) && LimitOf(limits.V(), d) >= minShare) {
        UnsuspendAll(d, got, random, s);
      }
    }

    method RefillLimits(tick: nat, ghost s: State)
      requires Valid() && Apart() && Shows(s)
      modifies limits
      ensures Valid() && limits.V() == Refilled(old(limits.V()), cfg, tick) && Shows(WithLimits(s, 0, limits.V()))
    {
      hide Refilled;
      var updated := limits.Update(cfg, tick);
    }

    /** _bev_group_refill_callback (libevent/bufferevent_ratelim.c:527-556). */
    method RefillCallback(tick: nat, got: set<Bufferevent>, gotWrite: set<Bufferevent>, random: nat, randomWrite: nat,
                          ghost s: State)
      requires Valid() && Apart() && Shows(s)
      modifies this`readSuspended, this`writeSuspended, this`pendingRead, this`pendingWrite, limits
      modifies members
      ensures Valid() && members == old(members) && Shows(GroupCalledBack(s, 0, tick, Ids(got), Ids(gotWrite)))
      ensures limits.V() == Refilled(old(limits.V()), cfg, tick)
      ensures forall d: Dir :: Closed(d) <==> old(Closed(d)) && !old(Pending(d)) && LimitOf(limits.V(), d) < minShare
    {
      hide Refilled, Reopened;
      RefillLimits(tick, s);
      ghost var r := WithLimits(s, 0, limits.V());
      Reopen(Read, got, random, r);
      Reopen(Write, gotWrite, randomWrite, Reopened(r, 0, Read, Ids(got)));
    }
  }
}
