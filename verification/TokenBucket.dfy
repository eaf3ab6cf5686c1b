/** The token buckets of the rate limiter (libevent/bufferevent_ratelim.c:48-172), with the
    machine's integers: limits are 64-bit signed, rates and maxima 64-bit unsigned, and ticks
    32-bit unsigned. */
module TokenBucket {

  const INT_MAX := 0x7fff_ffff
  const TICKS := 0x1_0000_0000
  const WORD := 0x1_0000_0000_0000_0000
  const SSIZE_MAX := 0x7fff_ffff_ffff_ffff
  const MICROSECONDS := 0x10_0000

  datatype Option<T> = None | Some(value: T)

  datatype Timeval = Timeval(sec: nat, usec: nat)

  /** struct ev_token_bucket_cfg; `id` tells configurations at different addresses apart. */
  datatype Cfg = Cfg(id: nat, readRate: nat, readMaximum: nat, writeRate: nat, writeMaximum: nat,
                     tickTimeout: Timeval, msecPerTick: nat)

  /** What struct ev_token_bucket holds. */
  datatype Limits = Limits(read: int, write: int, lastUpdated: nat)

  datatype Dir = Read | Write

  function LimitOf(b: Limits, d: Dir): int {
    if d.Read? then b.read else b.write
  }

  function WithLimit(b: Limits, d: Dir, v: int): Limits {
    if d.Read? then b.(read := v) else b.(write := v)
  }

  function RateOf(c: Cfg, d: Dir): nat {
    if d.Read? then c.readRate else c.writeRate
  }

  function MaximumOf(c: Cfg, d: Dir): nat {
    if d.Read? then c.readMaximum else c.writeMaximum
  }

  function Min(x: int, y: int): int {
    if x < y then x else y
  }

  function Pos(x: int): nat {
    if x < 0 then 0 else x
  }

  /** Conversion to an unsigned and to a signed 64-bit integer. */
  function Unsigned(x: int): nat {
    x % WORD
  }

  function Signed(x: int): int {
    if Unsigned(x) <= SSIZE_MAX then Unsigned(x) else Unsigned(x) - WORD
  }

  predicate Fits(x: int) {
    -SSIZE_MAX - 1 <= x <= SSIZE_MAX
  }

  predicate RateOk(rate: nat, maximum: nat) {
    1 <= rate <= maximum <= SSIZE_MAX
  }

  predicate CfgOk(c: Cfg) {
    RateOk(c.readRate, c.readMaximum) && RateOk(c.writeRate, c.writeMaximum)
  }

  /** The limit is a 64-bit number, and not above the maximum. */
  predicate LimitFits(b: Limits, c: Cfg, d: Dir) {
    Fits(LimitOf(b, d)) && LimitOf(b, d) <= MaximumOf(c, d)
  }

  predicate BucketFits(b: Limits, c: Cfg) {
    CfgOk(c) && LimitFits(b, c, Read) && LimitFits(b, c, Write)
  }

  // ---------------------------------------------------------------- configurations and ticks

  /** ev_token_bucket_cfg_new (libevent/bufferevent_ratelim.c:141-172). */
  function CfgNew(id: nat, readRate: nat, readBurst: nat, writeRate: nat, writeBurst: nat,
                  tickLen: Option<Timeval>): Option<Cfg> {
    if readRate > readBurst || writeRate > writeBurst || readRate < 1 || writeRate < 1 then None
    else if readRate > SSIZE_MAX || writeRate > SSIZE_MAX || readBurst > SSIZE_MAX || writeBurst > SSIZE_MAX then None
    else
      var t := if tickLen.None? then Timeval(1, 0) else tickLen.value;
      Some(Cfg(id, readRate, readBurst, writeRate, writeBurst, t,
               (t.sec * 1000 + (t.usec % MICROSECONDS) / 1000) % TICKS))
  }

  /** A configuration is made exactly from rates and bursts that fit together. */
  lemma {:induction false} CfgNewIsOk(id: nat, readRate: nat, readBurst: nat, writeRate: nat, writeBurst: nat,
                                      tickLen: Option<Timeval>)
    ensures var c := CfgNew(id, readRate, readBurst, writeRate, writeBurst, tickLen);
      (c.Some? <==> RateOk(readRate, readBurst) && RateOk(writeRate, writeBurst)) && (c.Some? ==> CfgOk(c.value))
    ensures var c := CfgNew(id, readRate, readBurst, writeRate, writeBurst, tickLen);
      c.Some? ==>
        var x := c.value;
        x.id == id && x.readRate == readRate && x.readMaximum == readBurst &&
        x.writeRate == writeRate && x.writeMaximum == writeBurst &&
        (tickLen.None? ==> x.tickTimeout == Timeval(1, 0) && x.msecPerTick == 1000) &&
        (tickLen.Some? ==> x.tickTimeout == tickLen.value) &&
        (x.tickTimeout.sec < 4_000_000 && x.tickTimeout.usec < 1_000_000 ==>
           x.msecPerTick == x.tickTimeout.sec * 1000 + x.tickTimeout.usec / 1000)
  {
  }

  /** The tick before it is cut to 32 bits. */
  function WideTick(tv: Timeval, c: Cfg): nat
    requires c.msecPerTick > 0
  {
    Unsigned(tv.sec * 1000 + tv.usec / 1000) / c.msecPerTick
  }

  /** ev_token_bucket_get_tick (libevent/bufferevent_ratelim.c:126-139). */
  function GetTick(tv: Timeval, c: Cfg): nat
    requires c.msecPerTick > 0
  {
    WideTick(tv, c) % TICKS
  }

  /** The tick of a time is the number of whole ticks in it, up to 2^32 of them. */
  lemma {:induction false} TickIsWhole(tv: Timeval, c: Cfg)
    requires c.msecPerTick > 0 && tv.sec * 1000 + tv.usec / 1000 < WORD
    ensures var msec, tick := tv.sec * 1000 + tv.usec / 1000, WideTick(tv, c);
      tick * c.msecPerTick <= msec < tick * c.msecPerTick + c.msecPerTick && (tick < TICKS ==> GetTick(tv, c) == tick)
  {
    var msec := tv.sec * 1000 + tv.usec / 1000;
    assert msec == msec / c.msecPerTick * c.msecPerTick + msec % c.msecPerTick;
  }

  /** The ticks from `last` to `current` in 32-bit arithmetic. */
  function Elapsed(last: nat, current: nat): nat {
    (current - last) % TICKS
  }

  /** The difference of two 32-bit ticks is the true number of ticks between them, wherever the
      counter wraps around, as long as that number has 32 bits. */
  lemma {:induction false} ElapsedIsTrue(last: nat, current: nat)
    requires last <= current
    ensures Elapsed(last % TICKS, current % TICKS) == (current - last) % TICKS
    ensures Elapsed(last % TICKS, current % TICKS) == current - last <==> current - last < TICKS
  {
    var q, r := last / TICKS, current / TICKS;
    assert last == q * TICKS + last % TICKS && current == r * TICKS + current % TICKS;
    Residue(current % TICKS - last % TICKS, r - q);
  }

  lemma {:induction false} Residue(x: int, k: int)
    ensures (x + k * TICKS) % TICKS == x % TICKS
  {
    var q := x / TICKS;
    assert x + k * TICKS == (q + k) * TICKS + x % TICKS;
  }

  // ---------------------------------------------------------------- the update

  /** The limit after `n` ticks, computed the way the source does it. */
  function UpdatedLimit(limit: int, maximum: nat, rate: nat, n: nat): int
    requires n > 0
  {
    if Unsigned(maximum - limit) / n < rate then maximum else Signed(limit + Unsigned(n * rate))
  }

  lemma {:induction false} QuotientBelow(a: nat, n: nat, rate: nat)
    requires n > 0
    ensures a / n < rate <==> a < n * rate
  {
    assert a == n * (a / n) + a % n;
    if a / n < rate {
      assert n * (a / n + 1) <= n * rate;
    } else {
      assert n * rate <= n * (a / n);
    }
  }

  /** The branch that the source takes, for tokens worth `v`. */
  lemma {:induction false} WorthOfUpdate(limit: int, maximum: nat, rate: nat, n: nat, v: nat)
    requires n > 0 && v == n * rate
    ensures UpdatedLimit(limit, maximum, rate, n) == if Unsigned(maximum - limit) < v then maximum
            else Signed(limit + Unsigned(v))
  {
    QuotientBelow(Unsigned(maximum - limit), n, rate);
  }

  lemma {:induction false} WrappedDifference(limit: int, maximum: nat)
    requires Fits(limit) && maximum <= SSIZE_MAX
    ensures Unsigned(maximum - limit) == if limit <= maximum then maximum - limit else WORD - (limit - maximum)
  {
  }

  /** For tokens worth `v`, whatever number of ticks they come from. */
  lemma {:induction false} BranchIsMin(limit: int, maximum: nat, v: nat)
    requires Fits(limit) && maximum <= SSIZE_MAX && 1 <= v
    ensures var r := if Unsigned(maximum - limit) < v then maximum else Signed(limit + Unsigned(v));
      (r == Min(maximum, limit + v) <==> (limit <= maximum || WORD - (limit - maximum) <= v)) &&
      (limit <= maximum ==> r >= limit && Fits(r))
  {
    WrappedDifference(limit, maximum);
  }

  /** The update adds the ticks' worth of tokens up to the maximum, without any overflow, if and
      only if the limit was not above the maximum before, or so many tokens come in that the
      unsigned difference hides it. */
  lemma {:induction false} UpdateIsMin(limit: int, maximum: nat, rate: nat, n: nat)
    requires RateOk(rate, maximum) && Fits(limit) && 1 <= n <= INT_MAX
    ensures UpdatedLimit(limit, maximum, rate, n) == Min(maximum, limit + n * rate) <==>
              (limit <= maximum || WORD - (limit - maximum) <= n * rate)
    ensures limit <= maximum ==>
            UpdatedLimit(limit, maximum, rate, n) >= limit && Fits(UpdatedLimit(limit, maximum, rate, n))
  {
    WorthOfUpdate(limit, maximum, rate, n, n * rate);
    WorthIsPositive(n, rate);
    BranchIsMin(limit, maximum, n * rate);
  }

  lemma {:induction false} WorthIsPositive(n: nat, rate: nat)
    requires n > 0 && rate > 0
    ensures n * rate >= 1
  {
  }

  /** Above its maximum the limit jumps to it when very many tokens come in, and otherwise takes them
      all, in 64-bit arithmetic. */
  lemma {:induction false} UpdateAboveMaximum(limit: int, maximum: nat, rate: nat, n: nat)
    requires RateOk(rate, maximum) && Fits(limit) && limit > maximum && 1 <= n <= INT_MAX
    ensures var r := UpdatedLimit(limit, maximum, rate, n);
      if n * rate > WORD - (limit - maximum) then r == maximum
      else Fits(r) && exists k :: r == limit + n * rate - k * WORD
  {
    WorthOfUpdate(limit, maximum, rate, n, n * rate);
    WrappedDifference(limit, maximum);
    SignedIsCongruent(limit, n * rate);
  }

  lemma {:induction false} SignedIsCongruent(limit: int, v: nat)
    ensures Fits(Signed(limit + Unsigned(v))) && exists k :: Signed(limit + Unsigned(v)) == limit + v - k * WORD
  {
    var x := limit + Unsigned(v);
    var k := v / WORD + x / WORD + if Unsigned(x) <= SSIZE_MAX then 0 else 1;
    assert v == v / WORD * WORD + Unsigned(v) && x == x / WORD * WORD + Unsigned(x);
    assert Signed(x) == limit + v - k * WORD;
  }

  /** Tokens given back above the maximum are kept, and more are added. */
  lemma {:induction false} CreditAboveMaximumGrows()
    ensures UpdatedLimit(200, 100, 10, 1) == 210 && Min(100, 200 + 1 * 10) == 100
  {
    assert Unsigned(100 - 200) == WORD - 100;
    assert (WORD - 100) / 1 == WORD - 100;
  }

  /** A bucket with tokens still has some after an update: the limit is not above the maximum, or
      the tokens that come in do not overflow it, or overflow it so far that the unsigned
      difference hides them. */
  predicate KeepsTokens(limit: int, maximum: nat, worth: nat) {
    limit <= maximum || limit + worth <= SSIZE_MAX || limit + worth > WORD
  }

  lemma {:induction false} BranchIsPositive(limit: int, maximum: nat, v: nat)
    requires Fits(limit) && 0 < limit && 1 <= maximum <= SSIZE_MAX && 1 <= v
    ensures (if Unsigned(maximum - limit) < v then maximum else Signed(limit + Unsigned(v))) > 0 <==>
              KeepsTokens(limit, maximum, v)
  {
    WrappedDifference(limit, maximum);
  }

  /** A full bucket of 2^62 tokens that gets one more back is emptied by the next tick. */
  lemma {:induction false} OverfullIsEmptied()
    ensures var huge := 0x4000_0000_0000_0000;
      UpdatedLimit(huge + 1, huge, huge, 1) == 1 - 2 * huge && !KeepsTokens(huge + 1, huge, 1 * huge)
  {
    assert Unsigned(-1) == WORD - 1;
    assert (WORD - 1) / 1 == WORD - 1;
  }

  /** When an update leaves a bucket with tokens. */
  lemma {:induction false} UpdateIsPositive(limit: int, maximum: nat, rate: nat, n: nat)
    requires RateOk(rate, maximum) && Fits(limit) && 0 < limit && 1 <= n <= INT_MAX
    ensures UpdatedLimit(limit, maximum, rate, n) > 0 <==> KeepsTokens(limit, maximum, n * rate)
  {
    WorthOfUpdate(limit, maximum, rate, n, n * rate);
    WorthIsPositive(n, rate);
    BranchIsPositive(limit, maximum, n * rate);
  }

  /** ev_token_bucket_update on values: nothing when no tick has passed or time went back. */
  function Refilled(b: Limits, c: Cfg, current: nat): Limits {
    var n := Elapsed(b.lastUpdated, current);
    if n == 0 || n > INT_MAX then b
    else Limits(UpdatedLimit(b.read, c.readMaximum, c.readRate, n),
      UpdatedLimit(b.write, c.writeMaximum, c.writeRate, n), current)
  }

  /** The ticks that the update counts, or 0 when it does nothing. */
  function Counted(b: Limits, current: nat): nat {
    var n := Elapsed(b.lastUpdated, current);
    if n > INT_MAX then 0 else n
  }

  /** An update takes nothing away, and leaves a limit that fits, while no more tokens were given
      back than the bucket has room for. */
  lemma {:induction false} RefilledFits(b: Limits, c: Cfg, current: nat, d: Dir)
    requires CfgOk(c) && LimitFits(b, c, d)
    ensures LimitFits(Refilled(b, c, current), c, d)
    ensures LimitOf(Refilled(b, c, current), d) == Min(MaximumOf(c, d),
            LimitOf(b, d) + Counted(b, current) * RateOf(c, d))
    ensures LimitOf(Refilled(b, c, current), d) >= LimitOf(b, d)
  {
    var n := Counted(b, current);
    if n > 0 {
      UpdateIsMin(LimitOf(b, d), MaximumOf(c, d), RateOf(c, d), n);
    }
  }

  /** ev_token_bucket_init on values. */
  function Initialised(b: Limits, c: Cfg, current: nat, reinitialize: bool): Limits {
    if reinitialize then Limits(Min(b.read, c.readMaximum), Min(b.write, c.writeMaximum), b.lastUpdated)
    else Limits(c.readRate, c.writeRate, current)
  }

  /** struct ev_token_bucket. */
  class Bucket {
    var readLimit: int
    var writeLimit: int
    var lastUpdated: nat

    constructor ()
      ensures V() == Limits(0, 0, 0)
    {
      readLimit, writeLimit, lastUpdated := 0, 0, 0;
    }

    function V(): Limits
      reads this
    {
      Limits(readLimit, writeLimit, lastUpdated)
    }

    /** ev_token_bucket_init (libevent/bufferevent_ratelim.c:48-70). */
    method Init(c: Cfg, current: nat, reinitialize: bool)
      modifies this
      ensures V() == Initialised(old(V()), c, current, reinitialize)
      ensures CfgOk(c) ==> readLimit <= c.readMaximum && writeLimit <= c.writeMaximum
      ensures readLimit == if reinitialize then Min(old(readLimit), c.readMaximum) else c.readRate
      ensures writeLimit == if reinitialize then Min(old(writeLimit), c.writeMaximum) else c.writeRate
      ensures lastUpdated == if reinitialize then old(lastUpdated) else current
    {
      if reinitialize {
        if readLimit > c.readMaximum {
          readLimit := c.readMaximum;
        }
        if writeLimit > c.writeMaximum {
          writeLimit := c.writeMaximum;
        }
      } else {
        readLimit := c.readRate;
        writeLimit := c.writeRate;
        lastUpdated := current;
      }
    }

    /** ev_token_bucket_update (libevent/bufferevent_ratelim.c:72-109). */
    method Update(c: Cfg, current: nat) returns (updated: bool)
      modifies this
      ensures V() == Refilled(old(V()), c, current)
      ensures var n := Elapsed(old(lastUpdated), current);
        (updated <==> 1 <= n <= INT_MAX) && lastUpdated == (if updated then current else old(lastUpdated)) &&
        (!updated ==> readLimit == old(readLimit) && writeLimit == old(writeLimit)) &&
        (updated && CfgOk(c) && Fits(old(readLimit)) && old(readLimit) <= c.readMaximum ==>
           readLimit == Min(c.readMaximum, old(readLimit) + n * c.readRate)) &&
        (updated && CfgOk(c) && Fits(old(writeLimit)) && old(writeLimit) <= c.writeMaximum ==>
           writeLimit == Min(c.writeMaximum, old(writeLimit) + n * c.writeRate))
    {
      var n := (current - lastUpdated) % TICKS;
      if n == 0 || n > INT_MAX {
        return false;
      }
      if CfgOk(c) && Fits(readLimit) { UpdateIsMin(readLimit, c.readMaximum, c.readRate, n); }
      if CfgOk(c) && Fits(writeLimit) { UpdateIsMin(writeLimit, c.writeMaximum, c.writeRate, n); }
      if Unsigned(c.readMaximum - readLimit) / n < c.readRate {
        readLimit := c.readMaximum;
      } else {
        readLimit := Signed(readLimit + Unsigned(n * c.readRate));
      }
      if Unsigned(c.writeMaximum - writeLimit) / n < c.writeRate {
        writeLimit := c.writeMaximum;
      } else {
        writeLimit := Signed(writeLimit + Unsigned(n * c.writeRate));
      }
      lastUpdated := current;
      updated := true;
    }
  }

  // ---------------------------------------------------------------- the bandwidth

  /** Tokens taken at a true tick. */
  datatype Take = Take(now: nat, bytes: nat)

  /** The bucket after it was brought up to date and tokens were taken. */
  function AfterTake(b: Limits, c: Cfg, d: Dir, t: Take): Limits {
    var r := Refilled(b, c, t.now % TICKS);
    WithLimit(r, d, LimitOf(r, d) - t.bytes)
  }

  /** A stream that never takes more than it may, and looks at the clock in order. */
  ghost predicate Obeys(b: Limits, c: Cfg, d: Dir, takes: seq<Take>, clock: nat)
    decreases |takes|
  {
    takes != [] ==>
      takes[0].now >= clock && takes[0].bytes <= Pos(LimitOf(Refilled(b, c, takes[0].now % TICKS), d)) &&
      Obeys(AfterTake(b, c, d, takes[0]), c, d, takes[1..], takes[0].now)
  }

  ghost function Total(takes: seq<Take>): nat {
    if takes == [] then 0 else takes[0].bytes + Total(takes[1..])
  }

  ghost function LastTick(takes: seq<Take>, clock: nat): nat {
    if takes == [] then clock else takes[|takes| - 1].now
  }

  /** The bucket holds what its configuration allows, and it was brought up to date at `clock`,
      unless the clock had not moved or had moved too far. */
  ghost predicate Fresh(b: Limits, c: Cfg, d: Dir, clock: nat) {
    CfgOk(c) && LimitFits(b, c, d) && b.lastUpdated < TICKS &&
    (Elapsed(b.lastUpdated, clock % TICKS) == 0 || Elapsed(b.lastUpdated, clock % TICKS) > INT_MAX)
  }

  lemma {:induction false} WorthGrows(n: int, m: int, rate: nat)
    requires n <= m
    ensures n * rate <= m * rate
  {
  }

  /** The ticks that the next update counts have passed since the last look at the clock, even
      when the 32-bit counter wraps around in between. */
  lemma {:induction false} CountedTicksPassed(b: Limits, clock: nat, now: nat)
    requires Elapsed(b.lastUpdated, clock % TICKS) == 0 || Elapsed(b.lastUpdated, clock % TICKS) > INT_MAX
    requires clock <= now
    ensures Counted(b, now % TICKS) <= now - clock
  {
    var m := Elapsed(b.lastUpdated, clock % TICKS);
    ElapsedAdds(b.lastUpdated, clock, now);
    if m == 0 {
      ResidueAtMost(now - clock);
    } else if 1 <= Elapsed(b.lastUpdated, now % TICKS) <= INT_MAX {
      ResidueWraps(m, now - clock);
    }
  }

  lemma {:induction false} RefilledIsCurrent(b: Limits, c: Cfg, current: nat)
    requires b.lastUpdated < TICKS && current < TICKS
    ensures var r := Refilled(b, c, current);
      r.lastUpdated < TICKS && (Elapsed(r.lastUpdated, current) == 0 || Elapsed(r.lastUpdated, current) > INT_MAX)
  {
    hide UpdatedLimit;
  }

  /** From one look at the clock to the next, the bucket gains no more than the ticks between them
      are worth. */
  lemma {:induction false} GainIsBounded(b: Limits, c: Cfg, d: Dir, clock: nat, now: nat)
    requires Fresh(b, c, d, clock) && clock <= now
    ensures var r := Refilled(b, c, now % TICKS);
      Fresh(r, c, d, now) && Pos(LimitOf(r, d)) <= Pos(LimitOf(b, d)) + (now - clock) * RateOf(c, d)
  {
    hide UpdatedLimit, Refilled, Elapsed, Counted;
    var n := Counted(b, now % TICKS);
    CountedTicksPassed(b, clock, now);
    RefilledFits(b, c, now % TICKS, d);
    RefilledIsCurrent(b, c, now % TICKS);
    WorthGrows(0, n, RateOf(c, d));
    WorthGrows(n, now - clock, RateOf(c, d));
  }

  lemma {:induction false} TakenIsFresh(b: Limits, c: Cfg, d: Dir, clock: nat, t: Take)
    requires Fresh(b, c, d, clock) && clock <= t.now
    requires t.bytes <= Pos(LimitOf(Refilled(b, c, t.now % TICKS), d))
    ensures var r := AfterTake(b, c, d, t);
      Fresh(r, c, d, t.now) && Pos(LimitOf(r, d)) + t.bytes <= Pos(LimitOf(b, d)) + (t.now - clock) * RateOf(c, d)
    ensures Pos(LimitOf(AfterTake(b, c, d, t), d)) + t.bytes <= MaximumOf(c, d)
  {
    GainIsBounded(b, c, d, clock, t.now);
  }

  lemma {:induction false} ElapsedAdds(last: nat, clock: nat, now: nat)
    requires clock <= now
    ensures Elapsed(last, now % TICKS) == (Elapsed(last, clock % TICKS) + (now - clock)) % TICKS
  {
    var q, r := clock / TICKS, now / TICKS;
    assert clock == q * TICKS + clock % TICKS && now == r * TICKS + now % TICKS;
    var x := clock % TICKS - last;
    var k := x / TICKS;
    assert x == k * TICKS + x % TICKS;
    Residue(x % TICKS + (now - clock), k + q - r);
  }

  lemma {:induction false} ResidueAtMost(d: nat)
    ensures d % TICKS <= d
  {
  }

  lemma {:induction false} ResidueWraps(m: nat, d: nat)
    requires INT_MAX < m < TICKS && 1 <= (m + d) % TICKS <= INT_MAX
    ensures (m + d) % TICKS <= d
  {
    if m + d < TICKS {
      assert false;
    }
    Residue(m + d, -1);
    ResidueAtMost(m + d - TICKS);
  }

  lemma {:induction false} Joined(p: int, q: int, bytes: int, rest: int, n: int, m: int, rate: nat)
    requires bytes + q <= p + n * rate && rest <= q + m * rate
    ensures bytes + rest <= p + (n + m) * rate
  {
  }

  /** What is taken from now on is covered by what is there and the ticks that pass. */
  lemma {:induction false} TotalIsBounded(b: Limits, c: Cfg, d: Dir, takes: seq<Take>, clock: nat)
    requires Fresh(b, c, d, clock) && Obeys(b, c, d, takes, clock)
    ensures clock <= LastTick(takes, clock)
    ensures Total(takes) <= Pos(LimitOf(b, d)) + (LastTick(takes, clock) - clock) * RateOf(c, d)
    decreases |takes|
  {
    if takes != [] {
      var t := takes[0];
      TakenIsFresh(b, c, d, clock, t);
      var r, last := AfterTake(b, c, d, t), LastTick(takes[1..], t.now);
      TotalIsBounded(r, c, d, takes[1..], t.now);
      Joined(Pos(LimitOf(b, d)), Pos(LimitOf(r, d)), t.bytes, Total(takes[1..]), t.now - clock, last - t.now,
        RateOf(c, d));
    }
  }

  lemma {:induction false} ObeysPrefix(b: Limits, c: Cfg, d: Dir, takes: seq<Take>, clock: nat, n: nat)
    requires Obeys(b, c, d, takes, clock) && n <= |takes|
    ensures Obeys(b, c, d, takes[..n], clock)
    decreases n
  {
    if n > 0 {
      ObeysPrefix(AfterTake(b, c, d, takes[0]), c, d, takes[1..], takes[0].now, n - 1);
      assert takes[..n][1..] == takes[1..][..n - 1];
    }
  }

  lemma {:induction false} SliceOfRest<T>(s: seq<T>, i: nat, j: nat)
    requires 0 < i <= j <= |s|
    ensures s[i..j] == s[1..][i - 1..j - 1]
  {
    var a, b := s[i..j], s[1..][i - 1..j - 1];
    forall k | 0 <= k < |a| ensures a[k] == b[k] {
      assert b[k] == s[1..][i - 1 + k];
    }
  }

  /** The bandwidth: whatever part of a run one looks at, a stream that takes no more than it may
      takes at most a full bucket and the rate for every tick that passes. */
  lemma {:induction false} BandwidthIsBounded(b: Limits, c: Cfg, d: Dir, takes: seq<Take>, clock: nat, i: nat, j: nat)
    requires Fresh(b, c, d, clock) && Obeys(b, c, d, takes, clock) && i < j <= |takes|
    ensures takes[i].now <= takes[j - 1].now
    ensures Total(takes[i..j]) <= MaximumOf(c, d) + (takes[j - 1].now - takes[i].now) * RateOf(c, d)
    decreases |takes|
  {
    var t := takes[0];
    TakenIsFresh(b, c, d, clock, t);
    var after := AfterTake(b, c, d, t);
    if i > 0 {
      BandwidthIsBounded(after, c, d, takes[1..], t.now, i - 1, j - 1);
      SliceOfRest(takes, i, j);
    } else {
      var rest := takes[1..][..j - 1];
      ObeysPrefix(after, c, d, takes[1..], t.now, j - 1);
      TotalIsBounded(after, c, d, rest, t.now);
      assert takes[0..j][1..] == rest && takes[0..j][0] == t;
      assert LastTick(rest, t.now) == takes[j - 1].now;
      Joined(MaximumOf(c, d), Pos(LimitOf(after, d)), t.bytes, Total(rest), 0, takes[j - 1].now - t.now, RateOf(c, d));
    }
  }

  /** A new bucket is up to date. */
  lemma {:induction false} InitialisedIsFresh(b: Limits, c: Cfg, d: Dir, now: nat)
    requires CfgOk(c)
    ensures Fresh(Initialised(b, c, now % TICKS, false), c, d, now)
  {
  }

  /** The bandwidth since the limit was set: one tick's worth, and the rate for every tick that
      has passed; and in any part of that time no more than the maximum and the rate. */
  lemma {:induction false} BandwidthSinceSet(b: Limits, c: Cfg, d: Dir, takes: seq<Take>, now: nat, i: nat, j: nat)
    requires CfgOk(c) && Obeys(Initialised(b, c, now % TICKS, false), c, d, takes, now) && i < j <= |takes|
    ensures now <= LastTick(takes, now)
    ensures Total(takes) <= (LastTick(takes, now) - now + 1) * RateOf(c, d)
    ensures takes[i].now <= takes[j - 1].now
    ensures Total(takes[i..j]) <= MaximumOf(c, d) + (takes[j - 1].now - takes[i].now) * RateOf(c, d)
  {
    InitialisedIsFresh(b, c, d, now);
    TotalIsBounded(Initialised(b, c, now % TICKS, false), c, d, takes, now);
    BandwidthIsBounded(Initialised(b, c, now % TICKS, false), c, d, takes, now, i, j);
  }

  /** An exhausted bucket has tokens again, or any amount up to its maximum, after exactly as many
      ticks as it takes to pay for it. */
  lemma {:induction false} DebtIsPaid(b: Limits, c: Cfg, d: Dir, current: nat, amount: int)
    requires CfgOk(c) && LimitFits(b, c, d) && amount <= MaximumOf(c, d)
    ensures LimitOf(Refilled(b, c, current), d) >= amount <==>
            Counted(b, current) * RateOf(c, d) >= amount - LimitOf(b, d)
  {
    RefilledFits(b, c, current, d);
  }
}
