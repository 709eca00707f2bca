// What a cleanup may forget (crates/firewall/src/lib.rs).
module FirewallSweeps {
  import opened Prelude
  import opened Proxy
  import opened FirewallModel
  import opened FirewallRuns
  import opened Accounts
  import Firewalls

  // ---- The next answer -----------------------------------------------------

  // Sweeping changes no later answer of the blocklist.
  lemma SweepKeepsBlocks(cfg: Config, s: State, ip: IpAddr, swept: Instant, now: Instant)
    requires swept <= now
    ensures CheckBlocklist(Cleanup(cfg, s, swept), ip, now) == CheckBlocklist(s, ip, now)
  {
  }

  lemma Faster(e: real, rate: real, least: real)
    requires e >= 300.0 && rate >= least >= 0.0
    ensures e * rate >= 300.0 * least
  {
    assert e * rate == 300.0 * rate + (e - 300.0) * rate;
  }

  // What an idle bucket holds when it is next charged.
  function Refilled(cfg: Config, b: Bucket, now: Instant): real {
    var noted := NoteRequest(b, now, cfg.alphaPct);
    Refill(noted.(rate := EffectiveRps(cfg.rps, noted.ewma, cfg.adaptive)), now).tokens
  }

  // What refilling brings: the time since the last one, at the rate now.
  lemma RefilledBrings(cfg: Config, b: Bucket, now: Instant, ewma: Option<real>)
    requires ewma == NoteRequest(b, now, cfg.alphaPct).ewma
    ensures var brought := Since(now, b.lastRefill) * EffectiveRps(cfg.rps, ewma, cfg.adaptive);
      Refilled(cfg, b, now) == MinReal(b.tokens + brought, b.capacity)
  {
    hide EffectiveRps, NoteRequest;
    NoteKeeps(b, now, cfg.alphaPct);
    var e, rate := Since(now, b.lastRefill), EffectiveRps(cfg.rps, ewma, cfg.adaptive);
    assert Refilled(cfg, b, now) == MinReal(b.tokens + e * rate, b.capacity);
  }

  lemma IdleRefills(cfg: Config, b: Bucket, now: Instant)
    requires b.capacity == cfg.burst as real && 0.0 <= b.tokens <= b.capacity && IsIdle(b, now)
    ensures MinReal(300.0 * cfg.rps as real, cfg.burst as real) <= Refilled(cfg, b, now) <= cfg.burst as real
  {
    hide EffectiveRps, Refilled;
    var ewma := NoteRequest(b, now, cfg.alphaPct).ewma;
    RefilledBrings(cfg, b, now, ewma);
    TopRateBounds(cfg, ewma);
    BringsEnough(b.tokens, Since(now, b.lastRefill), EffectiveRps(cfg.rps, ewma, cfg.adaptive), cfg.rps as real,
      b.capacity);
  }

  lemma BringsEnough(tokens: real, e: real, rate: real, least: real, cap: real)
    requires e >= 300.0 && rate >= least >= 0.0 && 0.0 <= tokens <= cap
    ensures MinReal(300.0 * least, cap) <= MinReal(tokens + e * rate, cap) <= cap
  {
    Faster(e, rate, least);
  }

  // The bucket of an address, or a new one.
  function BucketOf(cfg: Config, s: State, ip: IpAddr, now: Instant): Bucket {
    if ip in s.buckets then s.buckets[ip] else NewBucket(cfg, now)
  }

  lemma AllowedIff(cfg: Config, s: State, ip: IpAddr, now: Instant)
    requires ValidConfig(cfg) && cfg.enabled
    ensures CheckRequest(cfg, s, ip, now).1.Allow? <==>
      !BlockedAt(s, ip, now) && Refilled(cfg, BucketOf(cfg, s, ip, now), now) >= 1.0
  {
    RequestTouches(cfg, s, ip, now);
  }

  lemma NewRefilled(cfg: Config, now: Instant)
    ensures Refilled(cfg, NewBucket(cfg, now), now) == cfg.burst as real
  {
    var noted := NoteRequest(NewBucket(cfg, now), now, cfg.alphaPct);
    assert Since(now, noted.lastRefill) * EffectiveRps(cfg.rps, noted.ewma, cfg.adaptive) == 0.0;
  }

  // Off, refilling at all, or with nothing to refill.
  predicate KeepsNextAnswer(cfg: Config) { !cfg.enabled || cfg.rps >= 1 || cfg.burst == 0 }

  lemma NextAnswerKept(cfg: Config, s: State, ip: IpAddr, swept: Instant, now: Instant)
    requires ValidConfig(cfg) && KeepsNextAnswer(cfg) && swept <= now && Sound(cfg, s, swept)
    ensures CheckRequest(cfg, Cleanup(cfg, s, swept), ip, now).1.Allow? <==> CheckRequest(cfg, s, ip, now).1.Allow?
  {
    if cfg.enabled {
      AllowedIff(cfg, s, ip, now);
      AllowedIff(cfg, Cleanup(cfg, s, swept), ip, now);
      SweepKeepsBlocks(cfg, s, ip, swept, now);
      if ip in s.buckets && IsIdle(s.buckets[ip], swept) {
        IdleRefills(cfg, s.buckets[ip], now);
        NewRefilled(cfg, now);
      }
    }
  }

  // ---- Every later answer --------------------------------------------------

  function From(cfg: Config, s: State, run: Run): State
    requires ValidConfig(cfg)
  {
    if run == [] then s else Step(cfg, From(cfg, s, run[..|run| - 1]), run[|run| - 1])
  }

  // Each event at `start` or later, in order.
  ghost predicate Later(start: Instant, run: Run) { Monotone(run) && (run != [] ==> start <= run[0].at) }

  // An address whose count of violations is never looked at.
  predicate Harmless(cfg: Config, ip: IpAddr)
    requires ValidConfig(cfg)
  {
    cfg.threshold <= 1 || Trusted(cfg.trusted, ip)
  }

  // Escalation that never lengthens a block.
  predicate Flat(cfg: Config) { cfg.blockSecs == 0 || cfg.factor <= 1 || cfg.maxBlockSecs <= cfg.blockSecs }

  // The rate does not depend on what was measured.
  predicate Steady(cfg: Config) { !cfg.adaptive || cfg.rps == 0 || cfg.burst == 0 }

  // Every bucket the sweep drops would be found full.
  ghost predicate AllRefilled(cfg: Config, s: State, swept: Instant) {
    forall ip :: ip in s.buckets && IsIdle(s.buckets[ip], swept) ==>
      Refilled(cfg, s.buckets[ip], swept) == cfg.burst as real
  }

  // What the sweep drops is held against nobody: as many violations as a burst
  // works off, or violations that do not count, and strikes that lengthen no
  // block.
  ghost predicate NothingOwed(cfg: Config, s: State, swept: Instant)
    requires ValidConfig(cfg)
  {
    && (forall ip :: ip in s.buckets && IsIdle(s.buckets[ip], swept) ==>
      s.buckets[ip].violations <= cfg.burst || Harmless(cfg, ip))
    && (RecentStrikes(cfg, s, swept) == s.strikes || Flat(cfg))
  }

  // What the sweep drops is as good as new.
  ghost predicate Forgettable(cfg: Config, s: State, swept: Instant)
    requires ValidConfig(cfg)
  {
    AllRefilled(cfg, s, swept) && NothingOwed(cfg, s, swept)
  }

  // Violations that make no difference to an address with this many tokens:
  // each token it spends works one off.
  ghost predicate SameViolations(cfg: Config, ip: IpAddr, x: Bucket, y: Bucket)
    requires ValidConfig(cfg)
  {
    x.violations == y.violations || (y.violations == 0 && x.violations as real <= x.tokens) || Harmless(cfg, ip)
  }

  // Two buckets that the same requests find alike.
  ghost predicate SameBucket(cfg: Config, ip: IpAddr, x: Bucket, y: Bucket)
    requires ValidConfig(cfg)
  {
    && x.tokens == y.tokens && x.lastRefill == y.lastRefill && SameViolations(cfg, ip, x, y)
    && x.capacity == y.capacity == cfg.burst as real && 0.0 <= x.tokens <= x.capacity
  }

  // A bucket that a request finds as it would find a new one.
  ghost predicate AsNew(cfg: Config, ip: IpAddr, x: Bucket, now: Instant)
    requires ValidConfig(cfg)
  {
    && x.capacity == cfg.burst as real && 0.0 <= x.tokens <= x.capacity
    && Refilled(cfg, x, now) == cfg.burst as real
    && (x.violations <= cfg.burst || Harmless(cfg, ip))
  }

  ghost predicate BucketsAlike(cfg: Config, a: map<IpAddr, Bucket>, b: map<IpAddr, Bucket>, ip: IpAddr, now: Instant)
    requires ValidConfig(cfg)
  {
    if ip in b then ip in a && SameBucket(cfg, ip, a[ip], b[ip]) else ip in a ==> AsNew(cfg, ip, a[ip], now)
  }

  ghost predicate BlocksAlike(a: map<IpAddr, BlockEntry>, b: map<IpAddr, BlockEntry>, ip: IpAddr, now: Instant) {
    if ip in b then ip in a && a[ip] == b[ip] else ip in a ==> a[ip].expires <= now
  }

  // The state without the sweep, and with it, at any later time.
  ghost predicate Alike(cfg: Config, a: State, b: State, now: Instant)
    requires ValidConfig(cfg)
  {
    && (a.strikes == b.strikes || Flat(cfg))
    && (forall ip {:trigger BucketsAlike(cfg, a.buckets, b.buckets, ip, now)} ::
      BucketsAlike(cfg, a.buckets, b.buckets, ip, now))
    && (forall ip {:trigger BlocksAlike(a.blocklist, b.blocklist, ip, now)} ::
      BlocksAlike(a.blocklist, b.blocklist, ip, now))
  }

  lemma SweepAlike(cfg: Config, s: State, swept: Instant)
    requires ValidConfig(cfg)
    requires Sound(cfg, s, swept) && Forgettable(cfg, s, swept)
    ensures Alike(cfg, s, Cleanup(cfg, s, swept), swept)
  {
    hide Refilled, BlockSecs;
  }

  // ---- One charge ----------------------------------------------------------

  // Charging a bucket, by what it is found to hold.
  lemma ChargeIs(cfg: Config, b: Bucket, now: Instant)
    ensures var (b', ok), x := ChargeBucket(cfg, b, now), Refilled(cfg, b, now);
      && (ok <==> x >= 1.0) && b'.tokens == (if ok then x - 1.0 else x)
      && b'.lastRefill == now && b'.capacity == b.capacity
      && b'.violations == if !ok then b.violations + 1 else if b.violations > 0 then b.violations - 1 else 0
  {
    hide EffectiveRps;
  }

  lemma RateNotNegative(cfg: Config, ewma: Option<real>, e: real)
    requires e >= 0.0
    ensures e * EffectiveRps(cfg.rps, ewma, cfg.adaptive) >= 0.0
  {
    TopRateBounds(cfg, ewma);
  }

  lemma SteadyRate(cfg: Config, ewma: Option<real>)
    requires Steady(cfg) && cfg.burst > 0
    ensures EffectiveRps(cfg.rps, ewma, cfg.adaptive) == cfg.rps as real
  {
  }

  lemma RefilledBounds(cfg: Config, b: Bucket, now: Instant)
    requires b.capacity == cfg.burst as real && 0.0 <= b.tokens <= b.capacity
    ensures b.tokens <= Refilled(cfg, b, now) <= cfg.burst as real
  {
    hide EffectiveRps;
    NoteKeeps(b, now, cfg.alphaPct);
    RateNotNegative(cfg, NoteRequest(b, now, cfg.alphaPct).ewma, Since(now, b.lastRefill));
  }

  // What a bucket is found to hold, where the rate depends on nothing.
  lemma RefilledIs(cfg: Config, b: Bucket, now: Instant)
    requires Steady(cfg) && b.capacity == cfg.burst as real && 0.0 <= b.tokens <= b.capacity
    ensures Refilled(cfg, b, now)
      == MinReal(b.tokens + Accrued(cfg.rps as real, Since(now, b.lastRefill)), cfg.burst as real)
  {
    RefilledBounds(cfg, b, now);
    NoteKeeps(b, now, cfg.alphaPct);
    if cfg.burst > 0 {
      SteadyRate(cfg, NoteRequest(b, now, cfg.alphaPct).ewma);
    } else {
      AccruedAdds(cfg.rps as real, 0.0, Since(now, b.lastRefill));
    }
  }

  // One request on each of two counts of violations.
  lemma ViolationsStay(cfg: Config, ip: IpAddr, x: Bucket, y: Bucket, x': Bucket, y': Bucket, held: real)
    requires ValidConfig(cfg)
    requires SameViolations(cfg, ip, x, y) && 0.0 <= x.tokens <= held
    requires x'.tokens == if held >= 1.0 then held - 1.0 else held
    requires x'.violations == if held < 1.0 then x.violations + 1 else if x.violations > 0 then x.violations - 1 else 0
    requires y'.violations == if held < 1.0 then y.violations + 1 else if y.violations > 0 then y.violations - 1 else 0
    ensures SameViolations(cfg, ip, x', y')
  {
  }

  lemma SameCharge(cfg: Config, ip: IpAddr, x: Bucket, y: Bucket, now: Instant)
    requires ValidConfig(cfg) && Steady(cfg) && SameBucket(cfg, ip, x, y)
    ensures var (x', p), (y', q) := ChargeBucket(cfg, x, now), ChargeBucket(cfg, y, now);
      p == q && SameBucket(cfg, ip, x', y') && (!p ==> x'.violations > 0 && y'.violations > 0)
  {
    hide ChargeBucket, Refilled, SameViolations;
    RefilledIs(cfg, x, now);
    RefilledIs(cfg, y, now);
    RefilledBounds(cfg, x, now);
    ChargeIs(cfg, x, now);
    ChargeIs(cfg, y, now);
    ViolationsStay(cfg, ip, x, y, ChargeBucket(cfg, x, now).0, ChargeBucket(cfg, y, now).0, Refilled(cfg, x, now));
  }

  lemma NewCharge(cfg: Config, ip: IpAddr, x: Bucket, now: Instant)
    requires ValidConfig(cfg) && AsNew(cfg, ip, x, now)
    ensures var (x', p), (y', q) := ChargeBucket(cfg, x, now), ChargeBucket(cfg, NewBucket(cfg, now), now);
      p == q && SameBucket(cfg, ip, x', y') && (!p ==> x'.violations > 0 && y'.violations > 0)
  {
    hide ChargeBucket, Refilled;
    NewRefilled(cfg, now);
    ChargeIs(cfg, x, now);
    ChargeIs(cfg, NewBucket(cfg, now), now);
  }

  lemma ChargeAlike(cfg: Config, a: State, b: State, ip: IpAddr, now: Instant)
    requires ValidConfig(cfg) && Steady(cfg) && BucketsAlike(cfg, a.buckets, b.buckets, ip, now)
    ensures var (x, p), (y, q) := Charge(cfg, a, ip, now), Charge(cfg, b, ip, now);
      p == q && SameBucket(cfg, ip, x, y) && (!p ==> x.violations > 0 && y.violations > 0)
  {
    if ip in b.buckets {
      SameCharge(cfg, ip, a.buckets[ip], b.buckets[ip], now);
    } else if ip in a.buckets {
      NewCharge(cfg, ip, a.buckets[ip], now);
    } else {
      NewBucketSound(cfg, ip, now);
      SameCharge(cfg, ip, NewBucket(cfg, now), NewBucket(cfg, now), now);
    }
  }

  lemma NewBucketSound(cfg: Config, ip: IpAddr, now: Instant)
    requires ValidConfig(cfg)
    ensures SameBucket(cfg, ip, NewBucket(cfg, now), NewBucket(cfg, now))
  {
  }

  // ---- One step ------------------------------------------------------------

  lemma StillAsNew(cfg: Config, ip: IpAddr, x: Bucket, then_: Instant, now: Instant)
    requires ValidConfig(cfg) && Steady(cfg) && AsNew(cfg, ip, x, then_) && then_ <= now
    ensures AsNew(cfg, ip, x, now)
  {
    hide Refilled;
    RefilledIs(cfg, x, then_);
    RefilledIs(cfg, x, now);
    AccruedAdds(cfg.rps as real, Since(then_, x.lastRefill), Since(now, x.lastRefill) - Since(then_, x.lastRefill));
  }

  // Time passing keeps states alike.
  lemma LaterAlike(cfg: Config, a: State, b: State, then_: Instant, now: Instant)
    requires ValidConfig(cfg) && Steady(cfg) && Alike(cfg, a, b, then_) && then_ <= now
    ensures Alike(cfg, a, b, now)
  {
    hide AsNew, SameBucket;
    forall ip
      ensures BucketsAlike(cfg, a.buckets, b.buckets, ip, now)
    {
      assert BucketsAlike(cfg, a.buckets, b.buckets, ip, then_);
      if ip in a.buckets && ip !in b.buckets { StillAsNew(cfg, ip, a.buckets[ip], then_, now); }
    }
    forall ip
      ensures BlocksAlike(a.blocklist, b.blocklist, ip, now)
    {
      assert BlocksAlike(a.blocklist, b.blocklist, ip, then_);
    }
  }

  lemma BucketsSet(cfg: Config, a: State, b: State, a': State, b': State, ip: IpAddr, x: Bucket, y: Bucket,
        now: Instant)
    requires ValidConfig(cfg) && Alike(cfg, a, b, now) && SameBucket(cfg, ip, x, y)
    requires a' == a.(buckets := a.buckets[ip := x]) && b' == b.(buckets := b.buckets[ip := y])
    ensures Alike(cfg, a', b', now)
  {
    forall other
      ensures BucketsAlike(cfg, a'.buckets, b'.buckets, other, now)
    {
      assert BucketsAlike(cfg, a.buckets, b.buckets, other, now);
    }
    forall other
      ensures BlocksAlike(a'.blocklist, b'.blocklist, other, now)
    {
      assert BlocksAlike(a.blocklist, b.blocklist, other, now);
    }
  }

  lemma BlockAlike(cfg: Config, a: State, b: State, ip: IpAddr, secs: real, reason: BlockReason, now: Instant)
    requires ValidConfig(cfg) && Alike(cfg, a, b, now)
    ensures Alike(cfg, Block(a, ip, secs, reason, now), Block(b, ip, secs, reason, now), now)
  {
    var a', b' := Block(a, ip, secs, reason, now), Block(b, ip, secs, reason, now);
    forall other
      ensures BlocksAlike(a'.blocklist, b'.blocklist, other, now)
    {
      assert BlocksAlike(a.blocklist, b.blocklist, other, now);
    }
    forall other
      ensures BucketsAlike(cfg, a'.buckets, b'.buckets, other, now)
    {
      assert BucketsAlike(cfg, a.buckets, b.buckets, other, now);
    }
  }

  lemma {:induction false} PowOfOne(k: nat)
    ensures Pow(1, k) == 1
  {
    if k > 0 { PowOfOne(k - 1); }
  }

  lemma FirstBlocks(cfg: Config)
    ensures BlockSecs(cfg, 1) == cfg.blockSecs
    ensures BlockSecs(cfg, 2) == Min(cfg.blockSecs * Max(cfg.factor, 1), BlockCap(cfg))
  {
    var f := Max(cfg.factor, 1);
    assert Pow(f, 1) == f * Pow(f, 0);
  }

  // A second strike lengthens the block exactly where escalation is not flat.
  lemma FlatExact(cfg: Config)
    ensures Flat(cfg) <==> BlockSecs(cfg, 2) == BlockSecs(cfg, 1)
  {
    hide BlockSecs;
    FirstBlocks(cfg);
    if cfg.blockSecs > 0 && cfg.factor > 1 { MoreThanOnce(cfg.blockSecs, cfg.factor); }
  }

  lemma MoreThanOnce(base: nat, f: nat)
    requires base > 0 && f > 1
    ensures base * f > base
  {
  }

  // Where escalation is flat every block is as long as the first.
  lemma FlatSecs(cfg: Config, n: nat)
    requires Flat(cfg) && n >= 1
    ensures BlockSecs(cfg, n) == BlockSecs(cfg, 1)
  {
    FirstBlocks(cfg);
    if cfg.blockSecs > 0 && cfg.factor > 1 {
      hide BlockSecs;
      Firewalls.MoreStrikesNoShorter(cfg, 1, n);
    } else {
      PowOfOne(Min(n, MAX_STRIKES) - 1);
    }
  }

  lemma AutoBlockAlike(cfg: Config, a: State, b: State, ip: IpAddr, now: Instant)
    requires ValidConfig(cfg) && Alike(cfg, a, b, now)
    ensures var (a', m), (b', n) := RecordAutoBlock(cfg, a, ip, now), RecordAutoBlock(cfg, b, ip, now);
      m == n && Alike(cfg, a', b', now)
  {
    hide BlockSecs, AsNew, SameBucket;
    var m, n := NextStrike(a, ip), NextStrike(b, ip);
    if Flat(cfg) {
      FlatSecs(cfg, m);
      FlatSecs(cfg, n);
    }
    var a1 := a.(strikes := a.strikes[ip := StrikeRecord(m, now)]);
    var b1 := b.(strikes := b.strikes[ip := StrikeRecord(n, now)]);
    forall other
      ensures BucketsAlike(cfg, a1.buckets, b1.buckets, other, now)
      ensures BlocksAlike(a1.blocklist, b1.blocklist, other, now)
    {
      assert BucketsAlike(cfg, a.buckets, b.buckets, other, now) && BlocksAlike(a.blocklist, b.blocklist, other, now);
    }
    BlockAlike(cfg, a1, b1, ip, BlockSecs(cfg, m) as real, RateLimitViolation, now);
  }

  // A request gets the same answer and keeps the states alike.
  lemma RequestAlike(cfg: Config, a: State, b: State, ip: IpAddr, now: Instant)
    requires ValidConfig(cfg) && Steady(cfg) && Alike(cfg, a, b, now)
    ensures var (a', d), (b', e) := CheckRequest(cfg, a, ip, now), CheckRequest(cfg, b, ip, now);
      d == e && Alike(cfg, a', b', now)
  {
    hide ChargeBucket, AsNew, RecordAutoBlock;
    assert BlocksAlike(a.blocklist, b.blocklist, ip, now) && BucketsAlike(cfg, a.buckets, b.buckets, ip, now);
    if cfg.enabled && !BlockedAt(a, ip, now) {
      ChargeAlike(cfg, a, b, ip, now);
      var x, y := Charge(cfg, a, ip, now).0, Charge(cfg, b, ip, now).0;
      var a1, b1 := a.(buckets := a.buckets[ip := x]), b.(buckets := b.buckets[ip := y]);
      BucketsSet(cfg, a, b, a1, b1, ip, x, y, now);
      AutoBlockAlike(cfg, a1, b1, ip, now);
    }
  }

  lemma CleanupAlike(cfg: Config, a: State, b: State, now: Instant)
    requires ValidConfig(cfg) && Alike(cfg, a, b, now)
    ensures Alike(cfg, Cleanup(cfg, a, now), Cleanup(cfg, b, now), now)
  {
    var a', b' := Cleanup(cfg, a, now), Cleanup(cfg, b, now);
    forall ip
      ensures BucketsAlike(cfg, a'.buckets, b'.buckets, ip, now)
    {
      assert BucketsAlike(cfg, a.buckets, b.buckets, ip, now);
    }
    forall ip
      ensures BlocksAlike(a'.blocklist, b'.blocklist, ip, now)
    {
      assert BlocksAlike(a.blocklist, b.blocklist, ip, now);
    }
  }

  lemma UnblockAlike(cfg: Config, a: State, b: State, ip: IpAddr, now: Instant)
    requires ValidConfig(cfg) && Alike(cfg, a, b, now)
    ensures Alike(cfg, a.(blocklist := a.blocklist - {ip}), b.(blocklist := b.blocklist - {ip}), now)
  {
    var a', b' := a.(blocklist := a.blocklist - {ip}), b.(blocklist := b.blocklist - {ip});
    forall other
      ensures BucketsAlike(cfg, a'.buckets, b'.buckets, other, now)
    {
      assert BucketsAlike(cfg, a.buckets, b.buckets, other, now);
    }
    forall other
      ensures BlocksAlike(a'.blocklist, b'.blocklist, other, now)
    {
      assert BlocksAlike(a.blocklist, b.blocklist, other, now);
    }
  }

  lemma StepAlike(cfg: Config, a: State, b: State, e: Event)
    requires ValidConfig(cfg) && Steady(cfg) && Alike(cfg, a, b, e.at)
    ensures Alike(cfg, Step(cfg, a, e), Step(cfg, b, e), e.at)
  {
    match e
    case Request(ip, now) => RequestAlike(cfg, a, b, ip, now);
    case Sweep(now) => CleanupAlike(cfg, a, b, now);
    case BlockIp(ip, secs, reason, now) => BlockAlike(cfg, a, b, ip, secs, reason, now);
    case UnblockIp(ip, now) => UnblockAlike(cfg, a, b, ip, now);
  }

  lemma {:induction false} RunAlike(cfg: Config, a: State, b: State, start: Instant, run: Run)
    requires ValidConfig(cfg) && Steady(cfg) && Alike(cfg, a, b, start) && Later(start, run)
    ensures Alike(cfg, From(cfg, a, run), From(cfg, b, run), if run == [] then start else Last(run))
  {
    if run != [] {
      var before, e := run[..|run| - 1], run[|run| - 1];
      RunAlike(cfg, a, b, start, before);
      LaterAlike(cfg, From(cfg, a, before), From(cfg, b, before), if before == [] then start else Last(before), e.at);
      StepAlike(cfg, From(cfg, a, before), From(cfg, b, before), e);
    }
  }

  // A sweep that drops only what is as good as new changes no answer of any
  // later run, whatever else it does, further sweeps and blocks by hand included.
  lemma AnswersKept(cfg: Config, s: State, swept: Instant, run: Run, e: Event)
    requires ValidConfig(cfg) && (!cfg.enabled || Steady(cfg)) && Sound(cfg, s, swept) && Forgettable(cfg, s, swept)
    requires e.Request? && Later(swept, run + [e])
    ensures CheckRequest(cfg, From(cfg, Cleanup(cfg, s, swept), run), e.ip, e.at).1
         == CheckRequest(cfg, From(cfg, s, run), e.ip, e.at).1
  {
    if cfg.enabled {
      var all := run + [e];
      assert forall i :: 0 <= i < |run| ==> run[i] == all[i];
      assert all[|run|] == e;
      SweepAlike(cfg, s, swept);
      RunAlike(cfg, s, Cleanup(cfg, s, swept), swept, run);
      var a, b := From(cfg, s, run), From(cfg, Cleanup(cfg, s, swept), run);
      LaterAlike(cfg, a, b, if run == [] then swept else Last(run), e.at);
      RequestAlike(cfg, a, b, e.ip, e.at);
    }
  }
}
