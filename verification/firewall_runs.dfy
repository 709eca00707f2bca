// Whole runs of the firewall: any sequence of requests, cleanups and manual
// blocks on a clock that never goes back.
module FirewallRuns {
  import opened Prelude
  import opened Proxy
  import opened FirewallModel
  import opened Accounts

  datatype Event =
    | Request(ip: IpAddr, at: Instant)
    | Sweep(at: Instant)
    | BlockIp(ip: IpAddr, secs: real, reason: BlockReason, at: Instant)
    | UnblockIp(ip: IpAddr, at: Instant)

  type Run = seq<Event>

  ghost predicate Monotone(run: Run) {
    forall i, j :: 0 <= i < j < |run| ==> run[i].at <= run[j].at
  }

  function Step(cfg: Config, s: State, e: Event): State
    requires ValidConfig(cfg)
  {
    match e
    case Request(ip, now) => CheckRequest(cfg, s, ip, now).0
    case Sweep(now) => Cleanup(cfg, s, now)
    case BlockIp(ip, secs, reason, now) => Block(s, ip, secs, reason, now)
    case UnblockIp(ip, now) => s.(blocklist := s.blocklist - {ip})
  }

  function After(cfg: Config, run: Run): State
    requires ValidConfig(cfg)
  {
    if run == [] then Fresh else Step(cfg, After(cfg, run[..|run| - 1]), run[|run| - 1])
  }

  function Answer(cfg: Config, run: Run, e: Event): Decision
    requires ValidConfig(cfg) && e.Request?
  {
    CheckRequest(cfg, After(cfg, run), e.ip, e.at).1
  }

  // Requests of `ip` allowed at times in [s, t].
  function AllowedBetween(cfg: Config, run: Run, ip: IpAddr, s: Instant, t: Instant): nat
    requires ValidConfig(cfg)
  {
    if run == [] then 0
    else
      var before, e := run[..|run| - 1], run[|run| - 1];
      AllowedBetween(cfg, before, ip, s, t)
      + (if e.Request? && e.ip == ip && s <= e.at <= t && Answer(cfg, before, e).Allow? then 1 else 0)
  }

  // ---- The rate bound ------------------------------------------------------

  ghost predicate RateBounded(cfg: Config, run: Run, ip: IpAddr, s: Instant, t: Instant)
    requires ValidConfig(cfg)
  {
    AllowedBetween(cfg, run, ip, s, t) as real <= cfg.burst as real + Accrued(TopRate(cfg), t - s)
  }

  // A bucket as every run keeps it: within its capacity, refilled in the past.
  ghost predicate Sound(cfg: Config, s: State, now: Instant) {
    forall ip :: ip in s.buckets ==>
      var b := s.buckets[ip];
      b.capacity == cfg.burst as real && 0.0 <= b.tokens <= b.capacity && b.lastRefill <= now
  }

  lemma TopRateBounds(cfg: Config, ewma: Option<real>)
    ensures 0.0 <= EffectiveRps(cfg.rps, ewma, cfg.adaptive) <= TopRate(cfg)
    ensures cfg.rps as real <= EffectiveRps(cfg.rps, ewma, cfg.adaptive)
  {
  }

  lemma SlowerAccrues(cfg: Config, d: real, rate: real)
    requires 0.0 <= d && 0.0 <= rate <= TopRate(cfg)
    ensures 0.0 <= d * rate <= Accrued(TopRate(cfg), d)
  {
    assert d * TopRate(cfg) == d * rate + d * (TopRate(cfg) - rate);
  }

  // The most tokens `ip` could have at `now`, were its rate the top rate.
  function Level(cfg: Config, s: State, ip: IpAddr, now: Instant): real {
    if ip !in s.buckets then cfg.burst as real
    else MinReal(s.buckets[ip].tokens + Accrued(TopRate(cfg), Since(now, s.buckets[ip].lastRefill)), cfg.burst as real)
  }

  lemma ConsumeSpends(cfg: Config, b: Bucket, now: Instant)
    requires 0.0 <= b.tokens <= b.capacity && b.lastRefill <= now && 0.0 <= b.rate <= TopRate(cfg)
    ensures var (after, ok) := Consume(b, now);
      && after.capacity == b.capacity && 0.0 <= after.tokens <= b.capacity && after.lastRefill == now
      && after.tokens + (if ok then 1.0 else 0.0)
         <= MinReal(b.tokens + Accrued(TopRate(cfg), Since(now, b.lastRefill)), b.capacity)
  {
    SlowerAccrues(cfg, Since(now, b.lastRefill), b.rate);
  }

  lemma NoteKeeps(b: Bucket, now: Instant, alphaPct: u32)
    ensures var noted := NoteRequest(b, now, alphaPct);
      noted.tokens == b.tokens && noted.capacity == b.capacity && noted.lastRefill == b.lastRefill
  {
  }

  lemma ChargeSpends(cfg: Config, s: State, ip: IpAddr, now: Instant)
    requires Sound(cfg, s, now)
    ensures var (b, ok) := Charge(cfg, s, ip, now);
      && b.capacity == cfg.burst as real && 0.0 <= b.tokens <= b.capacity && b.lastRefill == now
      && b.tokens + (if ok then 1.0 else 0.0) <= Level(cfg, s, ip, now)
  {
    var b := if ip in s.buckets then s.buckets[ip] else NewBucket(cfg, now);
    var noted := NoteRequest(b, now, cfg.alphaPct);
    NoteKeeps(b, now, cfg.alphaPct);
    TopRateBounds(cfg, noted.ewma);
    ConsumeSpends(cfg, noted.(rate := EffectiveRps(cfg.rps, noted.ewma, cfg.adaptive)), now);
  }

  function Charged(cfg: Config, s: State, ip: IpAddr, e: Event): nat
    requires ValidConfig(cfg)
  {
    if e.Request? && e.ip == ip && CheckRequest(cfg, s, ip, e.at).1.Allow? then 1 else 0
  }

  // The configurations whose idle buckets have refilled when they are dropped.
  predicate RefillsWhenIdle(cfg: Config) {
    cfg.burst as real <= TopRate(cfg) * IDLE_SECS
  }

  lemma SweepKeepsLevel(cfg: Config, s: State, ip: IpAddr, now: Instant)
    requires RefillsWhenIdle(cfg) && Sound(cfg, s, now)
    ensures Level(cfg, Cleanup(cfg, s, now), ip, now) <= Level(cfg, s, ip, now)
  {
    if ip in s.buckets && IsIdle(s.buckets[ip], now) {
      var elapsed := Since(now, s.buckets[ip].lastRefill);
      AccruedAdds(TopRate(cfg), IDLE_SECS, elapsed - IDLE_SECS);
      assert Accrued(TopRate(cfg), IDLE_SECS) >= cfg.burst as real;
    }
  }

  // A request either leaves the buckets alone and is not allowed, or charges one.
  lemma RequestTouches(cfg: Config, s: State, ip: IpAddr, now: Instant)
    requires ValidConfig(cfg) && cfg.enabled
    ensures var (s', d) := CheckRequest(cfg, s, ip, now);
      var (b, ok) := Charge(cfg, s, ip, now);
      (s'.buckets == s.buckets && !d.Allow?) || (s'.buckets == s.buckets[ip := b] && (d.Allow? <==> ok))
  {
  }

  // What charging `who` an amount covered by its level does to any level.
  lemma ChargedLevels(cfg: Config, s: State, s': State, who: IpAddr, ip: IpAddr, now: Instant, b: Bucket, one: nat)
    requires Sound(cfg, s, now) && s'.buckets == s.buckets[who := b]
    requires b.capacity == cfg.burst as real && 0.0 <= b.tokens <= b.capacity && b.lastRefill == now
    requires b.tokens + one as real <= Level(cfg, s, who, now)
    ensures Sound(cfg, s', now)
    ensures (if who == ip then one else 0) as real + Level(cfg, s', ip, now) <= Level(cfg, s, ip, now)
  {
    assert Since(now, b.lastRefill) == 0.0;
  }

  lemma RequestSpends(cfg: Config, s: State, ip: IpAddr, e: Event)
    requires ValidConfig(cfg) && cfg.enabled && e.Request? && Sound(cfg, s, e.at)
    ensures var s' := CheckRequest(cfg, s, e.ip, e.at).0;
      && Sound(cfg, s', e.at)
      && Charged(cfg, s, ip, e) as real + Level(cfg, s', ip, e.at) <= Level(cfg, s, ip, e.at)
  {
    var s' := CheckRequest(cfg, s, e.ip, e.at).0;
    RequestTouches(cfg, s, e.ip, e.at);
    if s'.buckets != s.buckets || CheckRequest(cfg, s, e.ip, e.at).1.Allow? {
      var (b, ok) := Charge(cfg, s, e.ip, e.at);
      ChargeSpends(cfg, s, e.ip, e.at);
      ChargedLevels(cfg, s, s', e.ip, ip, e.at, b, if ok then 1 else 0);
    }
  }

  // No step gives a caller more than it had: what is allowed comes off the level.
  lemma StepSpends(cfg: Config, s: State, ip: IpAddr, e: Event)
    requires ValidConfig(cfg) && cfg.enabled && RefillsWhenIdle(cfg)
    requires Sound(cfg, s, e.at)
    ensures Sound(cfg, Step(cfg, s, e), e.at)
    ensures Charged(cfg, s, ip, e) as real + Level(cfg, Step(cfg, s, e), ip, e.at) <= Level(cfg, s, ip, e.at)
  {
    match e {
      case Request(_, _) =>
        RequestSpends(cfg, s, ip, e);
      case Sweep(now) =>
        SweepKeepsLevel(cfg, s, ip, now);
      case BlockIp(_, _, _, _) =>
      case UnblockIp(_, _) =>
    }
  }

  lemma LevelRises(cfg: Config, s: State, ip: IpAddr, t0: Instant, t1: Instant)
    requires Sound(cfg, s, t0) && t0 <= t1
    ensures Sound(cfg, s, t1)
    ensures 0.0 <= Level(cfg, s, ip, t1) <= cfg.burst as real
    ensures Level(cfg, s, ip, t1) <= Level(cfg, s, ip, t0) + Accrued(TopRate(cfg), t1 - t0)
  {
    AccruedAdds(TopRate(cfg), t1 - t0, 0.0);
    if ip in s.buckets {
      AccruedAdds(TopRate(cfg), Since(t0, s.buckets[ip].lastRefill), t1 - t0);
      assert Since(t1, s.buckets[ip].lastRefill) == Since(t0, s.buckets[ip].lastRefill) + (t1 - t0);
    }
  }

  function Last(run: Run): Instant
    requires run != []
  {
    run[|run| - 1].at
  }

  lemma StepSound(cfg: Config, s: State, e: Event)
    requires ValidConfig(cfg) && Sound(cfg, s, e.at)
    ensures Sound(cfg, Step(cfg, s, e), e.at)
  {
    if e.Request? && cfg.enabled { RequestSpends(cfg, s, e.ip, e); }
  }

  // The last event as `ip` sees it: what it was allowed, what it has left.
  function LastEntry(cfg: Config, run: Run, ip: IpAddr): Entry
    requires ValidConfig(cfg) && run != []
  {
    var e := run[|run| - 1];
    Entry(e.at, Charged(cfg, After(cfg, run[..|run| - 1]), ip, e), Level(cfg, After(cfg, run), ip, e.at))
  }

  // The run as `ip` spends in it, one entry an event.
  function AccountOf(cfg: Config, run: Run, ip: IpAddr): (a: Account)
    requires ValidConfig(cfg)
    ensures |a| == |run|
    ensures run != [] ==> a[|a| - 1] == LastEntry(cfg, run, ip)
  {
    if run == [] then []
    else AccountOf(cfg, run[..|run| - 1], ip) + [LastEntry(cfg, run, ip)]
  }

  lemma {:induction false} AccountCounts(cfg: Config, run: Run, ip: IpAddr, s: Instant, t: Instant)
    requires ValidConfig(cfg)
    ensures AllowedBetween(cfg, run, ip, s, t) == SpentBetween(AccountOf(cfg, run, ip), s, t)
  {
    if run != [] {
      AccountCounts(cfg, run[..|run| - 1], ip, s, t);
      var a := AccountOf(cfg, run, ip);
      assert a[..|a| - 1] == AccountOf(cfg, run[..|run| - 1], ip);
    }
  }

  lemma HonestAppend(a: Account, e: Entry, cap: real, rate: real)
    requires Honest(a, cap, rate)
    requires 0.0 <= e.left && e.spent as real + e.left <= cap
    requires a != [] ==> a[|a| - 1].at <= e.at
    requires a != [] ==> e.spent as real + e.left <= a[|a| - 1].left + Accrued(rate, e.at - a[|a| - 1].at)
    ensures Honest(a + [e], cap, rate)
  {
  }

  lemma {:induction false} RunSound(cfg: Config, run: Run)
    requires ValidConfig(cfg) && Monotone(run) && run != []
    ensures Sound(cfg, After(cfg, run), Last(run))
  {
    var before, e := run[..|run| - 1], run[|run| - 1];
    if before != [] {
      RunSound(cfg, before);
    }
    StepSound(cfg, After(cfg, before), e);
  }

  // One more event: the entry it adds follows the one before it.
  lemma EntryFollows(cfg: Config, s: State, e: Event, ip: IpAddr, e0: Entry)
    requires ValidConfig(cfg) && cfg.enabled && RefillsWhenIdle(cfg)
    requires Sound(cfg, s, e0.at) && e0.at <= e.at && e0.left == Level(cfg, s, ip, e0.at)
    ensures var e1 := Entry(e.at, Charged(cfg, s, ip, e), Level(cfg, Step(cfg, s, e), ip, e.at));
      && 0.0 <= e1.left && e1.spent as real + e1.left <= cfg.burst as real
      && e1.spent as real + e1.left <= e0.left + Accrued(TopRate(cfg), e1.at - e0.at)
  {
    LevelRises(cfg, s, ip, e0.at, e.at);
    StepSpends(cfg, s, ip, e);
    LevelRises(cfg, Step(cfg, s, e), ip, e.at, e.at);
  }

  lemma FirstEntry(cfg: Config, e: Event, ip: IpAddr)
    requires ValidConfig(cfg) && cfg.enabled && RefillsWhenIdle(cfg)
    ensures var e1 := Entry(e.at, Charged(cfg, Fresh, ip, e), Level(cfg, Step(cfg, Fresh, e), ip, e.at));
      0.0 <= e1.left && e1.spent as real + e1.left <= cfg.burst as real
  {
    StepSpends(cfg, Fresh, ip, e);
    LevelRises(cfg, Step(cfg, Fresh, e), ip, e.at, e.at);
  }

  lemma LastEntryFollows(cfg: Config, run: Run, ip: IpAddr)
    requires ValidConfig(cfg) && cfg.enabled && RefillsWhenIdle(cfg) && Monotone(run) && run != []
    ensures var before, e1 := run[..|run| - 1], LastEntry(cfg, run, ip);
      && 0.0 <= e1.left && e1.spent as real + e1.left <= cfg.burst as real
      && (before != [] ==>
        var e0 := LastEntry(cfg, before, ip);
        e0.at <= e1.at && e1.spent as real + e1.left <= e0.left + Accrued(TopRate(cfg), e1.at - e0.at))
  {
    var before, e := run[..|run| - 1], run[|run| - 1];
    if before == [] {
      FirstEntry(cfg, e, ip);
    } else {
      RunSound(cfg, before);
      EntryFollows(cfg, After(cfg, before), e, ip, LastEntry(cfg, before, ip));
    }
  }

  lemma {:induction false} AccountHonest(cfg: Config, run: Run, ip: IpAddr)
    requires ValidConfig(cfg) && cfg.enabled && RefillsWhenIdle(cfg) && Monotone(run)
    ensures Honest(AccountOf(cfg, run, ip), cfg.burst as real, TopRate(cfg))
  {
    hide LastEntry, Step, After, Accrued;
    if run != [] {
      var before := run[..|run| - 1];
      AccountHonest(cfg, before, ip);
      LastEntryFollows(cfg, run, ip);
      HonestAppend(AccountOf(cfg, before, ip), LastEntry(cfg, run, ip), cfg.burst as real, TopRate(cfg));
    }
  }

  lemma BoundHolds(cfg: Config, run: Run, ip: IpAddr, s: Instant, t: Instant)
    requires ValidConfig(cfg) && cfg.enabled && RefillsWhenIdle(cfg)
    requires Monotone(run) && s <= t
    ensures RateBounded(cfg, run, ip, s, t)
  {
    AccountHonest(cfg, run, ip);
    AccountCounts(cfg, run, ip, s, t);
    SpendingBounded(AccountOf(cfg, run, ip), cfg.burst as real, TopRate(cfg), s, t);
  }

  // ---- Where the bound ends ------------------------------------------------

  function Repeat(e: Event, n: nat): (r: Run)
    ensures |r| == n && forall i :: 0 <= i < n ==> r[i] == e
  {
    if n == 0 then [] else Repeat(e, n - 1) + [e]
  }

  lemma AfterAppend(cfg: Config, run: Run, e: Event, ip: IpAddr, s: Instant, t: Instant)
    requires ValidConfig(cfg)
    ensures After(cfg, run + [e]) == Step(cfg, After(cfg, run), e)
    ensures AllowedBetween(cfg, run + [e], ip, s, t) == AllowedBetween(cfg, run, ip, s, t)
      + (if s <= e.at <= t then Charged(cfg, After(cfg, run), ip, e) else 0)
  {
    assert (run + [e])[..|run|] == run;
  }

  // A caller free to spend: no block, and `left` whole tokens at this moment.
  ghost predicate CanSpend(cfg: Config, s: State, ip: IpAddr, at: Instant, left: nat) {
    && ip !in s.blocklist
    && left <= cfg.burst
    && (if ip in s.buckets then
          s.buckets[ip].tokens == left as real && s.buckets[ip].capacity == cfg.burst as real
            && s.buckets[ip].lastRefill == at
        else left == cfg.burst)
  }

  lemma SpendsOne(cfg: Config, s: State, ip: IpAddr, at: Instant, left: nat)
    requires ValidConfig(cfg) && cfg.enabled && left > 0 && CanSpend(cfg, s, ip, at, left)
    ensures Charged(cfg, s, ip, Request(ip, at)) == 1
    ensures CanSpend(cfg, Step(cfg, s, Request(ip, at)), ip, at, left - 1)
    ensures ip in Step(cfg, s, Request(ip, at)).buckets
  {
    var b := if ip in s.buckets then s.buckets[ip] else NewBucket(cfg, at);
    var noted := NoteRequest(b, at, cfg.alphaPct);
    var rate := EffectiveRps(cfg.rps, noted.ewma, cfg.adaptive);
    assert Since(at, b.lastRefill) * rate == 0.0;
    assert Refill(noted.(rate := rate), at).tokens == left as real;
  }

  // A run in which `ip` has been allowed `n` requests and has `left` tokens now.
  ghost predicate Spending(cfg: Config, run: Run, ip: IpAddr, at: Instant, s: Instant, t: Instant, n: nat, left: int)
    requires ValidConfig(cfg)
  {
    && AllowedBetween(cfg, run, ip, s, t) == n
    && (cfg.enabled ==> left >= 0 && CanSpend(cfg, After(cfg, run), ip, at, left))
  }

  lemma SpendingOn(cfg: Config, run: Run, ip: IpAddr, at: Instant, s: Instant, t: Instant, n: nat, left: int)
    requires ValidConfig(cfg) && s <= at <= t && (cfg.enabled ==> left > 0)
    requires Spending(cfg, run, ip, at, s, t, n, left)
    ensures Spending(cfg, run + [Request(ip, at)], ip, at, s, t, n + 1, left - 1)
  {
    AfterAppend(cfg, run, Request(ip, at), ip, s, t);
    if cfg.enabled {
      SpendsOne(cfg, After(cfg, run), ip, at, left);
    }
  }

  // A caller that can spend `left` tokens is allowed any k <= left requests at
  // one moment; with the firewall off, any k at all.
  lemma {:induction false} BurstAllowed(cfg: Config, run: Run, ip: IpAddr, at: Instant, s: Instant, t: Instant, n: nat,
        left: int, k: nat)
    requires ValidConfig(cfg) && s <= at <= t && (cfg.enabled ==> k <= left)
    requires Spending(cfg, run, ip, at, s, t, n, left)
    ensures Spending(cfg, run + Repeat(Request(ip, at), k), ip, at, s, t, n + k, left - k)
  {
    hide Spending, Step, After, AllowedBetween;
    if k == 0 {
      assert run + Repeat(Request(ip, at), k) == run;
    } else {
      BurstAllowed(cfg, run, ip, at, s, t, n, left, k - 1);
      var most := run + Repeat(Request(ip, at), k - 1);
      SpendingOn(cfg, most, ip, at, s, t, n + k - 1, left - k + 1);
      assert run + Repeat(Request(ip, at), k) == most + [Request(ip, at)];
    }
  }

  // A moment past the idle limit, too early for the top rate to refill the burst.
  lemma JustPastIdle(cfg: Config) returns (t: Instant)
    requires !RefillsWhenIdle(cfg)
    ensures t > IDLE_SECS && Accrued(TopRate(cfg), t) < cfg.burst as real
  {
    var slack := cfg.burst as real - TopRate(cfg) * IDLE_SECS;
    var d := TopRate(cfg) + 1.0;
    var eps := slack / d / 2.0;
    assert eps * d * 2.0 == slack;
    assert eps > 0.0;
    t := IDLE_SECS + eps;
    assert TopRate(cfg) * t == TopRate(cfg) * IDLE_SECS + TopRate(cfg) * eps;
    assert TopRate(cfg) * eps == eps * d - eps;
  }

  // Drain the bucket, then sweep it once it is idle: the caller is as new.
  function DrainAndSweep(cfg: Config, ip: IpAddr, t: Instant): (r: Run)
    ensures |r| == cfg.burst + 1 && r[cfg.burst].at == t
    ensures forall i :: 0 <= i < cfg.burst ==> r[i].at == 0.0
  {
    Repeat(Request(ip, 0.0), cfg.burst) + [Sweep(t)]
  }

  lemma SweptIsNew(cfg: Config, s: State, ip: IpAddr, t: Instant)
    requires CanSpend(cfg, s, ip, 0.0, 0) && t > IDLE_SECS
    ensures CanSpend(cfg, Cleanup(cfg, s, t), ip, t, cfg.burst)
  {
  }

  lemma DrainedAndSwept(cfg: Config, ip: IpAddr, t: Instant)
    requires ValidConfig(cfg) && cfg.enabled && t > IDLE_SECS
    ensures Spending(cfg, DrainAndSweep(cfg, ip, t), ip, t, 0.0, t, cfg.burst, cfg.burst)
  {
    var first := Repeat(Request(ip, 0.0), cfg.burst);
    BurstAllowed(cfg, [], ip, 0.0, 0.0, t, 0, cfg.burst, cfg.burst);
    assert [] + first == first;
    AfterAppend(cfg, first, Sweep(t), ip, 0.0, t);
    SweptIsNew(cfg, After(cfg, first), ip, t);
  }

  // The sweep hands out a second full bucket.
  lemma TwoBursts(cfg: Config, ip: IpAddr, t: Instant) returns (run: Run)
    requires ValidConfig(cfg) && cfg.enabled && t > IDLE_SECS
    ensures Monotone(run) && AllowedBetween(cfg, run, ip, 0.0, t) == 2 * cfg.burst
  {
    var swept := DrainAndSweep(cfg, ip, t);
    DrainedAndSwept(cfg, ip, t);
    BurstAllowed(cfg, swept, ip, t, 0.0, t, cfg.burst, cfg.burst, cfg.burst);
    run := swept + Repeat(Request(ip, t), cfg.burst);
    BothBurstsInOrder(cfg, ip, t);
  }

  lemma BothBurstsInOrder(cfg: Config, ip: IpAddr, t: Instant)
    requires t > IDLE_SECS
    ensures Monotone(DrainAndSweep(cfg, ip, t) + Repeat(Request(ip, t), cfg.burst))
  {
    TwoMoments(DrainAndSweep(cfg, ip, t) + Repeat(Request(ip, t), cfg.burst), cfg.burst, 0.0, t);
  }

  lemma TwoMoments(run: Run, n: nat, t0: Instant, t1: Instant)
    requires t0 <= t1 && forall i :: 0 <= i < |run| ==> run[i].at == if i < n then t0 else t1
    ensures Monotone(run)
  {
  }

  lemma NothingSpent(cfg: Config, ip: IpAddr, at: Instant, s: Instant, t: Instant)
    requires ValidConfig(cfg)
    ensures Spending(cfg, [], ip, at, s, t, 0, cfg.burst)
  {
  }

  lemma OffAllowsAll(cfg: Config, ip: IpAddr) returns (run: Run)
    requires ValidConfig(cfg) && !cfg.enabled
    ensures Monotone(run) && AllowedBetween(cfg, run, ip, 0.0, 0.0) == cfg.burst + 1
  {
    hide After, AllowedBetween, Repeat, CanSpend;
    run := Repeat(Request(ip, 0.0), cfg.burst + 1);
    NothingSpent(cfg, ip, 0.0, 0.0, 0.0);
    BurstAllowed(cfg, [], ip, 0.0, 0.0, 0.0, 0, cfg.burst, cfg.burst + 1);
    TwoMoments(run, |run|, 0.0, 0.0);
    assert [] + run == run;
  }

  // With the firewall off, or with a burst that 300 idle seconds cannot refill,
  // some run breaks the bound.
  lemma BoundBreaks(cfg: Config, ip: IpAddr) returns (run: Run, t: Instant)
    requires ValidConfig(cfg)
    requires !cfg.enabled || !RefillsWhenIdle(cfg)
    ensures Monotone(run) && 0.0 <= t && !RateBounded(cfg, run, ip, 0.0, t)
  {
    if !cfg.enabled {
      t := 0.0;
      run := OffAllowsAll(cfg, ip);
    } else {
      t := JustPastIdle(cfg);
      run := TwoBursts(cfg, ip, t);
    }
  }

  // Over every run and every interval, the requests allowed to one address
  // number at most burst + rate * length -- exactly for the configurations
  // with the firewall on and a burst that refills within the idle limit.
  lemma RateBoundExact(cfg: Config, ip: IpAddr)
    requires ValidConfig(cfg)
    ensures (forall run: Run, s: Instant, t: Instant :: Monotone(run) && s <= t ==> WithinRate(cfg, run, ip, s, t))
       <==> cfg.enabled && cfg.burst as real <= 300.0 * MostRate(cfg)
  {
    hide WithinRate, RateBounded;
    TopIsMost(cfg);
    if cfg.enabled && RefillsWhenIdle(cfg) {
      forall run: Run, s: Instant, t: Instant | Monotone(run) && s <= t
        ensures WithinRate(cfg, run, ip, s, t)
      {
        BoundHolds(cfg, run, ip, s, t);
        SameBound(cfg, run, ip, s, t);
      }
    } else {
      var run, t := BoundBreaks(cfg, ip);
      SameBound(cfg, run, ip, 0.0, t);
    }
  }

  // No more than the burst and what that rate brings in the time.
  ghost predicate WithinRate(cfg: Config, run: Run, ip: IpAddr, s: Instant, t: Instant)
    requires ValidConfig(cfg)
  {
    AllowedBetween(cfg, run, ip, s, t) as real <= cfg.burst as real + MostRate(cfg) * (t - s)
  }

  lemma SameBound(cfg: Config, run: Run, ip: IpAddr, s: Instant, t: Instant)
    requires ValidConfig(cfg)
    ensures WithinRate(cfg, run, ip, s, t) <==> RateBounded(cfg, run, ip, s, t)
  {
    TopIsMost(cfg);
    assert Accrued(TopRate(cfg), t - s) == MostRate(cfg) * (t - s);
  }

  // The static rate, or four times that.
  function MostRate(cfg: Config): real { (if cfg.adaptive then 4 * cfg.rps else cfg.rps) as real }

  lemma TopIsMost(cfg: Config)
    ensures TopRate(cfg) == MostRate(cfg)
  {
  }
}
