// How a request or a connection is answered, said of what happened before
// (crates/firewall/src/lib.rs).
module FirewallAnswers {
  import opened Prelude
  import opened Proxy
  import opened FirewallModel
  import opened FirewallRuns
  import Firewalls

  // ---- Blocks --------------------------------------------------------------

  // The last block of an address that was not lifted: by hand, or by the answer
  // to a request that found none in force.
  function LastBlock(cfg: Config, run: Run, ip: IpAddr): Option<BlockEntry>
    requires ValidConfig(cfg)
  {
    if run == [] then None
    else
      var before, e := run[..|run| - 1], run[|run| - 1];
      var was := LastBlock(cfg, before, ip);
      match e
      case Request(who, now) =>
        if who == ip && !InForce(was, now) && Answer(cfg, before, e).Blocked? then
          Some(BlockEntry(now + Answer(cfg, before, e).remainingMs as real / 1000.0, RateLimitViolation))
        else was
      case Sweep(_) => was
      case BlockIp(who, secs, reason, now) => if who == ip then Some(BlockEntry(now + secs, reason)) else was
      case UnblockIp(who, _) => if who == ip then None else was
  }

  predicate InForce(block: Option<BlockEntry>, now: Instant) { block.Some? && block.value.expires > now }

  // The blocklist holds that block, unless it is over.
  ghost predicate Lists(s: State, ip: IpAddr, block: Option<BlockEntry>, now: Instant) {
    if ip in s.blocklist then block == Some(s.blocklist[ip]) else !InForce(block, now)
  }

  lemma RequestLists(cfg: Config, s: State, who: IpAddr, ip: IpAddr, now: Instant, was: Option<BlockEntry>)
    requires ValidConfig(cfg) && Lists(s, ip, was, now)
    ensures var (s', d) := CheckRequest(cfg, s, who, now);
      Lists(s', ip,
        if who == ip && !InForce(was, now) && d.Blocked? then
          Some(BlockEntry(now + d.remainingMs as real / 1000.0, RateLimitViolation))
        else was, now)
  {
    hide ChargeBucket, Trusted, BlockSecs;
  }

  lemma StepLists(cfg: Config, s: State, e: Event, ip: IpAddr, was: Option<BlockEntry>)
    requires ValidConfig(cfg) && !e.Request? && Lists(s, ip, was, e.at)
    ensures Lists(Step(cfg, s, e), ip,
      if e.BlockIp? && e.ip == ip then Some(BlockEntry(e.at + e.secs, e.reason))
      else if e.UnblockIp? && e.ip == ip then None else was, e.at)
  {
  }

  lemma {:induction false} BlocksListed(cfg: Config, run: Run, ip: IpAddr, now: Instant)
    requires ValidConfig(cfg) && Monotone(run) && (run != [] ==> Last(run) <= now)
    ensures Lists(After(cfg, run), ip, LastBlock(cfg, run, ip), now)
  {
    hide CheckRequest, Step;
    if run != [] {
      var before, e := run[..|run| - 1], run[|run| - 1];
      if before != [] { assert before[|before| - 1].at <= run[|run| - 1].at; }
      BlocksListed(cfg, before, ip, e.at);
      var s := After(cfg, before);
      if e.Request? {
        RequestLists(cfg, s, e.ip, ip, e.at, LastBlock(cfg, before, ip));
        RequestSteps(cfg, s, e);
      } else {
        StepLists(cfg, s, e, ip, LastBlock(cfg, before, ip));
      }
    }
  }

  lemma RequestSteps(cfg: Config, s: State, e: Event)
    requires ValidConfig(cfg) && e.Request?
    ensures Step(cfg, s, e) == CheckRequest(cfg, s, e.ip, e.at).0
  {
  }

  // What is said of a block in force: why, and for how long, in milliseconds
  // rounded down.
  ghost predicate SaysBlocked(d: Decision, block: BlockEntry, now: Instant) {
    && d.Blocked? && d.reason == block.reason
    && d.remainingMs as real <= (block.expires - now) * 1000.0 < d.remainingMs as real + 1.0
  }

  // The blocklist answers for an address exactly while its last block is in
  // force.
  lemma BlocklistExact(cfg: Config, run: Run, ip: IpAddr, now: Instant)
    requires ValidConfig(cfg) && Monotone(run) && (run != [] ==> Last(run) <= now)
    ensures var block, answer := LastBlock(cfg, run, ip), CheckBlocklist(After(cfg, run), ip, now);
      && (answer.Some? <==> InForce(block, now))
      && (answer.Some? ==> SaysBlocked(answer.value, block.value, now))
  {
    BlocksListed(cfg, run, ip, now);
  }

  // ---- Strikes -------------------------------------------------------------

  // How often a request of the address led to a block, sixteen at most, and
  // when last; a cleanup forgets it once that is too long ago.
  function Struck(cfg: Config, run: Run, ip: IpAddr): Option<StrikeRecord>
    requires ValidConfig(cfg)
  {
    if run == [] then None
    else
      var before, e := run[..|run| - 1], run[|run| - 1];
      var was := Struck(cfg, before, ip);
      match e
      case Request(who, now) =>
        if who == ip && !InForce(LastBlock(cfg, before, ip), now) && Answer(cfg, before, e).Blocked? then
          Some(StrikeRecord(OneMore(was), now))
        else was
      case Sweep(now) => if was.Some? && now - was.value.last > cfg.strikeDecaySecs as real then None else was
      case BlockIp(_, _, _, _) => was
      case UnblockIp(_, _) => was
  }

  function OneMore(strikes: Option<StrikeRecord>): nat {
    if strikes.None? then 1 else if strikes.value.count < 16 then strikes.value.count + 1 else 16
  }

  ghost predicate Counts(s: State, ip: IpAddr, strikes: Option<StrikeRecord>) {
    strikes == if ip in s.strikes then Some(s.strikes[ip]) else None
  }

  lemma RequestCounts(cfg: Config, s: State, who: IpAddr, ip: IpAddr, now: Instant, was: Option<StrikeRecord>)
    requires ValidConfig(cfg) && Counts(s, ip, was)
    ensures var (s', d) := CheckRequest(cfg, s, who, now);
      Counts(s', ip,
        if who == ip && !BlockedAt(s, ip, now) && d.Blocked? then Some(StrikeRecord(OneMore(was), now)) else was)
  {
    hide ChargeBucket, Trusted, BlockSecs;
  }

  lemma StepCounts(cfg: Config, s: State, e: Event, ip: IpAddr, was: Option<StrikeRecord>)
    requires ValidConfig(cfg) && !e.Request? && Counts(s, ip, was)
    ensures Counts(Step(cfg, s, e), ip,
      if e.Sweep? && was.Some? && e.at - was.value.last > cfg.strikeDecaySecs as real then None else was)
  {
  }

  lemma {:induction false} StrikesExact(cfg: Config, run: Run, ip: IpAddr)
    requires ValidConfig(cfg) && Monotone(run)
    ensures Counts(After(cfg, run), ip, Struck(cfg, run, ip))
  {
    hide CheckRequest, Step, LastBlock;
    if run != [] {
      var before, e := run[..|run| - 1], run[|run| - 1];
      if before != [] { assert before[|before| - 1].at <= run[|run| - 1].at; }
      StrikesExact(cfg, before, ip);
      var s := After(cfg, before);
      if e.Request? {
        BlocksListed(cfg, before, ip, e.at);
        RequestCounts(cfg, s, e.ip, ip, e.at, Struck(cfg, before, ip));
        RequestSteps(cfg, s, e);
      } else {
        StepCounts(cfg, s, e, ip, Struck(cfg, before, ip));
      }
    }
  }

  // ---- How long a block lasts ----------------------------------------------

  // The first block lasts the base; each strike more multiplies that by the
  // factor, up to the cap and to sixteen strikes.
  lemma EscalationExact(cfg: Config, n: nat)
    ensures BlockSecs(cfg, 1) == cfg.blockSecs
    ensures 1 <= n < 16 ==>
      var cap := if cfg.maxBlockSecs > cfg.blockSecs then cfg.maxBlockSecs else cfg.blockSecs;
      var longer := BlockSecs(cfg, n) * if cfg.factor > 1 then cfg.factor else 1;
      BlockSecs(cfg, n + 1) == if longer > cap then cap else longer
    ensures n >= 16 ==> BlockSecs(cfg, n) == BlockSecs(cfg, 16)
  {
    Firewalls.EscalationStart(cfg.blockSecs, Max(cfg.factor, 1), BlockCap(cfg));
    if 1 <= n < 16 { LongerBy(cfg.blockSecs, Max(cfg.factor, 1), n - 1, BlockCap(cfg)); }
  }

  lemma LongerBy(base: nat, factor: nat, k: nat, cap: nat)
    requires factor >= 1
    ensures Escalated(base, factor, k + 1, cap) == Min(Escalated(base, factor, k, cap) * factor, cap)
  {
    var exact := base * Pow(factor, k);
    Firewalls.Reorder(base, factor, Pow(factor, k));
    assert base * Pow(factor, k + 1) == exact * factor;
    if exact > cap {
      Firewalls.ScaleUp(cap, 1, factor);
      Firewalls.ScaleUp(exact, 1, factor);
    }
  }

  // ---- The answer to a request ---------------------------------------------

  // How long to wait before trying again: what one request takes at the static
  // rate, in milliseconds rounded down, or for ever.
  predicate Waits(rps: nat, ms: nat) {
    if rps == 0 then ms == 18_446_744_073_709_551_615 else ms * rps <= 1000 < (ms + 1) * rps
  }

  lemma WaitIs(cfg: Config)
    ensures Waits(cfg.rps, RetryAfterMs(cfg))
  {
  }

  // After every run: a block in force answers; otherwise the request is charged,
  // and if it is refused, the address is told to wait, or is blocked once its
  // violations have come to the threshold, unless it is a trusted proxy.
  lemma RequestExact(cfg: Config, run: Run, ip: IpAddr, now: Instant)
    requires ValidConfig(cfg) && cfg.enabled && Monotone(run + [Request(ip, now)])
    ensures var d, block := Answer(cfg, run, Request(ip, now)), LastBlock(cfg, run, ip);
      var s' := After(cfg, run + [Request(ip, now)]);
      if InForce(block, now) then SaysBlocked(d, block.value, now) && s' == After(cfg, run)
      else
        && ip in s'.buckets
        && (d.Allow? || (
            if Trusted(cfg.trusted, ip) || s'.buckets[ip].violations < cfg.threshold then
              d.RateLimited? && Waits(cfg.rps, d.retryAfterMs)
            else
              d == Blocked(RateLimitViolation, 1000 * BlockSecs(cfg, OneMore(Struck(cfg, run, ip))))))
  {
    hide CheckRequest, BlockSecs, LastBlock, Struck, After, Waits, Trusted;
    var all := run + [Request(ip, now)];
    assert forall i :: 0 <= i < |run| ==> all[i] == run[i];
    assert all[|run|].at == now;
    if run != [] { assert all[|run| - 1].at <= all[|run|].at; }
    BlocksListed(cfg, run, ip, now);
    StrikesExact(cfg, run, ip);
    AfterAppend(cfg, run, Request(ip, now), ip, 0.0, 0.0);
    RequestSteps(cfg, After(cfg, run), Request(ip, now));
    if InForce(LastBlock(cfg, run, ip), now) {
      BlockAnswers(cfg, After(cfg, run), ip, now);
    } else {
      ChargeAnswers(cfg, After(cfg, run), ip, now, Struck(cfg, run, ip));
    }
  }

  lemma BlockAnswers(cfg: Config, s: State, ip: IpAddr, now: Instant)
    requires ValidConfig(cfg) && cfg.enabled && BlockedAt(s, ip, now)
    ensures var (s', d) := CheckRequest(cfg, s, ip, now); s' == s && SaysBlocked(d, s.blocklist[ip], now)
  {
  }

  lemma ChargeAnswers(cfg: Config, s: State, ip: IpAddr, now: Instant, struck: Option<StrikeRecord>)
    requires ValidConfig(cfg) && cfg.enabled && !BlockedAt(s, ip, now) && Counts(s, ip, struck)
    ensures var (s', d) := CheckRequest(cfg, s, ip, now);
      && ip in s'.buckets
      && (d.Allow? || (
          if Trusted(cfg.trusted, ip) || s'.buckets[ip].violations < cfg.threshold then
            d.RateLimited? && Waits(cfg.rps, d.retryAfterMs)
          else
            d == Blocked(RateLimitViolation, 1000 * BlockSecs(cfg, OneMore(struck)))))
  {
    hide ChargeBucket, BlockSecs, RetryAfterMs, Waits, Trusted;
    WaitIs(cfg);
  }

  // ---- The answer to a connection ------------------------------------------

  // After every run, with whatever connections are open: off, everything is
  // allowed; a block in force answers; otherwise only the limits refuse.
  lemma ConnectionExact(cfg: Config, run: Run, perIp: map<IpAddr, nat>, total: nat, ip: IpAddr, now: Instant)
    requires ValidConfig(cfg) && Monotone(run) && (run != [] ==> Last(run) <= now)
    ensures var s, block := After(cfg, run).(perIp := perIp, total := total), LastBlock(cfg, run, ip);
      var d, e := CheckConnection(cfg, s, ip, now), CheckBehindProxy(cfg, s, ip, now);
      var own := if ip in perIp then perIp[ip] else 0;
      && (!cfg.enabled ==> d == e == Allow)
      && (cfg.enabled && InForce(block, now) ==>
            SaysBlocked(d, block.value, now) && SaysBlocked(e, block.value, now))
      && (cfg.enabled && !InForce(block, now) ==>
            && d == (if total < cfg.maxTotal && own < cfg.maxPerIp then Allow else ConnectionLimitReached)
            && e == (if total < cfg.maxTotal then Allow else ConnectionLimitReached))
  {
    BlocksListed(cfg, run, ip, now);
  }

  // ---- A cleanup -----------------------------------------------------------

  // After every run a cleanup leaves just the blocks in force, the buckets
  // charged in the last 300 seconds and the strikes that have not decayed.
  lemma CleanupExact(cfg: Config, run: Run, ip: IpAddr, now: Instant)
    requires ValidConfig(cfg) && Monotone(run) && (run != [] ==> Last(run) <= now)
    ensures var s, s' := After(cfg, run), After(cfg, run + [Sweep(now)]);
      var block, struck := LastBlock(cfg, run, ip), Struck(cfg, run, ip);
      && (ip in s'.blocklist <==> InForce(block, now))
      && (ip in s'.blocklist ==> s'.blocklist[ip] == block.value)
      && (ip in s'.buckets <==> ip in s.buckets && now - s.buckets[ip].lastRefill <= 300.0)
      && (ip in s'.buckets ==> s'.buckets[ip] == s.buckets[ip])
      && (ip in s'.strikes <==> struck.Some? && now - struck.value.last <= cfg.strikeDecaySecs as real)
      && (ip in s'.strikes ==> s'.strikes[ip] == struck.value)
      && s'.perIp == s.perIp && s'.total == s.total
  {
    hide LastBlock, Struck, After;
    BlocksListed(cfg, run, ip, now);
    StrikesExact(cfg, run, ip);
    AfterAppend(cfg, run, Sweep(now), ip, 0.0, 0.0);
  }
}
