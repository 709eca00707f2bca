// What each firewall operation does to the firewall's state, as functions on
// values (crates/firewall/src/lib.rs). The classes in firewall.dfy are proved
// to follow these functions; the run theorems are about them.
module FirewallModel {
  import opened Prelude
  import opened Proxy

  // Seconds on a monotonic clock.
  type Instant = real

  datatype Config = Config(
    enabled: bool,
    rps: u32, burst: u32,
    threshold: u32,
    blockSecs: u64, factor: u32, maxBlockSecs: u64, strikeDecaySecs: u64,
    maxPerIp: u32, maxTotal: u32,
    adaptive: bool, alphaPct: u32,
    trusted: seq<ProxyRule>)

  predicate ValidConfig(cfg: Config) { WellFormedRules(cfg.trusted) }

  const MAX_STRIKES: nat := 16
  const IDLE_SECS: real := 300.0
  const WINDOW_SECS: real := 1.0

  // ---- Adaptive rate -------------------------------------------------------

  function Ceil(x: real): int { -((-x).Floor) }

  function EwmaUpdate(prev: real, sample: real, alphaPct: u32): real {
    var alpha := Min(alphaPct, 100) as real / 100.0;
    alpha * sample + (1.0 - alpha) * prev
  }

  function EffectiveRps(rps: u32, ewma: Option<real>, adaptive: bool): real {
    var base := rps as real;
    if !adaptive then base
    else
      var baseline := if ewma.Some? then ewma.value else 0.0;
      MinReal(MaxReal(Ceil(baseline * 1.5) as real, base), base * 4.0)
  }

  // The fastest refill the configuration can ever grant.
  function TopRate(cfg: Config): real {
    if cfg.adaptive then cfg.rps as real * 4.0 else cfg.rps as real
  }

  // ---- Token bucket --------------------------------------------------------

  datatype Bucket = Bucket(
    capacity: real, tokens: real, rate: real, lastRefill: Instant,
    violations: nat,
    ewma: Option<real>, windowCount: nat, windowStart: Option<Instant>)

  function NewBucket(cfg: Config, now: Instant): Bucket {
    Bucket(cfg.burst as real, cfg.burst as real, cfg.rps as real, now, 0, None, 0, None)
  }

  // Instant::duration_since saturates at zero.
  function Since(now: Instant, then_: Instant): real { MaxReal(now - then_, 0.0) }

  function NoteRequest(b: Bucket, now: Instant, alphaPct: u32): Bucket {
    var rolled :=
      match b.windowStart
      case None => b.(windowStart := Some(now))
      case Some(start) =>
        if Since(now, start) >= WINDOW_SECS then
          var sample := b.windowCount as real;
          b.(ewma := Some(if b.ewma.None? then sample else EwmaUpdate(b.ewma.value, sample, alphaPct)),
             windowCount := 0, windowStart := Some(now))
        else b;
    rolled.(windowCount := rolled.windowCount + 1)
  }

  function Refill(b: Bucket, now: Instant): Bucket {
    b.(tokens := MinReal(b.tokens + Since(now, b.lastRefill) * b.rate, b.capacity), lastRefill := now)
  }

  function Consume(b: Bucket, now: Instant): (Bucket, bool) {
    var full := Refill(b, now);
    if full.tokens >= 1.0 then
      (full.(tokens := full.tokens - 1.0, violations := if full.violations > 0 then full.violations - 1 else 0), true)
    else
      (full.(violations := full.violations + 1), false)
  }

  predicate IsIdle(b: Bucket, now: Instant) { Since(now, b.lastRefill) > IDLE_SECS }

  // ---- Blocks and strikes --------------------------------------------------

  datatype BlockReason = RateLimitViolation | ManualBlock

  datatype BlockEntry = BlockEntry(expires: Instant, reason: BlockReason)

  datatype StrikeRecord = StrikeRecord(count: nat, last: Instant)

  datatype Decision =
    | Allow
    | RateLimited(retryAfterMs: nat)
    | Blocked(reason: BlockReason, remainingMs: int)
    | ConnectionLimitReached

  function Pow(f: nat, n: nat): nat { if n == 0 then 1 else f * Pow(f, n - 1) }

  function BlockCap(cfg: Config): nat { Max(cfg.maxBlockSecs, cfg.blockSecs) }

  function Escalated(base: nat, factor: nat, k: nat, cap: nat): nat { Min(base * Pow(factor, k), cap) }

  // The escalated duration, in closed form. No strikes count as one.
  function BlockSecs(cfg: Config, strikes: nat): nat {
    Escalated(cfg.blockSecs, Max(cfg.factor, 1), Max(Min(strikes, MAX_STRIKES) - 1, 0), BlockCap(cfg))
  }

  // (1000.0 / rps) as u64; the cast of an infinite quotient saturates.
  function RetryAfterMs(cfg: Config): nat
  {
    if cfg.rps == 0 then U64_MAX else 1000 / cfg.rps
  }

  // ---- The whole state -----------------------------------------------------

  datatype State = State(
    buckets: map<IpAddr, Bucket>,
    blocklist: map<IpAddr, BlockEntry>,
    strikes: map<IpAddr, StrikeRecord>,
    perIp: map<IpAddr, nat>,
    total: nat)

  const Fresh: State := State(map[], map[], map[], map[], 0)

  predicate BlockedAt(s: State, ip: IpAddr, now: Instant) {
    ip in s.blocklist && s.blocklist[ip].expires > now
  }

  function CheckBlocklist(s: State, ip: IpAddr, now: Instant): Option<Decision> {
    if BlockedAt(s, ip, now) then
      Some(Blocked(s.blocklist[ip].reason, ((s.blocklist[ip].expires - now) * 1000.0).Floor))
    else None
  }

  function Block(s: State, ip: IpAddr, secs: real, reason: BlockReason, now: Instant): State {
    s.(blocklist := s.blocklist[ip := BlockEntry(now + secs, reason)])
  }

  function NextStrike(s: State, ip: IpAddr): (n: nat)
    ensures n >= 1
  {
    Min((if ip in s.strikes then s.strikes[ip].count else 0) + 1, MAX_STRIKES)
  }

  function RecordAutoBlock(cfg: Config, s: State, ip: IpAddr, now: Instant): (r: (State, nat)) {
    var count := NextStrike(s, ip);
    var secs := BlockSecs(cfg, count);
    (Block(s.(strikes := s.strikes[ip := StrikeRecord(count, now)]), ip, secs as real, RateLimitViolation, now), secs)
  }

  // The bucket a request of `ip` is charged to, and whether it pays.
  function Charge(cfg: Config, s: State, ip: IpAddr, now: Instant): (Bucket, bool) {
    ChargeBucket(cfg, if ip in s.buckets then s.buckets[ip] else NewBucket(cfg, now), now)
  }

  function ChargeBucket(cfg: Config, b: Bucket, now: Instant): (Bucket, bool) {
    var noted := NoteRequest(b, now, cfg.alphaPct);
    Consume(noted.(rate := EffectiveRps(cfg.rps, noted.ewma, cfg.adaptive)), now)
  }

  function CheckRequest(cfg: Config, s: State, ip: IpAddr, now: Instant): (State, Decision)
    requires ValidConfig(cfg)
  {
    if !cfg.enabled then (s, Allow)
    else
      match CheckBlocklist(s, ip, now)
      case Some(d) => (s, d)
      case None =>
        var (b, ok) := Charge(cfg, s, ip, now);
        var s1 := s.(buckets := s.buckets[ip := b]);
        if ok then (s1, Allow)
        else if Trusted(cfg.trusted, ip) || b.violations < cfg.threshold then (s1, RateLimited(RetryAfterMs(cfg)))
        else
          var (s2, secs) := RecordAutoBlock(cfg, s1, ip, now);
          (s2, Blocked(RateLimitViolation, secs * 1000))
  }

  function LiveBlocks(s: State, now: Instant): map<IpAddr, BlockEntry> {
    map ip | ip in s.blocklist && s.blocklist[ip].expires > now :: s.blocklist[ip]
  }

  function BusyBuckets(s: State, now: Instant): map<IpAddr, Bucket> {
    map ip | ip in s.buckets && !IsIdle(s.buckets[ip], now) :: s.buckets[ip]
  }

  function RecentStrikes(cfg: Config, s: State, now: Instant): map<IpAddr, StrikeRecord> {
    map ip | ip in s.strikes && Since(now, s.strikes[ip].last) <= cfg.strikeDecaySecs as real :: s.strikes[ip]
  }

  function Cleanup(cfg: Config, s: State, now: Instant): State {
    s.(blocklist := LiveBlocks(s, now), buckets := BusyBuckets(s, now), strikes := RecentStrikes(cfg, s, now))
  }

  // ---- Connections ---------------------------------------------------------

  function Count(perIp: map<IpAddr, nat>, ip: IpAddr): nat { if ip in perIp then perIp[ip] else 0 }

  function CheckBehindProxy(cfg: Config, s: State, peer: IpAddr, now: Instant): Decision {
    if !cfg.enabled then Allow
    else match CheckBlocklist(s, peer, now)
      case Some(d) => d
      case None => if s.total >= cfg.maxTotal then ConnectionLimitReached else Allow
  }

  function CheckConnection(cfg: Config, s: State, ip: IpAddr, now: Instant): Decision {
    if !cfg.enabled then Allow
    else match CheckBlocklist(s, ip, now)
      case Some(d) => d
      case None =>
        if s.total >= cfg.maxTotal || Count(s.perIp, ip) >= cfg.maxPerIp then ConnectionLimitReached else Allow
  }

  function OnConnect(cfg: Config, s: State, ip: IpAddr): State {
    if !cfg.enabled then s
    else s.(perIp := s.perIp[ip := Count(s.perIp, ip) + 1], total := s.total + 1)
  }

  function OnDisconnect(cfg: Config, s: State, ip: IpAddr): State {
    if !cfg.enabled then s
    else
      var perIp := if ip !in s.perIp then s.perIp
                   else if s.perIp[ip] <= 1 then s.perIp - {ip}
                   else s.perIp[ip := s.perIp[ip] - 1];
      s.(perIp := perIp, total := if s.total > 0 then s.total - 1 else 0)
  }

  function OnConnectUnattributed(cfg: Config, s: State): State {
    if !cfg.enabled then s else s.(total := s.total + 1)
  }

  function OnDisconnectUnattributed(cfg: Config, s: State): State {
    if !cfg.enabled then s else s.(total := if s.total > 0 then s.total - 1 else 0)
  }
}
