// Who gets blocked over a run, and for how long (crates/firewall/src/lib.rs).
module FirewallBlocks {
  import opened Prelude
  import opened Proxy
  import opened FirewallModel
  import opened FirewallRuns
  import Firewalls

  // ---- Violations as a history ---------------------------------------------

  // One answered request: true where it was refused.
  type History = seq<bool>

  function Drift(h: History): int {
    if h == [] then 0 else Drift(h[..|h| - 1]) + (if h[|h| - 1] then 1 else -1)
  }

  // v is the largest excess of refusals over allowances at the end of h.
  ghost predicate IsWorstExcess(h: History, v: int) {
    && (forall k :: 0 <= k <= |h| ==> Drift(h[k..]) <= v)
    && (exists k :: 0 <= k <= |h| && Drift(h[k..]) == v)
  }

  lemma NoExcessYet()
    ensures IsWorstExcess([], 0)
  {
    var h: History := [];
    assert h[0..] == h && Drift(h[0..]) == 0;
  }

  lemma DriftAppend(h: History, refused: bool, k: nat)
    requires k <= |h|
    ensures Drift((h + [refused])[k..]) == Drift(h[k..]) + (if refused then 1 else -1)
  {
    assert (h + [refused])[k..] == h[k..] + [refused];
    assert (h[k..] + [refused])[..|h[k..]|] == h[k..];
  }

  // A leaky counter that never goes below zero keeps the worst excess.
  lemma WorstExcessAppend(h: History, v: int, refused: bool)
    requires IsWorstExcess(h, v) && v >= 0
    ensures IsWorstExcess(h + [refused], if refused then v + 1 else if v > 0 then v - 1 else 0)
  {
    var h', d := h + [refused], if refused then 1 else -1;
    var v' := if refused then v + 1 else if v > 0 then v - 1 else 0;
    forall k | 0 <= k <= |h'|
      ensures Drift(h'[k..]) <= v'
    {
      if k <= |h| { DriftAppend(h, refused, k); }
    }
    if refused || v > 0 {
      var k :| 0 <= k <= |h| && Drift(h[k..]) == v;
      DriftAppend(h, refused, k);
      assert Drift(h'[k..]) == v';
    } else {
      assert h'[|h'|..] == [];
      assert Drift(h'[|h'|..]) == 0;
    }
  }

  lemma WorstExcessUnique(h: History, v: int, w: int)
    requires IsWorstExcess(h, v) && IsWorstExcess(h, w)
    ensures v == w
  {
    var k :| 0 <= k <= |h| && Drift(h[k..]) == v;
  }

  // What the firewall decided about `ip` since it last had no bucket.
  function Decided(cfg: Config, run: Run, ip: IpAddr): History
    requires ValidConfig(cfg)
  {
    if run == [] then []
    else
      var before, e := run[..|run| - 1], run[|run| - 1];
      var s, h := After(cfg, before), Decided(cfg, before, ip);
      match e
      case Request(ip', now) =>
        if ip' == ip && cfg.enabled && !BlockedAt(s, ip, now) then h + [!Answer(cfg, before, e).Allow?] else h
      case Sweep(now) => if ip in s.buckets && IsIdle(s.buckets[ip], now) then [] else h
      case BlockIp(_, _, _, _) => h
      case UnblockIp(_, _) => h
  }

  function Violations(s: State, ip: IpAddr): nat { if ip in s.buckets then s.buckets[ip].violations else 0 }

  // The violation counter is the worst excess of refusals over allowances since
  // the bucket was made.
  ghost predicate CountsExcess(cfg: Config, run: Run, ip: IpAddr)
    requires ValidConfig(cfg)
  {
    && IsWorstExcess(Decided(cfg, run, ip), Violations(After(cfg, run), ip))
    && (ip !in After(cfg, run).buckets ==> Decided(cfg, run, ip) == [])
  }

  lemma {:induction false} ViolationsAreWorstExcess(cfg: Config, run: Run, ip: IpAddr)
    requires ValidConfig(cfg)
    ensures CountsExcess(cfg, run, ip)
  {
    hide CountsExcess, After, Decided;
    if run == [] {
      NothingDecided(cfg, ip);
    } else {
      ViolationsAreWorstExcess(cfg, run[..|run| - 1], ip);
      if run[|run| - 1].Request? { RequestExcess(cfg, run, ip); } else { OtherExcess(cfg, run, ip); }
    }
  }

  lemma NothingDecided(cfg: Config, ip: IpAddr)
    requires ValidConfig(cfg)
    ensures CountsExcess(cfg, [], ip)
  {
    NoExcessYet();
  }

  lemma OtherExcess(cfg: Config, run: Run, ip: IpAddr)
    requires ValidConfig(cfg) && run != [] && !run[|run| - 1].Request? && CountsExcess(cfg, run[..|run| - 1], ip)
    ensures CountsExcess(cfg, run, ip)
  {
    hide IsWorstExcess, CheckRequest;
    NoExcessYet();
  }

  lemma RequestExcess(cfg: Config, run: Run, ip: IpAddr)
    requires ValidConfig(cfg) && run != [] && run[|run| - 1].Request? && CountsExcess(cfg, run[..|run| - 1], ip)
    ensures CountsExcess(cfg, run, ip)
  {
    hide IsWorstExcess, CheckRequest;
    var before, e := run[..|run| - 1], run[|run| - 1];
    var s := After(cfg, before);
    RequestOthers(cfg, s, e.ip, ip, e.at);
    if e.ip == ip && cfg.enabled && !BlockedAt(s, ip, e.at) {
      RequestCounts(cfg, s, ip, e.at);
      WorstExcessAppend(Decided(cfg, before, ip), Violations(s, ip), !Answer(cfg, before, e).Allow?);
    }
  }

  // A request that is not charged to an address leaves its bucket alone.
  lemma RequestOthers(cfg: Config, s: State, who: IpAddr, ip: IpAddr, now: Instant)
    requires ValidConfig(cfg)
    ensures var s' := CheckRequest(cfg, s, who, now).0;
      who != ip || !cfg.enabled || BlockedAt(s, ip, now) ==>
        (ip in s'.buckets <==> ip in s.buckets) && Violations(s', ip) == Violations(s, ip)
  {
    hide ChargeBucket;
  }

  lemma RequestCounts(cfg: Config, s: State, ip: IpAddr, now: Instant)
    requires ValidConfig(cfg) && cfg.enabled && !BlockedAt(s, ip, now)
    ensures var (s', d) := CheckRequest(cfg, s, ip, now);
      var v := if ip in s.buckets then s.buckets[ip].violations else 0;
      && ip in s'.buckets
      && s'.buckets[ip].violations == (if !d.Allow? then v + 1 else if v > 0 then v - 1 else 0)
  {
  }

  // ---- Auto-blocks ---------------------------------------------------------

  // The step put `ip` on the blocklist by itself.
  ghost predicate AutoBlocks(cfg: Config, s: State, e: Event)
    requires ValidConfig(cfg)
  {
    e.Request? && cfg.enabled && !BlockedAt(s, e.ip, e.at) && CheckRequest(cfg, s, e.ip, e.at).1.Blocked?
  }

  // A request auto-blocks exactly when it is refused, the worst excess has then
  // reached the threshold, and the caller is no trusted proxy; the block runs
  // for the escalated duration of one more strike. Nothing else is blocked.
  lemma AutoBlockExact(cfg: Config, run: Run, e: Event, v: int)
    requires ValidConfig(cfg) && cfg.enabled && e.Request?
    requires !BlockedAt(After(cfg, run), e.ip, e.at)
    requires IsWorstExcess(Decided(cfg, run + [e], e.ip), v)
    ensures var s, s' := After(cfg, run), After(cfg, run + [e]);
      && (AutoBlocks(cfg, s, e) <==>
          !Answer(cfg, run, e).Allow? && v >= cfg.threshold && !Trusted(cfg.trusted, e.ip))
      && (AutoBlocks(cfg, s, e) ==>
          var until := e.at + BlockSecs(cfg, NextStrike(s, e.ip)) as real;
          && s'.blocklist == s.blocklist[e.ip := BlockEntry(until, RateLimitViolation)]
          && s'.strikes == s.strikes[e.ip := StrikeRecord(NextStrike(s, e.ip), e.at)])
      && (!AutoBlocks(cfg, s, e) ==> s'.blocklist == s.blocklist && s'.strikes == s.strikes)
  {
    hide IsWorstExcess, ChargeBucket;
    var all := run + [e];
    assert all[..|all| - 1] == run;
    ViolationsAreWorstExcess(cfg, all, e.ip);
    RequestCounts(cfg, After(cfg, run), e.ip, e.at);
    WorstExcessUnique(Decided(cfg, all, e.ip), v, After(cfg, all).buckets[e.ip].violations);
  }

  // No run of requests puts a trusted proxy on the blocklist: only a manual
  // block of that very address does.
  lemma {:induction false} TrustedNeverBlocked(cfg: Config, run: Run, ip: IpAddr)
    requires ValidConfig(cfg) && Trusted(cfg.trusted, ip)
    requires forall i :: 0 <= i < |run| ==> !(run[i].BlockIp? && run[i].ip == ip)
    ensures ip !in After(cfg, run).blocklist && ip !in After(cfg, run).strikes
  {
    if run != [] {
      TrustedNeverBlocked(cfg, run[..|run| - 1], ip);
      StepSparesTrusted(cfg, After(cfg, run[..|run| - 1]), run[|run| - 1], ip);
    }
  }

  lemma StepSparesTrusted(cfg: Config, s: State, e: Event, ip: IpAddr)
    requires ValidConfig(cfg) && Trusted(cfg.trusted, ip) && !(e.BlockIp? && e.ip == ip)
    requires ip !in s.blocklist && ip !in s.strikes
    ensures ip !in Step(cfg, s, e).blocklist && ip !in Step(cfg, s, e).strikes
  {
  }

  // ---- Escalation over a run -----------------------------------------------

  // No sweep in run[i..j] forgets the strikes of `ip`.
  ghost predicate StrikesKept(cfg: Config, run: Run, ip: IpAddr, i: nat, j: nat)
    requires ValidConfig(cfg) && i <= j <= |run|
  {
    forall k :: i <= k < j && run[k].Sweep? && ip in After(cfg, run[..k]).strikes ==>
      ip in After(cfg, run[..k + 1]).strikes
  }

  function StrikeCount(s: State, ip: IpAddr): nat { if ip in s.strikes then s.strikes[ip].count else 0 }

  lemma StepKeepsStrikes(cfg: Config, s: State, e: Event, ip: IpAddr)
    requires ValidConfig(cfg) && StrikeCount(s, ip) <= MAX_STRIKES
    requires e.Sweep? && ip in s.strikes ==> ip in Step(cfg, s, e).strikes
    ensures StrikeCount(s, ip) <= StrikeCount(Step(cfg, s, e), ip) <= MAX_STRIKES
  {
  }

  lemma {:induction false} StrikesOnlyGrow(cfg: Config, run: Run, ip: IpAddr, i: nat, j: nat)
    requires ValidConfig(cfg) && i <= j <= |run| && StrikesKept(cfg, run, ip, i, j)
    requires StrikeCount(After(cfg, run[..i]), ip) <= MAX_STRIKES
    ensures StrikeCount(After(cfg, run[..i]), ip) <= StrikeCount(After(cfg, run[..j]), ip) <= MAX_STRIKES
    decreases j
  {
    if i < j {
      StrikesOnlyGrow(cfg, run, ip, i, j - 1);
      AfterPrefix(cfg, run, j - 1);
      StepKeepsStrikes(cfg, After(cfg, run[..j - 1]), run[j - 1], ip);
    }
  }

  lemma AfterPrefix(cfg: Config, run: Run, k: nat)
    requires ValidConfig(cfg) && k < |run|
    ensures After(cfg, run[..k + 1]) == Step(cfg, After(cfg, run[..k]), run[k])
  {
    assert run[..k + 1][..k] == run[..k];
  }

  function BlockLength(cfg: Config, run: Run, i: nat): real
    requires ValidConfig(cfg) && i < |run| && run[i].Request?
    requires run[i].ip in After(cfg, run[..i + 1]).blocklist
  {
    After(cfg, run[..i + 1]).blocklist[run[i].ip].expires - run[i].at
  }

  lemma AutoBlockLength(cfg: Config, run: Run, i: nat)
    requires ValidConfig(cfg) && i < |run| && AutoBlocks(cfg, After(cfg, run[..i]), run[i])
    ensures run[i].ip in After(cfg, run[..i + 1]).blocklist
    ensures BlockLength(cfg, run, i) == BlockSecs(cfg, NextStrike(After(cfg, run[..i]), run[i].ip)) as real
    ensures StrikeCount(After(cfg, run[..i + 1]), run[i].ip) == NextStrike(After(cfg, run[..i]), run[i].ip)
  {
    AfterPrefix(cfg, run, i);
  }

  // An address's successive auto-blocks never get shorter while its strikes are
  // remembered, and none is shorter than the base or longer than the cap.
  lemma BlocksNeverShrink(cfg: Config, run: Run, i: nat, j: nat)
    requires ValidConfig(cfg) && i < j < |run|
    requires AutoBlocks(cfg, After(cfg, run[..i]), run[i]) && AutoBlocks(cfg, After(cfg, run[..j]), run[j])
    requires run[i].ip == run[j].ip && StrikesKept(cfg, run, run[i].ip, i + 1, j)
    ensures run[i].ip in After(cfg, run[..i + 1]).blocklist && run[j].ip in After(cfg, run[..j + 1]).blocklist
    ensures cfg.blockSecs as real <= BlockLength(cfg, run, i) <= BlockLength(cfg, run, j) <= BlockCap(cfg) as real
  {
    AutoBlockLength(cfg, run, i);
    AutoBlockLength(cfg, run, j);
    StrikesOnlyGrow(cfg, run, run[i].ip, i + 1, j);
    var n, m := NextStrike(After(cfg, run[..i]), run[i].ip), NextStrike(After(cfg, run[..j]), run[j].ip);
    Firewalls.MoreStrikesNoShorter(cfg, n, m);
  }
}
