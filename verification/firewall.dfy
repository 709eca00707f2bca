// The firewall as the program runs it: a token bucket per address, updated in
// place, inside a firewall whose maps its methods reassign
// (crates/firewall/src/lib.rs).
module Firewalls {
  import opened Prelude
  import opened Proxy
  import M = FirewallModel

  class TokenBucket {
    const capacity: real
    var tokens: real
    var rate: real
    var lastRefill: M.Instant
    var violations: nat
    var ewma: Option<real>
    var windowCount: nat
    var windowStart: Option<M.Instant>

    ghost function View(): M.Bucket
      reads this
    {
      M.Bucket(capacity, tokens, rate, lastRefill, violations, ewma, windowCount, windowStart)
    }

    constructor (cfg: M.Config, now: M.Instant)
      ensures View() == M.NewBucket(cfg, now)
    {
      capacity := cfg.burst as real;
      tokens := cfg.burst as real;
      rate := cfg.rps as real;
      lastRefill := now;
      violations := 0;
      ewma := None;
      windowCount := 0;
      windowStart := None;
    }

    method NoteRequestAt(now: M.Instant, alphaPct: u32)
      modifies this
      ensures View() == M.NoteRequest(old(View()), now, alphaPct)
    {
      match windowStart {
        case None =>
          windowStart := Some(now);
        case Some(start) =>
          if M.Since(now, start) >= M.WINDOW_SECS {
            var sample := windowCount as real;
            match ewma {
              case None => ewma := Some(sample);
              case Some(prev) => ewma := Some(M.EwmaUpdate(prev, sample, alphaPct));
            }
            windowCount := 0;
            windowStart := Some(now);
          }
      }
      windowCount := windowCount + 1;
    }

    method Consume(now: M.Instant) returns (ok: bool)
      modifies this
      ensures (View(), ok) == M.Consume(old(View()), now)
    {
      var elapsed := M.Since(now, lastRefill);
      tokens := MinReal(tokens + elapsed * rate, capacity);
      lastRefill := now;
      if tokens >= 1.0 {
        tokens := tokens - 1.0;
        if violations > 0 {
          violations := violations - 1;
        }
        ok := true;
      } else {
        violations := violations + 1;
        ok := false;
      }
    }
  }

  class Firewall {
    const config: M.Config
    var buckets: map<IpAddr, TokenBucket>
    var blocklist: map<IpAddr, M.BlockEntry>
    var strikes: map<IpAddr, M.StrikeRecord>
    var connPerIp: map<IpAddr, nat>
    var connTotal: nat

    // Each address owns its own bucket.
    ghost predicate Valid()
      reads this
    {
      && M.ValidConfig(config)
      && forall a, b :: a in buckets && b in buckets && a != b ==> buckets[a] != buckets[b]
    }

    ghost function Views(): map<IpAddr, M.Bucket>
      reads this, buckets.Values
    {
      map ip | ip in buckets :: buckets[ip].View()
    }

    lemma ViewsAre(m: map<IpAddr, M.Bucket>)
      requires m.Keys == buckets.Keys
      requires forall a :: a in buckets ==> m[a] == buckets[a].View()
      ensures Views() == m
    {
      assert forall a :: a in m ==> Views()[a] == m[a];
    }

    ghost function State(): M.State
      reads this, buckets.Values
    {
      M.State(Views(), blocklist, strikes, connPerIp, connTotal)
    }

    constructor (cfg: M.Config)
      requires M.ValidConfig(cfg)
      ensures Valid() && config == cfg && State() == M.Fresh
    {
      config := cfg;
      buckets := map[];
      blocklist := map[];
      strikes := map[];
      connPerIp := map[];
      connTotal := 0;
    }

    // The bucket of `ip`, made on first use.
    method BucketOf(ip: IpAddr, now: M.Instant) returns (bucket: TokenBucket)
      requires Valid()
      modifies this`buckets
      ensures Valid() && fresh(buckets.Values - old(buckets.Values))
      ensures ip in buckets && buckets[ip] == bucket
      ensures bucket.View() == if ip in old(buckets) then old(buckets[ip].View()) else M.NewBucket(config, now)
      ensures buckets == old(buckets)[ip := bucket]
    {
      if ip !in buckets {
        var made := new TokenBucket(config, now);
        buckets := buckets[ip := made];
      }
      bucket := buckets[ip];
    }

    // Note the request, adapt the rate, try to pay.
    method ChargeTo(bucket: TokenBucket, now: M.Instant) returns (ok: bool)
      modifies bucket
      ensures (bucket.View(), ok) == M.ChargeBucket(config, old(bucket.View()), now)
    {
      bucket.NoteRequestAt(now, config.alphaPct);
      bucket.rate := M.EffectiveRps(config.rps, bucket.ewma, config.adaptive);
      ok := bucket.Consume(now);
    }

    // Charge one request to the bucket of `ip`.
    method Charge(ip: IpAddr, now: M.Instant) returns (ok: bool, violations: nat)
      requires Valid()
      modifies this`buckets, buckets.Values
      ensures Valid() && fresh(buckets.Values - old(buckets.Values))
      ensures ip in buckets && (buckets[ip].View(), ok) == M.Charge(config, old(State()), ip, now)
      ensures violations == buckets[ip].violations
      ensures State() == old(State()).(buckets := old(Views())[ip := buckets[ip].View()])
    {
      hide M.ChargeBucket, M.NewBucket;
      ghost var before := Views();
      var bucket := BucketOf(ip, now);
      assert forall a :: a in buckets && a != ip ==> buckets[a] != bucket && buckets[a].View() == before[a];
      ok := ChargeTo(bucket, now);
      violations := bucket.violations;
      ViewsAre(before[ip := bucket.View()]);
    }

    method CheckRequest(ip: IpAddr, now: M.Instant) returns (d: M.Decision)
      requires Valid()
      modifies this, buckets.Values
      ensures Valid() && fresh(buckets.Values - old(buckets.Values))
      ensures (State(), d) == M.CheckRequest(config, old(State()), ip, now)
    {
      hide M.Charge, M.RecordAutoBlock;
      if !config.enabled {
        return M.Allow;
      }
      if ip in blocklist && blocklist[ip].expires > now {
        return M.Blocked(blocklist[ip].reason, ((blocklist[ip].expires - now) * 1000.0).Floor);
      }
      var ok, violations := Charge(ip, now);
      if ok {
        return M.Allow;
      }
      if Trusted(config.trusted, ip) {
        return M.RateLimited(M.RetryAfterMs(config));
      }
      if violations >= config.threshold {
        var secs := RecordAutoBlock(ip, now);
        return M.Blocked(M.RateLimitViolation, secs * 1000);
      }
      return M.RateLimited(M.RetryAfterMs(config));
    }

    method RecordAutoBlock(ip: IpAddr, now: M.Instant) returns (secs: nat)
      modifies this`strikes, this`blocklist
      ensures (State(), secs) == M.RecordAutoBlock(config, old(State()), ip, now)
    {
      var count := Min((if ip in strikes then strikes[ip].count else 0) + 1, M.MAX_STRIKES);
      assert count == M.NextStrike(old(State()), ip);
      strikes := strikes[ip := M.StrikeRecord(count, now)];
      assert State() == old(State()).(strikes := old(strikes)[ip := M.StrikeRecord(count, now)]);
      secs := BlockDurationSecsFor(count);
      assert State() == old(State()).(strikes := old(strikes)[ip := M.StrikeRecord(count, now)]);
      BlockIp(ip, secs as real, M.RateLimitViolation, now);
    }

    // The escalation loop, with its saturating product and early exit, computes
    // base * factor^(min(strikes, 16) - 1) capped at max(base, configured cap).
    method BlockDurationSecsFor(strikes: nat) returns (dur: nat)
      ensures dur == M.BlockSecs(config, strikes)
    {
      var base := config.blockSecs;
      var factor := Max(config.factor, 1);
      var cap := Max(config.maxBlockSecs, base);
      var last := Min(strikes, M.MAX_STRIKES);
      dur := base;
      EscalationStart(base, factor, cap);
      var i := 1;
      while i < last
        invariant 1 <= i <= Max(last, 1)
        invariant dur == M.Escalated(base, factor, i - 1, cap)
      {
        EscalationStep(base, factor, i - 1, cap);
        dur := Min(Min(dur * factor, U64_MAX), cap);
        i := i + 1;
        if dur >= cap {
          EscalationGrows(base, factor, i - 1, last - 1, cap);
          break;
        }
      }
    }

    method BlockIp(ip: IpAddr, secs: real, reason: M.BlockReason, now: M.Instant)
      modifies this`blocklist
      ensures State() == M.Block(old(State()), ip, secs, reason, now)
    {
      blocklist := blocklist[ip := M.BlockEntry(now + secs, reason)];
    }

    method Cleanup(now: M.Instant)
      requires Valid()
      modifies this
      ensures Valid() && State() == M.Cleanup(config, old(State()), now)
    {
      ExpireBlocks(now);
      DropIdleBuckets(now);
      ForgetStrikes(now);
    }

    method ExpireBlocks(now: M.Instant)
      modifies this`blocklist
      ensures State() == old(State()).(blocklist := M.LiveBlocks(old(State()), now))
    {
      blocklist := map ip | ip in blocklist && blocklist[ip].expires > now :: blocklist[ip];
      assert blocklist == M.LiveBlocks(old(State()), now);
    }

    method DropIdleBuckets(now: M.Instant)
      requires Valid()
      modifies this`buckets
      ensures Valid() && buckets.Values <= old(buckets.Values)
      ensures State() == old(State()).(buckets := M.BusyBuckets(old(State()), now))
    {
      buckets := map ip | ip in buckets && !(M.Since(now, buckets[ip].lastRefill) > M.IDLE_SECS) :: buckets[ip];
      ViewsAre(M.BusyBuckets(old(State()), now));
    }

    method ForgetStrikes(now: M.Instant)
      modifies this`strikes
      ensures State() == old(State()).(strikes := M.RecentStrikes(config, old(State()), now))
    {
      strikes := map ip | ip in strikes
        && M.Since(now, strikes[ip].last) <= config.strikeDecaySecs as real :: strikes[ip];
      assert strikes == M.RecentStrikes(config, old(State()), now);
    }

    method CheckConnection(ip: IpAddr, now: M.Instant) returns (d: M.Decision)
      ensures d == M.CheckConnection(config, State(), ip, now)
    {
      if !config.enabled {
        return M.Allow;
      }
      if ip in blocklist && blocklist[ip].expires > now {
        return M.Blocked(blocklist[ip].reason, ((blocklist[ip].expires - now) * 1000.0).Floor);
      }
      if connTotal >= config.maxTotal {
        return M.ConnectionLimitReached;
      }
      if M.Count(connPerIp, ip) >= config.maxPerIp {
        return M.ConnectionLimitReached;
      }
      return M.Allow;
    }

    method CheckConnectionBehindProxy(peer: IpAddr, now: M.Instant) returns (d: M.Decision)
      ensures d == M.CheckBehindProxy(config, State(), peer, now)
    {
      if !config.enabled {
        return M.Allow;
      }
      if peer in blocklist && blocklist[peer].expires > now {
        return M.Blocked(blocklist[peer].reason, ((blocklist[peer].expires - now) * 1000.0).Floor);
      }
      if connTotal >= config.maxTotal {
        return M.ConnectionLimitReached;
      }
      return M.Allow;
    }

    method OnConnect(ip: IpAddr)
      modifies this`connPerIp, this`connTotal
      ensures State() == M.OnConnect(config, old(State()), ip)
    {
      if !config.enabled {
        return;
      }
      connPerIp := connPerIp[ip := M.Count(connPerIp, ip) + 1];
      connTotal := connTotal + 1;
    }

    method OnDisconnect(ip: IpAddr)
      modifies this`connPerIp, this`connTotal
      ensures State() == M.OnDisconnect(config, old(State()), ip)
    {
      if !config.enabled {
        return;
      }
      if ip in connPerIp {
        var c := if connPerIp[ip] > 0 then connPerIp[ip] - 1 else 0;
        connPerIp := connPerIp[ip := c];
        if c == 0 {
          connPerIp := connPerIp - {ip};
          assert connPerIp == old(connPerIp) - {ip};
        }
      }
      connTotal := if connTotal > 0 then connTotal - 1 else 0;
    }

    method OnConnectUnattributed()
      modifies this`connTotal
      ensures State() == M.OnConnectUnattributed(config, old(State()))
    {
      if !config.enabled {
        return;
      }
      connTotal := connTotal + 1;
    }

    method OnDisconnectUnattributed()
      modifies this`connTotal
      ensures State() == M.OnDisconnectUnattributed(config, old(State()))
    {
      if !config.enabled {
        return;
      }
      connTotal := if connTotal > 0 then connTotal - 1 else 0;
    }
  }

  // ---- Escalation arithmetic -----------------------------------------------

  lemma EscalationStart(base: nat, factor: nat, cap: nat)
    requires base <= cap
    ensures M.Escalated(base, factor, 0, cap) == base
  {
    assert base * M.Pow(factor, 0) == base;
  }

  // One turn of the loop: saturating the product changes nothing below the cap.
  lemma EscalationStep(base: nat, factor: nat, k: nat, cap: nat)
    requires factor >= 1 && cap <= U64_MAX
    ensures M.Escalated(base, factor, k + 1, cap)
         == Min(Min(M.Escalated(base, factor, k, cap) * factor, U64_MAX), cap)
  {
    var exact := base * M.Pow(factor, k);
    assert base * M.Pow(factor, k + 1) == exact * factor by {
      assert base * (factor * M.Pow(factor, k)) == (base * M.Pow(factor, k)) * factor;
    }
    if exact > cap {
      ScaleUp(cap, 1, factor);
      ScaleUp(exact, 1, factor);
    }
  }

  lemma ScaleUp(x: nat, a: nat, b: nat)
    requires a <= b
    ensures x * a <= x * b
  {
    assert x * b == x * a + x * (b - a);
  }

  lemma OneMoreFactor(base: nat, factor: nat, k: nat)
    requires factor >= 1
    ensures base * M.Pow(factor, k) <= base * M.Pow(factor, k + 1)
  {
    ScaleUp(base * M.Pow(factor, k), 1, factor);
    Reorder(base, factor, M.Pow(factor, k));
  }

  lemma Reorder(a: nat, b: nat, c: nat)
    ensures a * (b * c) == (a * c) * b
  {
  }

  lemma {:induction false} EscalationGrows(base: nat, factor: nat, a: nat, b: nat, cap: nat)
    requires factor >= 1 && a <= b
    ensures M.Escalated(base, factor, a, cap) <= M.Escalated(base, factor, b, cap)
    decreases b
  {
    hide M.Pow;
    if a < b {
      EscalationGrows(base, factor, a, b - 1, cap);
      OneMoreFactor(base, factor, b - 1);
    }
  }

  // More strikes never mean a shorter block.
  lemma MoreStrikesNoShorter(cfg: M.Config, n: nat, m: nat)
    requires n <= m
    ensures cfg.blockSecs <= M.BlockSecs(cfg, n) <= M.BlockSecs(cfg, m) <= M.BlockCap(cfg)
  {
    var f := Max(cfg.factor, 1);
    var a, b := Max(Min(n, M.MAX_STRIKES) - 1, 0), Max(Min(m, M.MAX_STRIKES) - 1, 0);
    EscalationStart(cfg.blockSecs, f, M.BlockCap(cfg));
    EscalationGrows(cfg.blockSecs, f, 0, a, M.BlockCap(cfg));
    EscalationGrows(cfg.blockSecs, f, a, b, M.BlockCap(cfg));
  }
}
