// When a cleanup is seen in a later answer (crates/firewall/src/lib.rs).
module FirewallSeen {
  import opened Prelude
  import opened Proxy
  import opened FirewallModel
  import opened FirewallRuns
  import opened FirewallSweeps
  import opened Accounts
  import Firewalls

  // A history, and a sweep after it.
  ghost predicate SweptAfter(past: Run, swept: Instant) { Monotone(past + [Sweep(swept)]) }

  // Whether the sweep is made or not, every later request is answered alike.
  ghost predicate Unseen(cfg: Config, past: Run, swept: Instant)
    requires ValidConfig(cfg)
  {
    forall run: Run, e: Event :: e.Request? && Monotone(past + [Sweep(swept)] + run + [e]) ==>
      Answer(cfg, past + [Sweep(swept)] + run, e) == Answer(cfg, past + run, e)
  }

  // ---- Runs one after the other --------------------------------------------

  lemma FromAppend(cfg: Config, s: State, run: Run, e: Event)
    requires ValidConfig(cfg)
    ensures From(cfg, s, run + [e]) == Step(cfg, From(cfg, s, run), e)
  {
    assert (run + [e])[..|run|] == run;
  }

  lemma {:induction false} FromJoin(cfg: Config, s: State, r0: Run, r1: Run)
    requires ValidConfig(cfg)
    ensures From(cfg, s, r0 + r1) == From(cfg, From(cfg, s, r0), r1)
  {
    hide Step;
    if r1 == [] {
      assert r0 + r1 == r0;
    } else {
      var before, e := r1[..|r1| - 1], r1[|r1| - 1];
      FromJoin(cfg, s, r0, before);
      FromAppend(cfg, s, r0 + before, e);
      assert r0 + r1 == r0 + before + [e];
    }
  }

  lemma {:induction false} AfterIsFrom(cfg: Config, run: Run)
    requires ValidConfig(cfg)
    ensures After(cfg, run) == From(cfg, Fresh, run)
  {
    if run != [] { AfterIsFrom(cfg, run[..|run| - 1]); }
  }

  lemma AfterJoin(cfg: Config, past: Run, run: Run)
    requires ValidConfig(cfg)
    ensures After(cfg, past + run) == From(cfg, After(cfg, past), run)
  {
    AfterIsFrom(cfg, past);
    AfterIsFrom(cfg, past + run);
    FromJoin(cfg, Fresh, past, run);
  }

  lemma SweptIs(cfg: Config, past: Run, swept: Instant, run: Run)
    requires ValidConfig(cfg)
    ensures After(cfg, past + [Sweep(swept)] + run) == From(cfg, Cleanup(cfg, After(cfg, past), swept), run)
  {
    hide From;
    AfterJoin(cfg, past + [Sweep(swept)], run);
    AfterAppend(cfg, past, Sweep(swept), V4(0), 0.0, 0.0);
  }

  // Every run keeps its buckets within bounds, and its strikes above zero and
  // off the trusted addresses.
  ghost predicate StrikesReal(cfg: Config, s: State)
    requires ValidConfig(cfg)
  {
    forall ip :: ip in s.strikes ==> s.strikes[ip].count >= 1 && !Trusted(cfg.trusted, ip)
  }

  lemma NoStrikes(cfg: Config)
    requires ValidConfig(cfg)
    ensures StrikesReal(cfg, After(cfg, []))
  {
  }

  lemma StepStrikes(cfg: Config, s: State, e: Event)
    requires ValidConfig(cfg) && StrikesReal(cfg, s)
    ensures StrikesReal(cfg, Step(cfg, s, e))
  {
    hide ChargeBucket, Trusted, BlockSecs;
  }

  lemma {:induction false} RunStrikes(cfg: Config, run: Run)
    requires ValidConfig(cfg)
    ensures StrikesReal(cfg, After(cfg, run))
  {
    hide After, Step;
    if run == [] {
      NoStrikes(cfg);
    } else {
      var before, e := run[..|run| - 1], run[|run| - 1];
      assert run == before + [e];
      AfterAppend(cfg, before, e, V4(0), 0.0, 0.0);
      RunStrikes(cfg, before);
      StepStrikes(cfg, After(cfg, before), e);
    }
  }

  lemma PastSound(cfg: Config, past: Run, swept: Instant)
    requires ValidConfig(cfg) && SweptAfter(past, swept)
    ensures Sound(cfg, After(cfg, past), swept)
  {
    hide After;
    var all := past + [Sweep(swept)];
    assert forall i :: 0 <= i < |past| ==> all[i] == past[i];
    assert all[|past|].at == swept;
    if past != [] {
      RunSound(cfg, past);
    } else {
      NothingSound(cfg, swept);
    }
  }

  lemma NothingSound(cfg: Config, swept: Instant)
    requires ValidConfig(cfg)
    ensures Sound(cfg, After(cfg, []), swept)
  {
  }

  // ---- Requests of one address at one moment -------------------------------

  // The state after k of them.
  function Asking(cfg: Config, s: State, ip: IpAddr, at: Instant, k: nat): State
    requires ValidConfig(cfg)
  {
    if k == 0 then s else CheckRequest(cfg, Asking(cfg, s, ip, at, k - 1), ip, at).0
  }

  // The answer to one more.
  function Asked(cfg: Config, s: State, ip: IpAddr, at: Instant, k: nat): Decision
    requires ValidConfig(cfg)
  {
    CheckRequest(cfg, Asking(cfg, s, ip, at, k), ip, at).1
  }

  lemma {:induction false} AskingIs(cfg: Config, s: State, ip: IpAddr, at: Instant, k: nat)
    requires ValidConfig(cfg)
    ensures From(cfg, s, Repeat(Request(ip, at), k)) == Asking(cfg, s, ip, at, k)
  {
    hide CheckRequest;
    if k > 0 {
      AskingIs(cfg, s, ip, at, k - 1);
      FromAppend(cfg, s, Repeat(Request(ip, at), k - 1), Request(ip, at));
    }
  }

  lemma {:induction false} AskingOn(cfg: Config, s: State, ip: IpAddr, at: Instant, k: nat, n: nat)
    requires ValidConfig(cfg)
    ensures Asking(cfg, Asking(cfg, s, ip, at, k), ip, at, n) == Asking(cfg, s, ip, at, k + n)
  {
    hide CheckRequest;
    if n > 0 { AskingOn(cfg, s, ip, at, k, n - 1); }
  }

  function Freed(s: State, ip: IpAddr): State { s.(blocklist := s.blocklist - {ip}) }

  // What an address is told that is let off its block, asks at once and then
  // later, is the same with an unseen sweep and without it.
  lemma SameLater(cfg: Config, past: Run, swept: Instant, ip: IpAddr, k: nat, now: Instant)
    requires ValidConfig(cfg) && SweptAfter(past, swept) && Unseen(cfg, past, swept) && swept <= now
    ensures var s := After(cfg, past);
      CheckRequest(cfg, Asking(cfg, Freed(Cleanup(cfg, s, swept), ip), ip, swept, k), ip, now).1
      == CheckRequest(cfg, Asking(cfg, Freed(s, ip), ip, swept, k), ip, now).1
  {
    hide After, CheckRequest, Cleanup, Repeat, Unseen;
    var run, e := [UnblockIp(ip, swept)] + Repeat(Request(ip, swept), k), Request(ip, now);
    AskingRun(cfg, After(cfg, past), ip, swept, k);
    AskingRun(cfg, Cleanup(cfg, After(cfg, past), swept), ip, swept, k);
    AfterJoin(cfg, past, run);
    SweptIs(cfg, past, swept, run);
    AskingInOrder(past, swept, ip, k, now);
    UnseenSame(cfg, past, swept, run, e);
  }

  lemma SameAsked(cfg: Config, past: Run, swept: Instant, ip: IpAddr, k: nat)
    requires ValidConfig(cfg) && SweptAfter(past, swept) && Unseen(cfg, past, swept)
    ensures var s := After(cfg, past);
      Asked(cfg, Freed(Cleanup(cfg, s, swept), ip), ip, swept, k) == Asked(cfg, Freed(s, ip), ip, swept, k)
  {
    hide After, CheckRequest, Cleanup, Unseen;
    SameLater(cfg, past, swept, ip, k, swept);
  }

  lemma UnseenSame(cfg: Config, past: Run, swept: Instant, run: Run, e: Event)
    requires ValidConfig(cfg) && Unseen(cfg, past, swept)
    requires e.Request? && Monotone(past + [Sweep(swept)] + run + [e])
    ensures Answer(cfg, past + [Sweep(swept)] + run, e) == Answer(cfg, past + run, e)
  {
  }

  lemma AskingRun(cfg: Config, s: State, ip: IpAddr, at: Instant, k: nat)
    requires ValidConfig(cfg)
    ensures From(cfg, s, [UnblockIp(ip, at)] + Repeat(Request(ip, at), k)) == Asking(cfg, Freed(s, ip), ip, at, k)
  {
    hide CheckRequest, Repeat;
    var first: Run := [UnblockIp(ip, at)];
    FromJoin(cfg, s, first, Repeat(Request(ip, at), k));
    assert first == [] + first;
    FromAppend(cfg, s, [], UnblockIp(ip, at));
    AskingIs(cfg, Freed(s, ip), ip, at, k);
  }

  lemma AskingInOrder(past: Run, swept: Instant, ip: IpAddr, k: nat, now: Instant)
    requires SweptAfter(past, swept) && swept <= now
    ensures Monotone(past + [Sweep(swept)] + ([UnblockIp(ip, swept)] + Repeat(Request(ip, swept), k))
      + [Request(ip, now)])
  {
    var first, rest := past + [Sweep(swept)], [UnblockIp(ip, swept)] + Repeat(Request(ip, swept), k);
    assert forall i :: 0 <= i < |rest| ==> rest[i].at == swept;
    assert first[|past|].at == swept;
    AllAtLast(first, rest, swept, Request(ip, now));
  }

  lemma AllAtLast(first: Run, rest: Run, at: Instant, e: Event)
    requires Monotone(first) && first != [] && Last(first) == at <= e.at
    requires forall i :: 0 <= i < |rest| ==> rest[i].at == at
    ensures Monotone(first + rest + [e])
  {
  }

  // `ip` is not blocked, its bucket would be found to hold x tokens at `at`,
  // and counts v violations.
  ghost predicate Has(cfg: Config, s: State, ip: IpAddr, at: Instant, x: real, v: nat) {
    var b := BucketOf(cfg, s, ip, at);
    && ip !in s.blocklist
    && b.capacity == cfg.burst as real && b.violations == v
    && 0.0 <= Refilled(cfg, b, at) == x <= cfg.burst as real
  }

  // A second request at the same moment finds what the first one left.
  lemma Again(cfg: Config, b: Bucket, at: Instant)
    requires b.lastRefill == at && b.tokens <= b.capacity
    ensures Refilled(cfg, b, at) == b.tokens
  {
    var noted := NoteRequest(b, at, cfg.alphaPct);
    assert Since(at, noted.lastRefill) * EffectiveRps(cfg.rps, noted.ewma, cfg.adaptive) == 0.0;
  }

  // One request: what it is told, and what is left.
  lemma HasNext(cfg: Config, s: State, ip: IpAddr, at: Instant, x: real, v: nat)
    requires ValidConfig(cfg) && cfg.enabled && Has(cfg, s, ip, at, x, v)
    ensures var (s', d) := CheckRequest(cfg, s, ip, at);
      && (x >= 1.0 ==>
            d == Allow && Has(cfg, s', ip, at, x - 1.0, if v > 0 then v - 1 else 0) && s'.strikes == s.strikes)
      && (x < 1.0 && (Trusted(cfg.trusted, ip) || v + 1 < cfg.threshold) ==>
            d.RateLimited? && Has(cfg, s', ip, at, x, v + 1) && s'.strikes == s.strikes)
      && (x < 1.0 && !Trusted(cfg.trusted, ip) && v + 1 >= cfg.threshold ==>
            d == Blocked(RateLimitViolation, BlockSecs(cfg, NextStrike(s, ip)) * 1000))
  {
    hide ChargeBucket, Refilled, BlockSecs, Trusted;
    var b := Charge(cfg, s, ip, at).0;
    ChargeIs(cfg, BucketOf(cfg, s, ip, at), at);
    Again(cfg, b, at);
  }

  // The requests that the tokens allow, each working a violation off.
  lemma {:induction false} Spent(cfg: Config, s: State, ip: IpAddr, at: Instant, x: real, v: nat, k: nat)
    requires ValidConfig(cfg) && cfg.enabled && Has(cfg, s, ip, at, x, v) && k as real <= x
    ensures var s' := Asking(cfg, s, ip, at, k);
      Has(cfg, s', ip, at, x - k as real, Max(v - k, 0)) && s'.strikes == s.strikes
  {
    hide CheckRequest, Has;
    if k > 0 {
      Spent(cfg, s, ip, at, x, v, k - 1);
      HasNext(cfg, Asking(cfg, s, ip, at, k - 1), ip, at, x - (k - 1) as real, Max(v - (k - 1), 0));
    }
  }

  // Refusals below the threshold.
  lemma {:induction false} Refused(cfg: Config, s: State, ip: IpAddr, at: Instant, x: real, v: nat, n: nat)
    requires ValidConfig(cfg) && cfg.enabled && Has(cfg, s, ip, at, x, v) && x < 1.0
    requires v + n < cfg.threshold || n == 0
    ensures Has(cfg, Asking(cfg, s, ip, at, n), ip, at, x, v + n)
  {
    hide CheckRequest, Has, BlockSecs;
    if n > 0 {
      Refused(cfg, s, ip, at, x, v, n - 1);
      HasNext(cfg, Asking(cfg, s, ip, at, n - 1), ip, at, x, v + n - 1);
    }
  }

  // ---- What a sweep must not forget ----------------------------------------

  lemma FreedHas(cfg: Config, s: State, ip: IpAddr, at: Instant)
    requires Sound(cfg, s, at)
    ensures Has(cfg, Freed(s, ip), ip, at, Refilled(cfg, BucketOf(cfg, s, ip, at), at),
      BucketOf(cfg, s, ip, at).violations)
  {
    hide Refilled;
    NewRefilled(cfg, at);
    if ip in s.buckets { RefilledBounds(cfg, s.buckets[ip], at); }
  }

  // A dropped bucket is a full one, with nothing on its count.
  lemma DroppedHas(cfg: Config, s: State, ip: IpAddr, at: Instant)
    requires ip in s.buckets ==> IsIdle(s.buckets[ip], at)
    ensures Has(cfg, Freed(Cleanup(cfg, s, at), ip), ip, at, cfg.burst as real, 0)
  {
    hide Refilled;
    NewRefilled(cfg, at);
  }

  // A bucket that was not full: the sweep fills it.
  lemma RefillSeen(cfg: Config, past: Run, swept: Instant, ip: IpAddr)
    requires ValidConfig(cfg) && cfg.enabled && SweptAfter(past, swept)
    requires var s := After(cfg, past);
      ip in s.buckets && IsIdle(s.buckets[ip], swept) && Refilled(cfg, s.buckets[ip], swept) != cfg.burst as real
    ensures !Unseen(cfg, past, swept)
  {
    hide After, CheckRequest, Cleanup, Refilled, Has, Unseen, BlockSecs;
    var s := After(cfg, past);
    PastSound(cfg, past, swept);
    FreedHas(cfg, s, ip, swept);
    DroppedHas(cfg, s, ip, swept);
    RefilledBounds(cfg, s.buckets[ip], swept);
    var x, c := Refilled(cfg, s.buckets[ip], swept), Cleanup(cfg, s, swept);
    NotFull(cfg, Freed(s, ip), Freed(c, ip), ip, swept, x, s.buckets[ip].violations);
    if Unseen(cfg, past, swept) { SameAsked(cfg, past, swept, ip, x.Floor); }
  }

  lemma NotFull(cfg: Config, a: State, b: State, ip: IpAddr, at: Instant, x: real, v: nat)
    requires ValidConfig(cfg) && cfg.enabled && 0.0 <= x < cfg.burst as real
    requires Has(cfg, a, ip, at, x, v) && Has(cfg, b, ip, at, cfg.burst as real, 0)
    ensures Asked(cfg, a, ip, at, x.Floor) != Asked(cfg, b, ip, at, x.Floor)
  {
    hide CheckRequest, Has, BlockSecs;
    var k: nat := x.Floor;
    assert k + 1 <= cfg.burst;
    Spent(cfg, a, ip, at, x, v, k);
    Spent(cfg, b, ip, at, cfg.burst as real, 0, k);
    HasNext(cfg, Asking(cfg, a, ip, at, k), ip, at, x - k as real, Max(v - k, 0));
    HasNext(cfg, Asking(cfg, b, ip, at, k), ip, at, cfg.burst as real - k as real, 0);
  }

  // More violations than a burst works off: without the sweep the refusals
  // after a burst lead to a block that they do not lead to with it.
  lemma LeftoverViolationsSeen(cfg: Config, past: Run, swept: Instant, ip: IpAddr)
    requires ValidConfig(cfg) && cfg.enabled && SweptAfter(past, swept)
    requires var s := After(cfg, past);
      ip in s.buckets && IsIdle(s.buckets[ip], swept) && s.buckets[ip].violations > cfg.burst
    requires !Harmless(cfg, ip)
    ensures !Unseen(cfg, past, swept)
  {
    hide After, CheckRequest, Cleanup, Refilled, Has, Unseen, BlockSecs;
    var s := After(cfg, past);
    if Refilled(cfg, s.buckets[ip], swept) != cfg.burst as real {
      RefillSeen(cfg, past, swept, ip);
    } else {
      var v := s.buckets[ip].violations;
      PastSound(cfg, past, swept);
      FreedHas(cfg, s, ip, swept);
      DroppedHas(cfg, s, ip, swept);
      var k := BlocksSooner(cfg, Freed(s, ip), Freed(Cleanup(cfg, s, swept), ip), ip, swept, v);
      if Unseen(cfg, past, swept) { SameAsked(cfg, past, swept, ip, k); }
    }
  }

  lemma BlocksSooner(cfg: Config, a: State, b: State, ip: IpAddr, at: Instant, v: nat) returns (k: nat)
    requires ValidConfig(cfg) && cfg.enabled && !Harmless(cfg, ip) && v > cfg.burst
    requires Has(cfg, a, ip, at, cfg.burst as real, v) && Has(cfg, b, ip, at, cfg.burst as real, 0)
    ensures Asked(cfg, a, ip, at, k) != Asked(cfg, b, ip, at, k)
  {
    hide CheckRequest, Has, BlockSecs;
    var w := v - cfg.burst;
    var n := Max(cfg.threshold - w, 1) - 1;
    Spent(cfg, a, ip, at, cfg.burst as real, v, cfg.burst);
    Spent(cfg, b, ip, at, cfg.burst as real, 0, cfg.burst);
    RefusedOn(cfg, a, ip, at, cfg.burst, w, n);
    RefusedOn(cfg, b, ip, at, cfg.burst, 0, n);
    k := cfg.burst + n;
  }

  // After k requests nothing is left; n refusals later, one more is refused.
  lemma RefusedOn(cfg: Config, s: State, ip: IpAddr, at: Instant, k: nat, v: nat, n: nat)
    requires ValidConfig(cfg) && cfg.enabled && !Trusted(cfg.trusted, ip)
    requires Has(cfg, Asking(cfg, s, ip, at, k), ip, at, 0.0, v) && (v + n < cfg.threshold || n == 0)
    ensures Asked(cfg, s, ip, at, k + n).Blocked? <==> v + n + 1 >= cfg.threshold
  {
    hide CheckRequest, Has, BlockSecs;
    var s' := Asking(cfg, s, ip, at, k);
    Refused(cfg, s', ip, at, 0.0, v, n);
    AskingOn(cfg, s, ip, at, k, n);
    HasNext(cfg, Asking(cfg, s', ip, at, n), ip, at, 0.0, v + n);
  }

  // The first block of an address that keeps asking, from the k-th request on.
  lemma {:induction false} FirstBlock(cfg: Config, s: State, ip: IpAddr, at: Instant, k: nat, x: real, v: nat)
        returns (n: nat)
    requires ValidConfig(cfg) && cfg.enabled && !Trusted(cfg.trusted, ip)
    requires Has(cfg, Asking(cfg, s, ip, at, k), ip, at, x, v) && Asking(cfg, s, ip, at, k).strikes == s.strikes
    requires forall j: nat :: j < k ==> !Asked(cfg, s, ip, at, j).Blocked?
    ensures forall j: nat :: j < n ==> !Asked(cfg, s, ip, at, j).Blocked?
    ensures Asked(cfg, s, ip, at, n) == Blocked(RateLimitViolation, BlockSecs(cfg, NextStrike(s, ip)) * 1000)
    decreases x.Floor, Max(cfg.threshold - v, 0)
  {
    hide CheckRequest, BlockSecs, Refilled, Has;
    var s' := Asking(cfg, s, ip, at, k);
    HasBounds(cfg, s', ip, at, x, v);
    HasNext(cfg, s', ip, at, x, v);
    if x >= 1.0 {
      n := FirstBlock(cfg, s, ip, at, k + 1, x - 1.0, if v > 0 then v - 1 else 0);
    } else if v + 1 < cfg.threshold {
      n := FirstBlock(cfg, s, ip, at, k + 1, x, v + 1);
    } else {
      n := k;
    }
  }

  lemma HasBounds(cfg: Config, s: State, ip: IpAddr, at: Instant, x: real, v: nat)
    requires Has(cfg, s, ip, at, x, v)
    ensures 0.0 <= x
  {
  }

  // Until it is blocked, an address keeps its strikes.
  lemma {:induction false} UntilBlocked(cfg: Config, s: State, ip: IpAddr, at: Instant, n: nat)
    requires ValidConfig(cfg) && cfg.enabled && ip !in s.blocklist
    requires forall j: nat :: j < n ==> !Asked(cfg, s, ip, at, j).Blocked?
    ensures var s' := Asking(cfg, s, ip, at, n); ip !in s'.blocklist && s'.strikes == s.strikes
    ensures Asked(cfg, s, ip, at, n).Blocked? ==>
      Asked(cfg, s, ip, at, n) == Blocked(RateLimitViolation, BlockSecs(cfg, NextStrike(s, ip)) * 1000)
  {
    hide BlockSecs, ChargeBucket, CheckRequest;
    if n > 0 {
      UntilBlocked(cfg, s, ip, at, n - 1);
      assert !Asked(cfg, s, ip, at, n - 1).Blocked?;
      NotBlocked(cfg, Asking(cfg, s, ip, at, n - 1), ip, at);
    }
    NotBlocked(cfg, Asking(cfg, s, ip, at, n), ip, at);
  }

  lemma NotBlocked(cfg: Config, s: State, ip: IpAddr, at: Instant)
    requires ValidConfig(cfg) && cfg.enabled && ip !in s.blocklist
    ensures var (s', d) := CheckRequest(cfg, s, ip, at);
      if d.Blocked? then d == Blocked(RateLimitViolation, BlockSecs(cfg, NextStrike(s, ip)) * 1000)
      else ip !in s'.blocklist && s'.strikes == s.strikes
  {
    hide BlockSecs, ChargeBucket;
  }

  // A strike that decayed, where strikes lengthen blocks: without the sweep the
  // next block is longer.
  lemma ForgottenStrikesSeen(cfg: Config, past: Run, swept: Instant, ip: IpAddr)
    requires ValidConfig(cfg) && cfg.enabled && SweptAfter(past, swept) && !Flat(cfg)
    requires var s := After(cfg, past);
      ip in s.strikes && Since(swept, s.strikes[ip].last) > cfg.strikeDecaySecs as real
    ensures !Unseen(cfg, past, swept)
  {
    hide After, CheckRequest, Refilled, Has, Unseen, BlockSecs, Trusted, Flat;
    var s := After(cfg, past);
    var b := BucketOf(cfg, s, ip, swept);
    PastSound(cfg, past, swept);
    RunStrikes(cfg, past);
    FreedHas(cfg, s, ip, swept);
    if Unseen(cfg, past, swept) {
      var n := FirstBlock(cfg, Freed(s, ip), ip, swept, 0, Refilled(cfg, b, swept), b.violations);
      var c := Freed(Cleanup(cfg, s, swept), ip);
      forall j: nat | j <= n
        ensures Asked(cfg, c, ip, swept, j) == Asked(cfg, Freed(s, ip), ip, swept, j)
      {
        SameAsked(cfg, past, swept, ip, j);
      }
      UntilBlocked(cfg, c, ip, swept, n);
      LongerBlock(cfg, NextStrike(Freed(s, ip), ip));
    }
  }

  lemma LongerBlock(cfg: Config, n: nat)
    requires !Flat(cfg) && n >= 2
    ensures BlockSecs(cfg, n) > BlockSecs(cfg, 1)
  {
    hide BlockSecs;
    FlatExact(cfg);
    Firewalls.MoreStrikesNoShorter(cfg, 1, 2);
    Firewalls.MoreStrikesNoShorter(cfg, 2, n);
  }

  // An unseen sweep drops only what is as good as new, whatever the limits.
  lemma UnseenForgets(cfg: Config, past: Run, swept: Instant)
    requires ValidConfig(cfg) && cfg.enabled && SweptAfter(past, swept) && Unseen(cfg, past, swept)
    ensures Forgettable(cfg, After(cfg, past), swept)
  {
    hide After, Refilled, Unseen, BlockSecs, Trusted, Flat;
    var s := After(cfg, past);
    forall ip | ip in s.buckets && IsIdle(s.buckets[ip], swept)
      ensures Refilled(cfg, s.buckets[ip], swept) == cfg.burst as real
      ensures s.buckets[ip].violations <= cfg.burst || Harmless(cfg, ip)
    {
      if Refilled(cfg, s.buckets[ip], swept) != cfg.burst as real { RefillSeen(cfg, past, swept, ip); }
      if s.buckets[ip].violations > cfg.burst && !Harmless(cfg, ip) { LeftoverViolationsSeen(cfg, past, swept, ip); }
    }
    if !Flat(cfg) {
      forall ip | ip in s.strikes
        ensures Since(swept, s.strikes[ip].last) <= cfg.strikeDecaySecs as real
      {
        if Since(swept, s.strikes[ip].last) > cfg.strikeDecaySecs as real {
          ForgottenStrikesSeen(cfg, past, swept, ip);
        }
      }
      assert RecentStrikes(cfg, s, swept) == s.strikes;
    }
  }

  lemma ForgetsUnseen(cfg: Config, past: Run, swept: Instant)
    requires ValidConfig(cfg) && SweptAfter(past, swept)
    requires !cfg.enabled || (Steady(cfg) && Forgettable(cfg, After(cfg, past), swept))
    ensures Unseen(cfg, past, swept)
  {
    hide After, Forgettable, Steady;
    forall run: Run, e: Event | e.Request? && Monotone(past + [Sweep(swept)] + run + [e])
      ensures Answer(cfg, past + [Sweep(swept)] + run, e) == Answer(cfg, past + run, e)
    {
      AnswerKept(cfg, past, swept, run, e);
    }
  }

  lemma AnswerKept(cfg: Config, past: Run, swept: Instant, run: Run, e: Event)
    requires ValidConfig(cfg) && SweptAfter(past, swept)
    requires !cfg.enabled || (Steady(cfg) && Forgettable(cfg, After(cfg, past), swept))
    requires e.Request? && Monotone(past + [Sweep(swept)] + run + [e])
    ensures Answer(cfg, past + [Sweep(swept)] + run, e) == Answer(cfg, past + run, e)
  {
    hide After, From, CheckRequest, Cleanup, Forgettable, Steady, Monotone;
    AfterJoin(cfg, past, run);
    SweptIs(cfg, past, swept, run);
    if cfg.enabled {
      PastSound(cfg, past, swept);
      RestLater(past, swept, run, e);
      AnswersKept(cfg, After(cfg, past), swept, run, e);
    } else {
      OffAllows(cfg, After(cfg, past + run), e);
      OffAllows(cfg, After(cfg, past + [Sweep(swept)] + run), e);
    }
  }

  lemma OffAllows(cfg: Config, s: State, e: Event)
    requires ValidConfig(cfg) && !cfg.enabled && e.Request?
    ensures CheckRequest(cfg, s, e.ip, e.at).1 == Allow
  {
  }

  lemma RestLater(past: Run, swept: Instant, run: Run, e: Event)
    requires Monotone(past + [Sweep(swept)] + run + [e])
    ensures Later(swept, run + [e])
  {
    var all, rest := past + [Sweep(swept)] + run + [e], run + [e];
    assert all[|past|].at == swept;
    assert forall i :: 0 <= i < |rest| ==> rest[i] == all[|past| + 1 + i];
  }

  // After any history, a sweep is never seen exactly when what it drops is as
  // good as new, where the rate does not depend on what was measured.
  lemma UnseenExact(cfg: Config, past: Run, swept: Instant)
    requires ValidConfig(cfg) && Steady(cfg) && SweptAfter(past, swept)
    ensures Unseen(cfg, past, swept) <==> !cfg.enabled || Forgettable(cfg, After(cfg, past), swept)
  {
    hide Unseen, Forgettable, After, Steady;
    if !cfg.enabled || Forgettable(cfg, After(cfg, past), swept) {
      ForgetsUnseen(cfg, past, swept);
    } else if Unseen(cfg, past, swept) {
      UnseenForgets(cfg, past, swept);
    }
  }

  // ---- Which configurations keep every answer ------------------------------

  // After requests of `ip` alone, all of them in the first second and all
  // allowed: n so far, the last one at `last`, which left this many tokens.
  ghost predicate Young(cfg: Config, s: State, ip: IpAddr, last: Instant, tokens: real, n: nat) {
    && s.buckets.Keys == {ip} && s.strikes == map[] && s.blocklist == map[]
    && var b := s.buckets[ip];
    && b.capacity == cfg.burst as real && b.tokens == tokens && b.lastRefill == last
    && b.violations == 0 && b.ewma == None && b.windowCount == n && b.windowStart == Some(0.0)
  }

  lemma StaticUntilMeasured(cfg: Config)
    ensures EffectiveRps(cfg.rps, None, cfg.adaptive) == cfg.rps as real
  {
  }

  lemma FirstYoung(cfg: Config, ip: IpAddr)
    requires ValidConfig(cfg) && cfg.enabled && cfg.burst >= 1
    ensures Young(cfg, CheckRequest(cfg, Fresh, ip, 0.0).0, ip, 0.0, cfg.burst as real - 1.0, 1)
  {
    hide EffectiveRps;
    var noted := NoteRequest(NewBucket(cfg, 0.0), 0.0, cfg.alphaPct);
    assert Since(0.0, noted.lastRefill) * EffectiveRps(cfg.rps, noted.ewma, cfg.adaptive) == 0.0;
  }

  lemma NextYoung(cfg: Config, s: State, ip: IpAddr, last: Instant, tokens: real, n: nat, now: Instant, x: real)
    requires ValidConfig(cfg) && cfg.enabled && Young(cfg, s, ip, last, tokens, n) && last <= now < 1.0
    requires x == Refilled(cfg, s.buckets[ip], now) >= 1.0
    ensures Young(cfg, CheckRequest(cfg, s, ip, now).0, ip, now, x - 1.0, n + 1)
  {
    hide ChargeBucket, Refilled, BlockSecs;
    ChargeIs(cfg, s.buckets[ip], now);
    WithinWindow(cfg, s.buckets[ip], now);
  }

  lemma WithinWindow(cfg: Config, b: Bucket, now: Instant)
    requires b.windowStart == Some(0.0) && now < 1.0
    ensures var after := ChargeBucket(cfg, b, now).0;
      after.ewma == b.ewma && after.windowStart == Some(0.0) && after.windowCount == b.windowCount + 1
  {
    hide EffectiveRps;
  }

  lemma {:induction false} Drained(cfg: Config, ip: IpAddr, k: nat)
    requires ValidConfig(cfg) && cfg.enabled && 1 <= k <= cfg.burst
    ensures Young(cfg, After(cfg, Repeat(Request(ip, 0.0), k)), ip, 0.0, (cfg.burst - k) as real, k)
  {
    hide Young, CheckRequest;
    var before := Repeat(Request(ip, 0.0), k - 1);
    AfterAppend(cfg, before, Request(ip, 0.0), ip, 0.0, 0.0);
    if k == 1 {
      FirstYoung(cfg, ip);
    } else {
      Drained(cfg, ip, k - 1);
      YoungAgain(cfg, After(cfg, before), ip, 0.0, (cfg.burst - (k - 1)) as real, k - 1);
    }
  }

  lemma YoungAgain(cfg: Config, s: State, ip: IpAddr, last: Instant, tokens: real, n: nat)
    requires ValidConfig(cfg) && cfg.enabled && Young(cfg, s, ip, last, tokens, n)
    requires 1.0 <= tokens <= cfg.burst as real && last < 1.0
    ensures Young(cfg, CheckRequest(cfg, s, ip, last).0, ip, last, tokens - 1.0, n + 1)
  {
    hide CheckRequest, Refilled;
    Again(cfg, s.buckets[ip], last);
    NextYoung(cfg, s, ip, last, tokens, n, last, tokens);
  }

  lemma DrainedInOrder(ip: IpAddr, k: nat, swept: Instant)
    requires swept >= 0.0
    ensures SweptAfter(Repeat(Request(ip, 0.0), k), swept)
  {
  }

  lemma YoungOwesNothing(cfg: Config, s: State, ip: IpAddr, last: Instant, tokens: real, n: nat, swept: Instant)
    requires ValidConfig(cfg) && Young(cfg, s, ip, last, tokens, n)
    ensures NothingOwed(cfg, s, swept)
  {
    assert RecentStrikes(cfg, s, swept) == s.strikes;
  }

  lemma SoonAfterIdle(cfg: Config) returns (t: Instant)
    requires cfg.burst as real > IDLE_SECS * cfg.rps as real
    ensures t > IDLE_SECS && 0.0 <= Accrued(cfg.rps as real, t) < cfg.burst as real
  {
    var slack := cfg.burst as real - IDLE_SECS * cfg.rps as real;
    var d := cfg.rps as real + 1.0;
    var eps := slack / d / 2.0;
    assert eps * d * 2.0 == slack;
    assert eps > 0.0;
    t := IDLE_SECS + eps;
    assert t * cfg.rps as real == IDLE_SECS * cfg.rps as real + (eps * d - eps);
  }

  // A burst that the idle limit cannot refill: the sweep of a spent bucket is
  // seen.
  lemma SlowRefillSeen(cfg: Config, ip: IpAddr) returns (past: Run, swept: Instant)
    requires ValidConfig(cfg) && cfg.enabled && Steady(cfg) && cfg.burst as real > IDLE_SECS * cfg.rps as real
    ensures SweptAfter(past, swept) && NothingOwed(cfg, After(cfg, past), swept) && !Unseen(cfg, past, swept)
  {
    hide After, Repeat, Refilled, Accrued, NothingOwed, Unseen, SweptAfter, Steady;
    assert cfg.burst >= 1;
    past := Repeat(Request(ip, 0.0), cfg.burst);
    swept := SoonAfterIdle(cfg);
    Drained(cfg, ip, cfg.burst);
    DrainedInOrder(ip, cfg.burst, swept);
    YoungOwesNothing(cfg, After(cfg, past), ip, 0.0, 0.0, cfg.burst, swept);
    RefilledIs(cfg, After(cfg, past).buckets[ip], swept);
    RefillSeen(cfg, past, swept, ip);
  }

  function Tick(i: nat, d: real): Instant { i as real * d }

  // k requests, d apart.
  function Paced(ip: IpAddr, d: real, k: nat): (r: Run)
    ensures |r| == k && forall i :: 0 <= i < k ==> r[i] == Request(ip, Tick(i, d))
  {
    if k == 0 then [] else Paced(ip, d, k - 1) + [Request(ip, Tick(k - 1, d))]
  }

  lemma Spread(i: nat, j: nat, d: real)
    requires i <= j && 0.0 <= d
    ensures 0.0 <= Tick(i, d) <= Tick(j, d)
    ensures j == i + 1 ==> Tick(j, d) - Tick(i, d) == d
  {
    assert j as real * d == i as real * d + (j - i) as real * d;
  }

  lemma TokenEach(cfg: Config, s: State, ip: IpAddr, last: Instant, n: nat, d: real)
    requires ValidConfig(cfg) && cfg.enabled && cfg.burst >= 1 && 0.0 < d && Accrued(cfg.rps as real, d) == 1.0
    requires Young(cfg, s, ip, last, cfg.burst as real - 1.0, n) && last + d < 1.0
    ensures Young(cfg, CheckRequest(cfg, s, ip, last + d).0, ip, last + d, cfg.burst as real - 1.0, n + 1)
  {
    hide CheckRequest, Refilled;
    StaticRefill(cfg, s.buckets[ip], d);
    NextYoung(cfg, s, ip, last, cfg.burst as real - 1.0, n, last + d, cfg.burst as real);
  }

  lemma StaticRefill(cfg: Config, b: Bucket, d: real)
    requires 0.0 < d && b.ewma == None && b.windowStart == Some(0.0) && b.lastRefill + d < 1.0
    ensures Refilled(cfg, b, b.lastRefill + d) == MinReal(b.tokens + Accrued(cfg.rps as real, d), b.capacity)
  {
    hide EffectiveRps;
    var noted := NoteRequest(b, b.lastRefill + d, cfg.alphaPct);
    NoteKeeps(b, b.lastRefill + d, cfg.alphaPct);
    StaticUntilMeasured(cfg);
    var e := Since(b.lastRefill + d, b.lastRefill);
    assert e == d && noted.ewma == None;
    assert e * EffectiveRps(cfg.rps, noted.ewma, cfg.adaptive) == Accrued(cfg.rps as real, d);
  }

  lemma {:induction false} PacedYoung(cfg: Config, ip: IpAddr, d: real, k: nat)
    requires ValidConfig(cfg) && cfg.enabled && cfg.burst >= 1 && 1 <= k <= cfg.rps
    requires 0.0 < d && Accrued(cfg.rps as real, d) == 1.0
    ensures Young(cfg, After(cfg, Paced(ip, d, k)), ip, Tick(k - 1, d), cfg.burst as real - 1.0, k)
  {
    hide Young, CheckRequest, Tick, Accrued;
    var before := Paced(ip, d, k - 1);
    AfterAppend(cfg, before, Request(ip, Tick(k - 1, d)), ip, 0.0, 0.0);
    InFirstSecond(k - 1, cfg.rps, d);
    if k == 1 {
      TickStart(d);
      FirstYoung(cfg, ip);
    } else {
      PacedYoung(cfg, ip, d, k - 1);
      Spread(k - 2, k - 1, d);
      TokenEach(cfg, After(cfg, before), ip, Tick(k - 2, d), k - 1, d);
    }
  }

  lemma TickStart(d: real)
    ensures Tick(0, d) == 0.0
  {
  }

  lemma InFirstSecond(i: nat, n: nat, d: real)
    requires i < n && 0.0 < d && Accrued(n as real, d) == 1.0
    ensures 0.0 <= Tick(i, d) < 1.0
  {
    Spread(i, n - 1, d);
    Spread(n - 1, n, d);
    assert Tick(n, d) == 1.0;
  }

  lemma PacedInOrder(ip: IpAddr, d: real, k: nat, swept: Instant)
    requires 0.0 <= d && 1 <= k && Tick(k - 1, d) <= swept
    ensures SweptAfter(Paced(ip, d, k), swept)
  {
    hide Tick;
    var all := Paced(ip, d, k) + [Sweep(swept)];
    forall i, j | 0 <= i < j < |all|
      ensures all[i].at <= all[j].at
    {
      if j < k { Spread(i, j, d); } else { Spread(i, k - 1, d); }
    }
  }

  // The average that a charge of this bucket at `at` goes by.
  ghost predicate Averaged(cfg: Config, b: Bucket, at: Instant, ewma: Option<real>) {
    var noted := NoteRequest(b, at, cfg.alphaPct);
    noted.ewma == ewma && noted.windowStart == Some(at)
  }

  // `ip` was charged at `at`, with x tokens left and this average.
  ghost predicate Left(cfg: Config, s: State, ip: IpAddr, at: Instant, x: real, ewma: Option<real>) {
    && ip in s.buckets && ip !in s.blocklist
    && var b := s.buckets[ip];
    && b.tokens == x && b.lastRefill == at && b.windowStart == Some(at) && b.ewma == ewma
      && b.capacity == cfg.burst as real
  }

  lemma ChargeAverages(cfg: Config, b: Bucket, at: Instant, ewma: Option<real>)
    requires Averaged(cfg, b, at, ewma)
    ensures var after := ChargeBucket(cfg, b, at).0; after.ewma == ewma && after.windowStart == Some(at)
  {
    hide EffectiveRps;
  }

  lemma LeftNext(cfg: Config, s: State, ip: IpAddr, at: Instant, x: real, v: nat, ewma: Option<real>)
    requires ValidConfig(cfg) && cfg.enabled && Has(cfg, s, ip, at, x, v) && x >= 1.0
    requires Averaged(cfg, BucketOf(cfg, s, ip, at), at, ewma)
    ensures Left(cfg, CheckRequest(cfg, s, ip, at).0, ip, at, x - 1.0, ewma)
  {
    hide ChargeBucket, Refilled, BlockSecs, Trusted, Averaged;
    ChargeIs(cfg, BucketOf(cfg, s, ip, at), at);
    ChargeAverages(cfg, BucketOf(cfg, s, ip, at), at, ewma);
  }

  lemma LeftAverages(cfg: Config, s: State, ip: IpAddr, at: Instant, x: real, ewma: Option<real>)
    requires Left(cfg, s, ip, at, x, ewma)
    ensures Averaged(cfg, BucketOf(cfg, s, ip, at), at, ewma)
  {
  }

  lemma {:induction false} LeftAfter(cfg: Config, s: State, ip: IpAddr, at: Instant, x: real, v: nat,
        ewma: Option<real>, k: nat)
    requires ValidConfig(cfg) && cfg.enabled && Has(cfg, s, ip, at, x, v) && 1 <= k && k as real <= x
    requires Averaged(cfg, BucketOf(cfg, s, ip, at), at, ewma)
    ensures Left(cfg, Asking(cfg, s, ip, at, k), ip, at, x - k as real, ewma)
  {
    hide CheckRequest, Has, Left, Averaged, BucketOf;
    var s' := Asking(cfg, s, ip, at, k - 1);
    Spent(cfg, s, ip, at, x, v, k - 1);
    if k > 1 {
      LeftAfter(cfg, s, ip, at, x, v, ewma, k - 1);
      LeftAverages(cfg, s', ip, at, x - (k - 1) as real, ewma);
    }
    LeftNext(cfg, s', ip, at, x - (k - 1) as real, Max(v - (k - 1), 0), ewma);
  }

  // A while after a burst, within the window, one request is allowed if the
  // rate has brought a token.
  lemma AfterBurst(cfg: Config, s: State, ip: IpAddr, at: Instant, v: nat, ewma: Option<real>, d: real, rate: real)
    requires ValidConfig(cfg) && cfg.enabled && cfg.burst >= 1 && 0.0 < d < 1.0
    requires Has(cfg, s, ip, at, cfg.burst as real, v) && Averaged(cfg, BucketOf(cfg, s, ip, at), at, ewma)
    requires EffectiveRps(cfg.rps, ewma, cfg.adaptive) == rate && 0.0 <= Accrued(rate, d) <= 1.0
    ensures CheckRequest(cfg, Asking(cfg, s, ip, at, cfg.burst), ip, at + d).1.Allow? <==> Accrued(rate, d) == 1.0
  {
    hide Refilled, Asking, CheckRequest, Has, Averaged, EffectiveRps, BucketOf;
    var s' := Asking(cfg, s, ip, at, cfg.burst);
    LeftAfter(cfg, s, ip, at, cfg.burst as real, v, ewma, cfg.burst);
    LaterRefilled(cfg, s'.buckets[ip], at, d, rate);
    OneMore(cfg, s', ip, at + d);
  }

  lemma OneMore(cfg: Config, s: State, ip: IpAddr, at: Instant)
    requires ValidConfig(cfg) && cfg.enabled && ip in s.buckets && ip !in s.blocklist
    ensures CheckRequest(cfg, s, ip, at).1.Allow? <==> Refilled(cfg, s.buckets[ip], at) >= 1.0
  {
    AllowedIff(cfg, s, ip, at);
  }

  lemma LaterRefilled(cfg: Config, b: Bucket, at: Instant, d: real, rate: real)
    requires 0.0 < d < 1.0 && b.tokens == 0.0 && b.lastRefill == at && b.windowStart == Some(at) && b.capacity >= 1.0
    requires EffectiveRps(cfg.rps, b.ewma, cfg.adaptive) == rate && Accrued(rate, d) <= 1.0
    ensures Refilled(cfg, b, at + d) == Accrued(rate, d)
  {
    var noted := NoteRequest(b, at + d, cfg.alphaPct);
    assert Since(at + d, noted.lastRefill) == d;
    assert noted.ewma == b.ewma;
  }

  lemma FastRate(cfg: Config)
    requires cfg.adaptive && cfg.rps >= 1
    ensures EffectiveRps(cfg.rps, Some(cfg.rps as real), true) > cfg.rps as real
  {
    assert Ceil(cfg.rps as real * 1.5) as real >= cfg.rps as real * 1.5;
  }

  // Time for one token at the faster of two rates, but not at the slower.
  lemma TokenTime(slow: real, fast: real) returns (d: real)
    requires 1.0 <= slow < fast
    ensures 0.0 < d < 1.0 && Accrued(fast, d) == 1.0 && 0.0 <= Accrued(slow, d) < 1.0
  {
    d := 1.0 / fast;
    assert fast * d == slow * d + (fast - slow) * d;
    assert fast * d == d + (fast - 1.0) * d;
  }

  lemma TokenGap(rate: real) returns (d: real)
    requires rate >= 1.0
    ensures 0.0 < d && Accrued(rate, d) == 1.0
  {
    d := 1.0 / rate;
  }

  // Under the adaptive limit a dropped average is missed: after a second of
  // requests at the static rate, a pause and a burst, the average of that
  // second allows a request that a new bucket refuses.
  lemma LostAverageSeen(cfg: Config, ip: IpAddr) returns (past: Run, swept: Instant)
    requires ValidConfig(cfg) && cfg.enabled && cfg.adaptive && cfg.burst >= 1 && cfg.rps >= 1
    ensures SweptAfter(past, swept) && NothingOwed(cfg, After(cfg, past), swept) && !Unseen(cfg, past, swept)
  {
    hide After, Paced, Refilled, Accrued, NothingOwed, Unseen, SweptAfter, Has, EffectiveRps, CheckRequest, Asking,
      BucketOf, Averaged, Young, Tick;
    var gap := TokenGap(cfg.rps as real);
    past, swept := Paced(ip, gap, cfg.rps), 302.0;
    var last, s := Tick(cfg.rps - 1, gap), After(cfg, past);
    InFirstSecond(cfg.rps - 1, cfg.rps, gap);
    PacedYoung(cfg, ip, gap, cfg.rps);
    PacedInOrder(ip, gap, cfg.rps, swept);
    YoungOwesNothing(cfg, s, ip, last, cfg.burst as real - 1.0, cfg.rps, swept);
    FastRate(cfg);
    var slow, fast := cfg.rps as real, EffectiveRps(cfg.rps, Some(cfg.rps as real), cfg.adaptive);
    var d := TokenTime(slow, fast);
    YoungFull(cfg, s, ip, last, swept);
    AfterBurst(cfg, Freed(s, ip), ip, swept, 0, Some(cfg.rps as real), d, fast);
    YoungDropped(cfg, s, ip, last, swept);
    StaticUntilMeasured(cfg);
    AfterBurst(cfg, Freed(Cleanup(cfg, s, swept), ip), ip, swept, 0, None, d, slow);
    if Unseen(cfg, past, swept) { SameLater(cfg, past, swept, ip, cfg.burst, swept + d); }
  }

  lemma YoungFull(cfg: Config, s: State, ip: IpAddr, last: Instant, swept: Instant)
    requires cfg.rps >= 1 && cfg.burst >= 1 && Young(cfg, s, ip, last, cfg.burst as real - 1.0, cfg.rps)
    requires 0.0 <= last < 1.0 && swept == 302.0
    ensures Has(cfg, Freed(s, ip), ip, swept, cfg.burst as real, 0)
    ensures Averaged(cfg, BucketOf(cfg, Freed(s, ip), ip, swept), swept, Some(cfg.rps as real))
  {
    hide EffectiveRps;
    var b := s.buckets[ip];
    var noted := NoteRequest(b, swept, cfg.alphaPct);
    TopRateBounds(cfg, noted.ewma);
    Faster(Since(swept, last), EffectiveRps(cfg.rps, noted.ewma, cfg.adaptive), cfg.rps as real);
  }

  lemma YoungDropped(cfg: Config, s: State, ip: IpAddr, last: Instant, swept: Instant)
    requires Young(cfg, s, ip, last, cfg.burst as real - 1.0, cfg.rps) && last < 1.0 && swept == 302.0
    ensures var c := Freed(Cleanup(cfg, s, swept), ip);
      Has(cfg, c, ip, swept, cfg.burst as real, 0) && Averaged(cfg, BucketOf(cfg, c, ip, swept), swept, None)
  {
    hide Has;
    DroppedHas(cfg, s, ip, swept);
  }

  // The configurations whose idle buckets have always refilled, at a rate that
  // does not depend on what was measured.
  predicate KeepsAnswers(cfg: Config) {
    !cfg.enabled || cfg.burst == 0 || (!cfg.adaptive && cfg.burst as real <= IDLE_SECS * cfg.rps as real)
  }

  lemma IdleIsFull(cfg: Config, s: State, swept: Instant)
    requires cfg.enabled && KeepsAnswers(cfg) && Sound(cfg, s, swept)
    ensures AllRefilled(cfg, s, swept)
  {
    hide Refilled;
    forall ip | ip in s.buckets && IsIdle(s.buckets[ip], swept)
      ensures Refilled(cfg, s.buckets[ip], swept) == cfg.burst as real
    {
      IdleRefills(cfg, s.buckets[ip], swept);
    }
  }

  // No sweep that drops nothing owed is ever seen, exactly for these
  // configurations.
  lemma SweepsUnseenExact(cfg: Config)
    requires ValidConfig(cfg)
    ensures (forall past: Run, swept: Instant ::
        SweptAfter(past, swept) && NothingOwed(cfg, After(cfg, past), swept) ==> Unseen(cfg, past, swept))
       <==> KeepsAnswers(cfg)
  {
    hide NothingOwed, Unseen, After, SweptAfter, AllRefilled;
    if KeepsAnswers(cfg) {
      forall past: Run, swept: Instant | SweptAfter(past, swept) && NothingOwed(cfg, After(cfg, past), swept)
        ensures Unseen(cfg, past, swept)
      {
        PastSound(cfg, past, swept);
        if cfg.enabled { IdleIsFull(cfg, After(cfg, past), swept); }
        ForgetsUnseen(cfg, past, swept);
      }
    } else if cfg.adaptive && cfg.rps >= 1 {
      var past, swept := LostAverageSeen(cfg, V4(0));
    } else {
      var past, swept := SlowRefillSeen(cfg, V4(0));
    }
  }

  // ---- The next answer -----------------------------------------------------

  // Whether the sweep is made or not, the next request of any address is
  // allowed or not alike.
  ghost predicate NextUnseen(cfg: Config, past: Run, swept: Instant, ip: IpAddr, now: Instant)
    requires ValidConfig(cfg)
  {
    Answer(cfg, past + [Sweep(swept)], Request(ip, now)).Allow? <==> Answer(cfg, past, Request(ip, now)).Allow?
  }

  lemma NextKept(cfg: Config, past: Run, swept: Instant, ip: IpAddr, now: Instant)
    requires ValidConfig(cfg) && KeepsNextAnswer(cfg) && SweptAfter(past, swept) && swept <= now
    ensures NextUnseen(cfg, past, swept, ip, now)
  {
    hide After, CheckRequest, Cleanup;
    PastSound(cfg, past, swept);
    AfterAppend(cfg, past, Sweep(swept), ip, 0.0, 0.0);
    NextAnswerKept(cfg, After(cfg, past), ip, swept, now);
  }

  // Nothing ever refills: a spent bucket allows nothing until it is swept.
  lemma NextChanges(cfg: Config, ip: IpAddr)
    requires ValidConfig(cfg) && !KeepsNextAnswer(cfg)
    ensures var past := Repeat(Request(ip, 0.0), cfg.burst);
      SweptAfter(past, 301.0) && !NextUnseen(cfg, past, 301.0, ip, 301.0)
  {
    hide After, CheckRequest, Cleanup, Refilled, Repeat;
    var past := Repeat(Request(ip, 0.0), cfg.burst);
    var s := After(cfg, past);
    Drained(cfg, ip, cfg.burst);
    DrainedInOrder(ip, cfg.burst, 301.0);
    AfterAppend(cfg, past, Sweep(301.0), ip, 0.0, 0.0);
    RefilledIs(cfg, s.buckets[ip], 301.0);
    AllowedIff(cfg, s, ip, 301.0);
    Swept(cfg, s, ip, 301.0);
  }

  lemma Swept(cfg: Config, s: State, ip: IpAddr, at: Instant)
    requires ValidConfig(cfg) && cfg.enabled && cfg.burst >= 1
    requires s.blocklist == map[] && (ip in s.buckets ==> IsIdle(s.buckets[ip], at))
    ensures CheckRequest(cfg, Cleanup(cfg, s, at), ip, at).1.Allow?
  {
    hide Refilled, CheckRequest;
    NewRefilled(cfg, at);
    AllowedIff(cfg, Cleanup(cfg, s, at), ip, at);
  }

  // A cleanup never changes whether the next request of an address is allowed,
  // exactly for these configurations.
  lemma NextAnswerExact(cfg: Config)
    requires ValidConfig(cfg)
    ensures (forall past: Run, swept: Instant, ip: IpAddr, now: Instant ::
        SweptAfter(past, swept) && swept <= now ==> NextUnseen(cfg, past, swept, ip, now))
       <==> KeepsNextAnswer(cfg)
  {
    hide NextUnseen, SweptAfter;
    if KeepsNextAnswer(cfg) {
      forall past: Run, swept: Instant, ip: IpAddr, now: Instant | SweptAfter(past, swept) && swept <= now
        ensures NextUnseen(cfg, past, swept, ip, now)
      {
        NextKept(cfg, past, swept, ip, now);
      }
    } else {
      NextChanges(cfg, V4(0));
    }
  }
}
