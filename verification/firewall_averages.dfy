// What an address's moving average is, said of its requests
// (crates/firewall/src/lib.rs).
module FirewallAverages {
  import opened Prelude
  import opened Proxy
  import opened FirewallModel
  import opened FirewallRuns
  import opened FirewallSweeps
  import opened FirewallAnswers

  // ---- Windows -------------------------------------------------------------

  // When the requests came that the address's bucket has been charged for:
  // those that no block kept away, since a cleanup found 300 seconds without one.
  function ChargedAt(cfg: Config, run: Run, ip: IpAddr): seq<Instant>
    requires ValidConfig(cfg)
  {
    if run == [] then []
    else
      var before, e := run[..|run| - 1], run[|run| - 1];
      var times := ChargedAt(cfg, before, ip);
      match e
      case Request(who, now) =>
        if who == ip && cfg.enabled && !InForce(LastBlock(cfg, before, ip), now) then times + [now] else times
      case Sweep(now) => if times != [] && now - times[|times| - 1] > 300.0 then [] else times
      case BlockIp(_, _, _, _) => times
      case UnblockIp(_, _) => times
  }

  function Flat(ws: seq<seq<Instant>>): seq<Instant> {
    if ws == [] then [] else Flat(ws[..|ws| - 1]) + ws[|ws| - 1]
  }

  // The times cut into windows of one second, each beginning with the first
  // request that the one before does not reach.
  ghost predicate IsWindow(w: seq<Instant>) { w != [] && forall k :: 0 <= k < |w| ==> w[k] < w[0] + 1.0 }

  ghost predicate Follows(ws: seq<seq<Instant>>, k: nat)
    requires 0 < k < |ws|
  {
    ws[k - 1] != [] && ws[k] != [] && ws[k][0] >= ws[k - 1][0] + 1.0
  }

  ghost predicate InTurn(ws: seq<seq<Instant>>) {
    && (forall k :: 0 <= k < |ws| ==> IsWindow(ws[k]))
    && (forall k {:trigger Follows(ws, k)} :: 0 < k < |ws| ==> Follows(ws, k))
  }

  ghost predicate Windows(times: seq<Instant>, ws: seq<seq<Instant>>) {
    && Flat(ws) == times
    && InTurn(ws)
  }

  // How many requests each window has.
  function Sizes(ws: seq<seq<Instant>>): seq<nat> {
    if ws == [] then [] else Sizes(ws[..|ws| - 1]) + [|ws[|ws| - 1]|]
  }

  // ---- The weighted sum ----------------------------------------------------

  function Power(x: real, n: nat): real { if n == 0 then 1.0 else x * Power(x, n - 1) }

  // Of n windows the newest weighs a, the j-th before it a * (1 - a)^j, and the
  // first (1 - a)^(n - 1).
  function Weight(a: real, n: nat, i: nat): real
    requires i < n
  {
    if i == 0 then Power(1.0 - a, n - 1) else a * Power(1.0 - a, n - 1 - i)
  }

  function Share(a: real, n: nat, i: nat, count: nat): real
    requires i < n
  {
    Weight(a, n, i) * count as real
  }

  // The first k of n counts, weighted.
  function Weighted(a: real, counts: seq<nat>, n: nat, k: nat): real
    requires k <= |counts| && k <= n
  {
    if k == 0 then 0.0 else Weighted(a, counts, n, k - 1) + Share(a, n, k - 1, counts[k - 1])
  }

  function WeightedSum(a: real, counts: seq<nat>): real { Weighted(a, counts, |counts|, |counts|) }

  function Times(x: real, y: real): real { x * y }

  lemma TimesSum(x: real, y: real, z: real)
    ensures Times(x, y + z) == Times(x, y) + Times(x, z) && Times(x, 0.0) == 0.0
  {
  }

  lemma {:induction false} OneMoreWindow(a: real, counts: seq<nat>, c: nat, k: nat)
    requires k <= |counts|
    ensures Weighted(a, counts + [c], |counts| + 1, k) == Times(1.0 - a, Weighted(a, counts, |counts|, k))
  {
    hide Times, Share, Weight;
    if k > 0 {
      OneMoreWindow(a, counts, c, k - 1);
      Lighter(a, |counts|, k - 1, counts[k - 1]);
      TimesSum(1.0 - a, Weighted(a, counts, |counts|, k - 1), Share(a, |counts|, k - 1, counts[k - 1]));
    } else {
      TimesSum(1.0 - a, 0.0, 0.0);
    }
  }

  lemma Lighter(a: real, n: nat, i: nat, c: nat)
    requires i < n
    ensures Share(a, n + 1, i, c) == Times(1.0 - a, Share(a, n, i, c))
  {
    var p, x := Power(1.0 - a, n - 1 - i), 1.0 - a;
    assert Power(1.0 - a, n - i) == x * p;
    if i > 0 { Regrouped(x, a, p); }
    Regrouped2(x, Weight(a, n, i), c as real);
  }

  lemma Regrouped(x: real, y: real, z: real)
    ensures y * (x * z) == x * (y * z)
  {
  }

  lemma Regrouped2(x: real, y: real, z: real)
    ensures (x * y) * z == x * (y * z)
  {
  }

  // The newest count weighs a, all others lose a share of a.
  lemma SumNext(a: real, counts: seq<nat>, c: nat)
    requires counts != []
    ensures WeightedSum(a, counts + [c]) == a * c as real + (1.0 - a) * WeightedSum(a, counts)
  {
    hide Weight, Share;
    var more, n := counts + [c], |counts|;
    OneMoreWindow(a, counts, c, n);
    Newest(a, n + 1, c);
    assert more[n] == c && WeightedSum(a, more) == Weighted(a, more, n + 1, n) + Share(a, n + 1, n, c);
  }

  lemma Newest(a: real, n: nat, c: nat)
    requires n >= 2
    ensures Share(a, n, n - 1, c) == a * c as real
  {
    assert Power(1.0 - a, 0) == 1.0;
  }

  lemma SumOne(a: real, c: nat)
    ensures WeightedSum(a, [c]) == c as real
  {
    assert Power(1.0 - a, 0) == 1.0;
    assert Weighted(a, [c], 1, 0) == 0.0;
  }

  // ---- The bucket ----------------------------------------------------------

  // The weight of the newest window: the configured per cent, at most all.
  function Newness(cfg: Config): real { (if cfg.alphaPct > 100 then 100 else cfg.alphaPct) as real / 100.0 }

  // What the bucket says of its windows: the last is still open, the others
  // make the average.
  ghost predicate Tells(cfg: Config, b: Bucket, ws: seq<seq<Instant>>) {
    && ws != [] && ws[|ws| - 1] != []
    && b.windowStart == Some(ws[|ws| - 1][0]) && b.windowCount == |ws[|ws| - 1]|
    && b.ewma == (if |ws| == 1 then None else Some(WeightedSum(Newness(cfg), Sizes(ws[..|ws| - 1]))))
  }

  // The rate under that average: the static one, or so much above the average
  // that half as many requests again fit, rounded up, but neither below the
  // static rate nor above four times it.
  ghost predicate RateFor(cfg: Config, ws: seq<seq<Instant>>, rate: real)
    requires ws != []
  {
    if !cfg.adaptive then rate == cfg.rps as real
    else
      var counts := Sizes(ws[..|ws| - 1]);
      var average := if counts == [] then 0.0 else WeightedSum(Newness(cfg), counts);
      exists c: int :: RoundsUp(c, average) && rate == Clamped(c as real, cfg.rps as real)
  }

  // c is one and a half times x, rounded up.
  predicate RoundsUp(c: int, x: real) { 2.0 * (c as real - 1.0) < 3.0 * x <= 2.0 * c as real }

  function Clamped(c: real, rps: real): real { if c < rps then rps else if c > 4.0 * rps then 4.0 * rps else c }

  lemma SizesAppend(ws: seq<seq<Instant>>, w: seq<Instant>)
    ensures Sizes(ws + [w]) == Sizes(ws) + [|w|]
  {
    assert (ws + [w])[..|ws|] == ws;
  }

  lemma {:induction false} SizesLength(ws: seq<seq<Instant>>)
    ensures |Sizes(ws)| == |ws|
  {
    if ws != [] { SizesLength(ws[..|ws| - 1]); }
  }

  lemma FlatAppend(ws: seq<seq<Instant>>, w: seq<Instant>)
    ensures Flat(ws + [w]) == Flat(ws) + w
  {
    assert (ws + [w])[..|ws|] == ws;
  }

  lemma DropLast(x: seq<Instant>, w: seq<Instant>, times: seq<Instant>, t: Instant)
    requires x + w == times + [t] && w != []
    ensures w == w[..|w| - 1] + [t] && x + w[..|w| - 1] == times
  {
    assert (x + w)[|times|] == t;
    assert (x + w)[..|times|] == x + w[..|w| - 1];
    assert (times + [t])[..|times|] == times;
  }

  lemma InTurnSame(ws: seq<seq<Instant>>, was: seq<seq<Instant>>)
    requires InTurn(ws) && |was| <= |ws|
    requires forall k :: 0 <= k < |was| ==> IsWindow(was[k]) && was[k][0] == ws[k][0]
    ensures InTurn(was)
  {
    forall k | 0 < k < |was|
      ensures Follows(was, k)
    {
      assert Follows(ws, k);
    }
  }

  // A request more: it is a window of its own, or the last of the last one.
  lemma OneLess(times: seq<Instant>, t: Instant, ws: seq<seq<Instant>>) returns (was: seq<seq<Instant>>)
    requires Windows(times + [t], ws)
    ensures Windows(times, was)
    ensures ws != [] && (ws == was + [[t]] || (was != [] && ws == was[..|was| - 1] + [was[|was| - 1] + [t]]))
  {
    hide Follows, IsWindow, InTurn;
    var init, w := ws[..|ws| - 1], ws[|ws| - 1];
    LastWindow(ws);
    DropLast(Flat(init), w, times, t);
    var less := w[..|w| - 1];
    if less == [] {
      was := init;
      assert Flat(init) + less == Flat(init);
      assert w == [t] && ws == init + [w];
    } else {
      was := init + [less];
      FlatAppend(init, less);
      assert was[..|was| - 1] == init && ws == init + [w];
    }
    ShorterInTurn(ws, was);
  }

  lemma LastWindow(ws: seq<seq<Instant>>)
    requires InTurn(ws) && ws != []
    ensures IsWindow(ws[|ws| - 1]) && ws[|ws| - 1] != []
  {
  }

  lemma ShorterInTurn(ws: seq<seq<Instant>>, was: seq<seq<Instant>>)
    requires InTurn(ws) && ws != []
    requires var init, less := ws[..|ws| - 1], ws[|ws| - 1][..Max(|ws[|ws| - 1]| - 1, 0)];
      was == if less == [] then init else init + [less]
    ensures InTurn(was)
  {
    hide Follows;
    forall k | 0 <= k < |was|
      ensures IsWindow(was[k]) && was[k][0] == ws[k][0]
    {
      assert IsWindow(ws[k]);
    }
    InTurnSame(ws, was);
  }

  lemma AverageNext(cfg: Config, prev: real, sample: real)
    ensures EwmaUpdate(prev, sample, cfg.alphaPct) == Newness(cfg) * sample + (1.0 - Newness(cfg)) * prev
  {
  }

  lemma RateIs(cfg: Config, b: Bucket, ws: seq<seq<Instant>>)
    requires Tells(cfg, b, ws)
    ensures RateFor(cfg, ws, EffectiveRps(cfg.rps, b.ewma, cfg.adaptive))
  {
    SizesLength(ws[..|ws| - 1]);
    if cfg.adaptive {
      var baseline := if b.ewma.Some? then b.ewma.value else 0.0;
      var c := Ceil(baseline * 1.5);
      assert RoundsUp(c, baseline);
    }
  }

  // A window closes: the average takes it in.
  lemma ClosedAverage(cfg: Config, b: Bucket, was: seq<seq<Instant>>)
    requires Tells(cfg, b, was)
    ensures WeightedSum(Newness(cfg), Sizes(was))
      == if b.ewma.None? then b.windowCount as real else EwmaUpdate(b.ewma.value, b.windowCount as real, cfg.alphaPct)
  {
    hide WeightedSum, EwmaUpdate, Newness;
    var init, last := was[..|was| - 1], was[|was| - 1];
    assert was == init + [last];
    SizesAppend(init, last);
    SizesLength(init);
    if |was| == 1 {
      assert Sizes(was) == [|last|];
      SumOne(Newness(cfg), |last|);
    } else {
      SumNext(Newness(cfg), Sizes(init), |last|);
      AverageNext(cfg, b.ewma.value, |last| as real);
    }
  }

  // One request more: in the open window, or in a new one.
  ghost predicate Grown(was: seq<seq<Instant>>, ws: seq<seq<Instant>>, now: Instant)
    requires was != [] && was[|was| - 1] != []
  {
    if now < was[|was| - 1][0] + 1.0 then ws == was[..|was| - 1] + [was[|was| - 1] + [now]] else ws == was + [[now]]
  }

  // What charging the bucket for a request notes of it.
  lemma NoteTells(cfg: Config, b: Bucket, was: seq<seq<Instant>>, ws: seq<seq<Instant>>, now: Instant)
    requires Tells(cfg, b, was) && was[|was| - 1][0] <= now
    requires Grown(was, ws, now)
    ensures Tells(cfg, NoteRequest(b, now, cfg.alphaPct), ws)
  {
    hide WeightedSum, EwmaUpdate, Newness;
    if now < was[|was| - 1][0] + 1.0 {
      assert ws[..|ws| - 1] == was[..|was| - 1];
    } else {
      assert ws[..|ws| - 1] == was;
      ClosedAverage(cfg, b, was);
    }
  }

  // ---- Every run -----------------------------------------------------------

  // All charged times are in the past.
  ghost predicate Past(times: seq<Instant>, now: Instant) { forall k :: 0 <= k < |times| ==> times[k] <= now }

  lemma {:induction false} ChargedPast(cfg: Config, run: Run, ip: IpAddr, now: Instant)
    requires ValidConfig(cfg) && Monotone(run) && (run != [] ==> Last(run) <= now)
    ensures Past(ChargedAt(cfg, run, ip), now)
  {
    hide After;
    if run != [] {
      var before := run[..|run| - 1];
      if before != [] { assert before[|before| - 1].at <= run[|run| - 1].at; }
      ChargedPast(cfg, before, ip, now);
    }
  }

  // The last request of all.
  function LastOf(ws: seq<seq<Instant>>): Instant {
    if ws == [] || ws[|ws| - 1] == [] then 0.0 else ws[|ws| - 1][|ws[|ws| - 1]| - 1]
  }

  lemma LastIs(times: seq<Instant>, ws: seq<seq<Instant>>)
    requires Windows(times, ws)
    ensures times == [] <==> ws == []
    ensures times != [] ==> times[|times| - 1] == LastOf(ws)
  {
    if ws != [] {
      assert IsWindow(ws[|ws| - 1]);
      assert times == Flat(ws[..|ws| - 1]) + ws[|ws| - 1];
    }
  }

  // What the state says of an address.
  ghost predicate StateTells(cfg: Config, s: State, ip: IpAddr, ws: seq<seq<Instant>>) {
    if ip in s.buckets then
      && Tells(cfg, s.buckets[ip], ws) && RateFor(cfg, ws, s.buckets[ip].rate)
      && s.buckets[ip].lastRefill == LastOf(ws)
    else ws == []
  }

  // Charging: the first request, or one more.
  lemma ChargeTells(cfg: Config, s: State, ip: IpAddr, now: Instant, was: seq<seq<Instant>>, ws: seq<seq<Instant>>)
    requires StateTells(cfg, s, ip, was)
    requires was == [] ==> ws == [[now]]
    requires was != [] ==> was[|was| - 1] != [] && was[|was| - 1][0] <= now
    requires was != [] ==> Grown(was, ws, now)
    ensures var b := Charge(cfg, s, ip, now).0;
      Tells(cfg, b, ws) && RateFor(cfg, ws, b.rate) && b.lastRefill == LastOf(ws)
  {
    hide RateFor, NoteRequest, EffectiveRps;
    assert LastOf(ws) == now;
    var b := if ip in s.buckets then s.buckets[ip] else NewBucket(cfg, now);
    var noted := NoteRequest(b, now, cfg.alphaPct);
    if ip in s.buckets { NoteTells(cfg, b, was, ws, now); } else { FirstTells(cfg, now); }
    RateIs(cfg, noted, ws);
    TellsSame(cfg, noted, Charge(cfg, s, ip, now).0, ws);
  }

  lemma FirstTells(cfg: Config, now: Instant)
    ensures Tells(cfg, NoteRequest(NewBucket(cfg, now), now, cfg.alphaPct), [[now]])
  {
  }

  lemma TellsSame(cfg: Config, x: Bucket, y: Bucket, ws: seq<seq<Instant>>)
    requires Tells(cfg, x, ws) && y.ewma == x.ewma && y.windowStart == x.windowStart && y.windowCount == x.windowCount
    ensures Tells(cfg, y, ws)
  {
  }

  lemma CutNext(times: seq<Instant>, now: Instant, was: seq<seq<Instant>>, ws: seq<seq<Instant>>)
    requires Windows(times, was) && Past(times, now) && Windows(times + [now], ws)
    requires ws == was + [[now]] || (was != [] && ws == was[..|was| - 1] + [was[|was| - 1] + [now]])
    ensures was == [] ==> ws == [[now]]
    ensures was != [] ==> was[|was| - 1] != [] && was[|was| - 1][0] <= now
    ensures was != [] ==> Grown(was, ws, now)
  {
    if was != [] {
      var n := |was|;
      var last := was[n - 1];
      assert IsWindow(last);
      FlatLast(was);
      assert last[0] in times;
      if ws == was + [[now]] {
        assert Follows(ws, n);
        assert ws[n - 1] == last && ws[n] == [now];
      } else {
        var grown := last + [now];
        assert ws[n - 1] == grown;
        assert IsWindow(grown);
        assert grown[|last|] == now;
      }
    }
  }

  lemma FlatLast(ws: seq<seq<Instant>>)
    requires ws != []
    ensures forall t :: t in ws[|ws| - 1] ==> t in Flat(ws)
  {
  }

  lemma EmptyCut(ws: seq<seq<Instant>>)
    requires Windows([], ws)
    ensures ws == []
  {
    if ws != [] { FlatLast(ws); }
  }

  // One step, as the address sees it.
  lemma RequestTells(cfg: Config, s: State, who: IpAddr, ip: IpAddr, now: Instant, was: seq<seq<Instant>>,
        ws: seq<seq<Instant>>)
    requires ValidConfig(cfg) && StateTells(cfg, s, ip, was)
    requires if who == ip && cfg.enabled && !BlockedAt(s, ip, now) then
        var b := Charge(cfg, s, ip, now).0;
        Tells(cfg, b, ws) && RateFor(cfg, ws, b.rate) && b.lastRefill == LastOf(ws)
      else ws == was
    ensures StateTells(cfg, CheckRequest(cfg, s, who, now).0, ip, ws)
  {
    hide Tells, RateFor, ChargeBucket, Trusted, BlockSecs;
  }

  lemma OtherTells(cfg: Config, s: State, e: Event, ip: IpAddr, was: seq<seq<Instant>>)
    requires ValidConfig(cfg) && !e.Request? && StateTells(cfg, s, ip, was)
    ensures StateTells(cfg, Step(cfg, s, e), ip,
      if e.Sweep? && ip in s.buckets && IsIdle(s.buckets[ip], e.at) then [] else was)
  {
    hide Tells, RateFor;
  }

  // After every run, whatever the address's charged requests are cut into, its
  // bucket's average is the weighted sum of the closed windows' counts, and its
  // rate goes by that.
  lemma {:induction false} AverageExact(cfg: Config, run: Run, ip: IpAddr, ws: seq<seq<Instant>>)
    requires ValidConfig(cfg) && Monotone(run) && Windows(ChargedAt(cfg, run, ip), ws)
    ensures StateTells(cfg, After(cfg, run), ip, ws)
  {
    hide StateTells, Windows, CheckRequest, IsIdle, Step, LastBlock;
    if run == [] {
      EmptyCut(ws);
      NothingTells(cfg, ip);
    } else {
      var before, e := run[..|run| - 1], run[|run| - 1];
      var s, times := After(cfg, before), ChargedAt(cfg, before, ip);
      if before != [] { assert before[|before| - 1].at <= run[|run| - 1].at; }
      BlocksListed(cfg, before, ip, e.at);
      if e.Request? { RequestSteps(cfg, s, e); }
      if e.Request? && e.ip == ip && cfg.enabled && !BlockedAt(s, ip, e.at) {
        var was := OneLess(times, e.at, ws);
        AverageExact(cfg, before, ip, was);
        ChargedPast(cfg, before, ip, e.at);
        CutNext(times, e.at, was, ws);
        ChargeTells(cfg, s, ip, e.at, was, ws);
        RequestTells(cfg, s, ip, ip, e.at, was, ws);
      } else if e.Request? {
        AverageExact(cfg, before, ip, ws);
        RequestTells(cfg, s, e.ip, ip, e.at, ws, ws);
      } else {
        var was := Cut(times);
        CutIs(times);
        AverageExact(cfg, before, ip, was);
        LastIs(times, was);
        IdleIs(cfg, s, ip, was, e.at);
        OtherTells(cfg, s, e, ip, was);
        if ChargedAt(cfg, run, ip) == [] {
          EmptyCut(ws);
          if times == [] { EmptyCut(was); }
        } else {
          AverageExact(cfg, before, ip, ws);
          OtherTells(cfg, s, e, ip, ws);
        }
      }
    }
  }

  lemma IdleIs(cfg: Config, s: State, ip: IpAddr, ws: seq<seq<Instant>>, now: Instant)
    requires StateTells(cfg, s, ip, ws)
    ensures ip in s.buckets <==> ws != []
    ensures ip in s.buckets ==> (IsIdle(s.buckets[ip], now) <==> now - LastOf(ws) > 300.0)
  {
    hide RateFor;
  }

  lemma NothingTells(cfg: Config, ip: IpAddr)
    requires ValidConfig(cfg)
    ensures StateTells(cfg, After(cfg, []), ip, [])
  {
  }

  // ---- There is always such a cut ----------------------------

  function Cut(times: seq<Instant>): seq<seq<Instant>> {
    if times == [] then []
    else
      var was, t := Cut(times[..|times| - 1]), times[|times| - 1];
      if was == [] || was[|was| - 1] == [] || t >= was[|was| - 1][0] + 1.0 then was + [[t]]
      else was[..|was| - 1] + [was[|was| - 1] + [t]]
  }

  lemma {:induction false} CutIs(times: seq<Instant>)
    ensures Windows(times, Cut(times))
  {
    if times != [] {
      var before, t := times[..|times| - 1], times[|times| - 1];
      CutIs(before);
      assert times == before + [t];
      var was := Cut(before);
      if was == [] || t >= was[|was| - 1][0] + 1.0 { NewWindow(before, t, was); } else { LongerWindow(before, t, was); }
    }
  }

  lemma OneWindow(t: Instant)
    ensures IsWindow([t])
  {
  }

  lemma NewWindow(times: seq<Instant>, t: Instant, was: seq<seq<Instant>>)
    requires Windows(times, was) && (was != [] ==> was[|was| - 1] != [] && t >= was[|was| - 1][0] + 1.0)
    ensures Windows(times + [t], was + [[t]])
  {
    hide Flat, IsWindow;
    var ws := was + [[t]];
    FlatAppend(was, [t]);
    OneWindow(t);
    forall k | 0 < k < |ws|
      ensures Follows(ws, k)
    {
      if k < |was| { assert Follows(was, k); }
    }
  }

  lemma LongerWindow(times: seq<Instant>, t: Instant, was: seq<seq<Instant>>)
    requires Windows(times, was) && was != [] && was[|was| - 1] != [] && t < was[|was| - 1][0] + 1.0
    ensures Windows(times + [t], was[..|was| - 1] + [was[|was| - 1] + [t]])
  {
    var init, w := was[..|was| - 1], was[|was| - 1];
    var ws := init + [w + [t]];
    FlatAppend(init, w + [t]);
    assert IsWindow(w);
    assert IsWindow(w + [t]);
    forall k | 0 < k < |ws|
      ensures Follows(ws, k)
    {
      assert Follows(was, k);
    }
    assert Flat(was) == Flat(init) + w;
    assert Flat(init) + (w + [t]) == Flat(init) + w + [t];
  }

  // ---- The next answer -----------------------------------------------------

  lemma NextCharged(cfg: Config, run: Run, ip: IpAddr, now: Instant)
    requires ValidConfig(cfg) && cfg.enabled && !InForce(LastBlock(cfg, run, ip), now)
    ensures ChargedAt(cfg, run + [Request(ip, now)], ip) == ChargedAt(cfg, run, ip) + [now]
  {
    hide After, LastBlock;
    var all := run + [Request(ip, now)];
    assert all[..|all| - 1] == run;
  }

  lemma NotBlockedNow(cfg: Config, run: Run, ip: IpAddr, now: Instant)
    requires ValidConfig(cfg) && Monotone(run + [Request(ip, now)]) && !InForce(LastBlock(cfg, run, ip), now)
    ensures !BlockedAt(After(cfg, run), ip, now)
  {
    hide After, LastBlock;
    var all := run + [Request(ip, now)];
    assert forall i :: 0 <= i < |run| ==> all[i] == run[i];
    assert all[|run|].at == now;
    if run != [] { assert all[|run| - 1].at <= all[|run|].at; }
    BlocksListed(cfg, run, ip, now);
  }

  lemma BucketSound(cfg: Config, run: Run, ip: IpAddr, e: Event)
    requires ValidConfig(cfg) && Monotone(run + [e]) && ip in After(cfg, run).buckets
    ensures var b := After(cfg, run).buckets[ip];
      b.lastRefill <= e.at && b.capacity == cfg.burst as real && 0.0 <= b.tokens <= b.capacity
  {
    var all := run + [e];
    assert forall i :: 0 <= i < |run| ==> all[i] == run[i];
    assert all[|run|] == e;
    if run != [] { RunSound(cfg, run); }
  }

  // What time has brought at a rate, unless that is above the burst.
  function Filled(b: Bucket, now: Instant, rate: real): real { b.tokens + (now - b.lastRefill) * rate }

  function AtMost(x: real, most: real): real { if x > most then most else x }

  lemma ChargedRate(cfg: Config, b: Bucket, now: Instant)
    requires b.lastRefill <= now && 0.0 <= b.tokens <= b.capacity == cfg.burst as real
    ensures Refilled(cfg, b, now) == AtMost(Filled(b, now, ChargeBucket(cfg, b, now).0.rate), cfg.burst as real)
  {
    hide EffectiveRps, NoteRequest, Refilled;
    var ewma := NoteRequest(b, now, cfg.alphaPct).ewma;
    NoteKeeps(b, now, cfg.alphaPct);
    RefilledBrings(cfg, b, now, ewma);
    var e, rate := now - b.lastRefill, EffectiveRps(cfg.rps, ewma, cfg.adaptive);
    assert Since(now, b.lastRefill) == e && ChargeBucket(cfg, b, now).0.rate == rate;
    assert Filled(b, now, rate) == b.tokens + e * rate;
    assert Refilled(cfg, b, now) == MinReal(Filled(b, now, rate), b.capacity);
  }

  // An address with a bucket that is not blocked: what its next request finds,
  // how it is answered, and what is left. The rate is that of its requests.
  lemma NextAnswer(cfg: Config, run: Run, ip: IpAddr, now: Instant, ws: seq<seq<Instant>>)
        returns (rate: real, held: real)
    requires ValidConfig(cfg) && cfg.enabled && Monotone(run + [Request(ip, now)])
    requires ip in After(cfg, run).buckets && !InForce(LastBlock(cfg, run, ip), now)
    requires Windows(ChargedAt(cfg, run, ip) + [now], ws)
    ensures ws != [] && RateFor(cfg, ws, rate)
    ensures var b, s' := After(cfg, run).buckets[ip], After(cfg, run + [Request(ip, now)]);
      && held == AtMost(Filled(b, now, rate), cfg.burst as real)
      && (Answer(cfg, run, Request(ip, now)).Allow? <==> held >= 1.0)
      && ip in s'.buckets
      && s'.buckets[ip].tokens == (if held >= 1.0 then held - 1.0 else held)
      && s'.buckets[ip].lastRefill == now
      && s'.buckets[ip].violations
         == (if held < 1.0 then b.violations + 1 else if b.violations > 0 then b.violations - 1 else 0)
  {
    hide Windows, RateFor, Tells, After, ChargeBucket, Refilled, Filled, LastBlock, BlockSecs, Trusted;
    var e := Request(ip, now);
    var s := After(cfg, run);
    var b := s.buckets[ip];
    NotBlockedNow(cfg, run, ip, now);
    NextCharged(cfg, run, ip, now);
    AverageExact(cfg, run + [e], ip, ws);
    AfterAppend(cfg, run, e, ip, 0.0, 0.0);
    BucketSound(cfg, run, ip, e);
    ChargedRate(cfg, b, now);
    ChargeIs(cfg, b, now);
    rate, held := Charge(cfg, s, ip, now).0.rate, Refilled(cfg, b, now);
    BucketCharged(cfg, s, ip, now);
    SomeWindow(cfg, After(cfg, run + [e]).buckets[ip], ws);
  }

  lemma BucketCharged(cfg: Config, s: State, ip: IpAddr, now: Instant)
    requires ValidConfig(cfg) && cfg.enabled && !BlockedAt(s, ip, now)
    ensures var s' := CheckRequest(cfg, s, ip, now).0; ip in s'.buckets && s'.buckets[ip] == Charge(cfg, s, ip, now).0
  {
    hide ChargeBucket, Trusted, BlockSecs;
  }

  lemma SomeWindow(cfg: Config, b: Bucket, ws: seq<seq<Instant>>)
    requires Tells(cfg, b, ws)
    ensures ws != []
  {
  }
}
