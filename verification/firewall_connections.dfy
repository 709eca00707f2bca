// Connection accounting under concurrency: a check and the connect it admits
// are separate steps, and other admissions may fall between them
// (crates/firewall/src/lib.rs).
module FirewallConnections {
  import opened Prelude
  import opened Proxy
  import opened FirewallModel

  // An admission that passed its check and has not connected yet, or an open
  // connection: on behalf of a client, or of a proxy that named none.
  datatype Slot = Client(ip: IpAddr) | Unattributed

  datatype Event =
    | Admit(slot: Slot, peer: IpAddr, at: Instant)
    | Connect(slot: Slot)
    | Abandon(slot: Slot)
    | Disconnect(slot: Slot)

  datatype System = System(fw: State, admitted: multiset<Slot>, open: multiset<Slot>)

  const Idle: System := System(Fresh, multiset{}, multiset{})

  function Check(cfg: Config, fw: State, e: Event): Decision
    requires e.Admit?
  {
    match e.slot
    case Client(ip) => CheckConnection(cfg, fw, ip, e.at)
    case Unattributed => CheckBehindProxy(cfg, fw, e.peer, e.at)
  }

  // Callers pair their calls: they connect what was admitted and disconnect
  // what is open.
  predicate Paired(y: System, e: Event) {
    match e
    case Admit(_, _, _) => true
    case Connect(slot) => slot in y.admitted
    case Abandon(slot) => slot in y.admitted
    case Disconnect(slot) => slot in y.open
  }

  function Next(cfg: Config, y: System, e: Event): System {
    match e
    case Admit(slot, _, _) =>
      if Check(cfg, y.fw, e).Allow? then y.(admitted := y.admitted + multiset{slot}) else y
    case Abandon(slot) => y.(admitted := y.admitted - multiset{slot})
    case Connect(slot) =>
      System(if slot.Client? then OnConnect(cfg, y.fw, slot.ip) else OnConnectUnattributed(cfg, y.fw),
             y.admitted - multiset{slot}, y.open + multiset{slot})
    case Disconnect(slot) =>
      System(if slot.Client? then OnDisconnect(cfg, y.fw, slot.ip) else OnDisconnectUnattributed(cfg, y.fw),
             y.admitted, y.open - multiset{slot})
  }

  function Reach(cfg: Config, run: seq<Event>): System {
    if run == [] then Idle else Next(cfg, Reach(cfg, run[..|run| - 1]), run[|run| - 1])
  }

  // Every call of the run is paired, and at most k admissions are ever in flight.
  ghost predicate Legal(cfg: Config, run: seq<Event>, k: nat) {
    && |Reach(cfg, run).admitted| <= k
    && (run != [] ==>
          Legal(cfg, run[..|run| - 1], k) && Paired(Reach(cfg, run[..|run| - 1]), run[|run| - 1]))
  }

  // ---- What every step keeps -----------------------------------------------

  ghost predicate CountedAt(perIp: map<IpAddr, nat>, open: multiset<Slot>, ip: IpAddr) {
    Count(perIp, ip) == open[Client(ip)] && (ip in perIp <==> Client(ip) in open)
  }

  // The counters are the open connections: one entry per address that has any.
  ghost predicate Accounted(y: System) {
    && y.fw.total == |y.open|
    && forall ip {:trigger CountedAt(y.fw.perIp, y.open, ip)} :: CountedAt(y.fw.perIp, y.open, ip)
  }

  // Room for what is admitted was there when it was checked.
  ghost predicate WithinCaps(cfg: Config, y: System, k: nat) {
    && y.fw.total + |y.admitted| <= cfg.maxTotal + k - 1
    && (forall ip :: y.open[Client(ip)] + y.admitted[Client(ip)] <= cfg.maxPerIp + k - 1)
  }

  lemma ConnectAccounted(cfg: Config, y: System, slot: Slot)
    requires cfg.enabled && Accounted(y) && slot in y.admitted
    ensures Accounted(Next(cfg, y, Connect(slot)))
  {
    var y' := Next(cfg, y, Connect(slot));
    forall ip
      ensures CountedAt(y'.fw.perIp, y'.open, ip)
    {
      assert CountedAt(y.fw.perIp, y.open, ip);
    }
  }

  lemma DisconnectAccounted(cfg: Config, y: System, slot: Slot)
    requires cfg.enabled && Accounted(y) && slot in y.open
    ensures Accounted(Next(cfg, y, Disconnect(slot)))
  {
    var y' := Next(cfg, y, Disconnect(slot));
    forall ip
      ensures CountedAt(y'.fw.perIp, y'.open, ip)
    {
      assert CountedAt(y.fw.perIp, y.open, ip);
    }
  }

  lemma StepAccounted(cfg: Config, y: System, e: Event)
    requires cfg.enabled && Accounted(y) && Paired(y, e)
    ensures Accounted(Next(cfg, y, e))
  {
    hide Check, CountedAt;
    match e
    case Connect(slot) => ConnectAccounted(cfg, y, slot);
    case Disconnect(slot) => DisconnectAccounted(cfg, y, slot);
    case _ =>
  }

  // A check passes below the limit on the total only.
  lemma AllowedBelow(cfg: Config, fw: State, e: Event)
    requires cfg.enabled && e.Admit? && Check(cfg, fw, e).Allow?
    ensures fw.total < cfg.maxTotal && (e.slot.Client? ==> Count(fw.perIp, e.slot.ip) < cfg.maxPerIp)
  {
  }

  lemma StepWithinTotal(cfg: Config, y: System, e: Event, k: nat)
    requires cfg.enabled && Accounted(y) && Paired(y, e)
    requires y.fw.total + |y.admitted| <= cfg.maxTotal + k - 1 && |Next(cfg, y, e).admitted| <= k
    ensures Next(cfg, y, e).fw.total + |Next(cfg, y, e).admitted| <= cfg.maxTotal + k - 1
  {
    hide Check, CountedAt;
    if e.Admit? && Check(cfg, y.fw, e).Allow? { AllowedBelow(cfg, y.fw, e); }
  }

  lemma StepWithinPerIp(cfg: Config, y: System, e: Event, k: nat, ip: IpAddr)
    requires cfg.enabled && Accounted(y) && Paired(y, e)
    requires y.open[Client(ip)] + y.admitted[Client(ip)] <= cfg.maxPerIp + k - 1 && |Next(cfg, y, e).admitted| <= k
    ensures Next(cfg, y, e).open[Client(ip)] + Next(cfg, y, e).admitted[Client(ip)] <= cfg.maxPerIp + k - 1
  {
    MultiplicityBound(Next(cfg, y, e).admitted, Client(ip));
    assert CountedAt(y.fw.perIp, y.open, ip);
  }

  lemma StepWithinCaps(cfg: Config, y: System, e: Event, k: nat)
    requires cfg.enabled && Accounted(y) && Paired(y, e)
    requires WithinCaps(cfg, y, k) && |Next(cfg, y, e).admitted| <= k
    ensures WithinCaps(cfg, Next(cfg, y, e), k)
  {
    StepWithinTotal(cfg, y, e, k);
    forall ip
      ensures Next(cfg, y, e).open[Client(ip)] + Next(cfg, y, e).admitted[Client(ip)] <= cfg.maxPerIp + k - 1
    {
      StepWithinPerIp(cfg, y, e, k, ip);
    }
  }

  lemma MultiplicityBound<T>(m: multiset<T>, x: T)
    ensures m[x] <= |m|
  {
    var rest := m[x := 0];
    assert m == rest[x := m[x]];
  }

  lemma {:induction false} RunKeeps(cfg: Config, run: seq<Event>, k: nat)
    requires cfg.enabled && k >= 1 && Legal(cfg, run, k)
    ensures Accounted(Reach(cfg, run)) && WithinCaps(cfg, Reach(cfg, run), k)
  {
    if run != [] {
      var before, e := run[..|run| - 1], run[|run| - 1];
      RunKeeps(cfg, before, k);
      StepAccounted(cfg, Reach(cfg, before), e);
      StepWithinCaps(cfg, Reach(cfg, before), e, k);
    }
  }

  // ---- The theorem ---------------------------------------------------------

  function SumOf(keys: seq<IpAddr>, perIp: map<IpAddr, nat>): nat {
    if keys == [] then 0 else Count(perIp, keys[0]) + SumOf(keys[1..], perIp)
  }

  ghost predicate Lists(keys: seq<IpAddr>, perIp: map<IpAddr, nat>) {
    && (forall ip :: ip in perIp <==> ip in keys)
    && (forall i, j :: 0 <= i < j < |keys| ==> keys[i] != keys[j])
  }

  // Summing the per-address counts in any order counts the client connections.
  lemma {:induction false} SumCountsClients(keys: seq<IpAddr>, perIp: map<IpAddr, nat>, open: multiset<Slot>)
    requires forall i, j :: 0 <= i < j < |keys| ==> keys[i] != keys[j]
    requires forall ip :: ip in keys ==> Count(perIp, ip) == open[Client(ip)]
    requires forall slot :: slot in open && slot.Client? ==> slot.ip in keys
    ensures SumOf(keys, perIp) + open[Unattributed] == |open|
  {
    if keys == [] {
      assert forall slot :: slot in open ==> slot == Unattributed;
      var rest := open[Unattributed := 0];
      assert rest == multiset{};
      assert open == rest[Unattributed := open[Unattributed]];
    } else {
      var first := Client(keys[0]);
      var rest := open[first := 0];
      assert open == rest[first := open[first]];
      SumCountsClients(keys[1..], perIp, rest);
    }
  }

  lemma CountsAll(y: System)
    requires Accounted(y)
    ensures forall ip :: Count(y.fw.perIp, ip) == y.open[Client(ip)]
    ensures forall slot :: slot in y.open && slot.Client? ==> slot.ip in y.fw.perIp
  {
    forall ip
      ensures Count(y.fw.perIp, ip) == y.open[Client(ip)] && (Client(ip) in y.open ==> ip in y.fw.perIp)
    {
      assert CountedAt(y.fw.perIp, y.open, ip);
    }
  }

  // On every legal run with at most k admissions in flight, the per-address
  // counts and the open unattributed connections sum to the total, and neither
  // cap is exceeded by more than k - 1.
  lemma ConnectionsBounded(cfg: Config, run: seq<Event>, k: nat, keys: seq<IpAddr>)
    requires cfg.enabled && k >= 1 && Legal(cfg, run, k)
    requires Lists(keys, Reach(cfg, run).fw.perIp)
    ensures var y := Reach(cfg, run);
      && SumOf(keys, y.fw.perIp) + y.open[Unattributed] == y.fw.total
      && (forall ip :: Count(y.fw.perIp, ip) == y.open[Client(ip)])
      && y.fw.total <= cfg.maxTotal + k - 1
      && (forall ip :: Count(y.fw.perIp, ip) <= cfg.maxPerIp + k - 1)
  {
    hide Legal, Reach, CountedAt;
    RunKeeps(cfg, run, k);
    var y := Reach(cfg, run);
    CountsAll(y);
    SumCountsClients(keys, y.fw.perIp, y.open);
  }

  // With the firewall off nothing is counted at all.
  lemma {:induction false} OffCountsNothing(cfg: Config, run: seq<Event>)
    requires !cfg.enabled
    ensures Reach(cfg, run).fw == Fresh
  {
    if run != [] {
      OffCountsNothing(cfg, run[..|run| - 1]);
    }
  }

  // ---- The bounds are met --------------------------------------------------

  // What a check of this kind of slot compares with its count.
  function Cap(cfg: Config, slot: Slot): nat { if slot.Client? then Min(cfg.maxPerIp, cfg.maxTotal) else cfg.maxTotal }

  function Holding(slot: Slot, open: nat): State {
    if slot.Unattributed? then Fresh.(total := open)
    else Fresh.(total := open, perIp := if open == 0 then map[] else map[slot.ip := open])
  }

  // A legal run that has counted `open` connections of one slot, with
  // `admitted` more about to connect.
  ghost predicate Counted(cfg: Config, slot: Slot, run: seq<Event>, k: nat, admitted: nat, open: nat) {
    && Legal(cfg, run, k)
    && Reach(cfg, run) == System(Holding(slot, open), multiset{}[slot := admitted], multiset{}[slot := open])
  }

  lemma LegalAppend(cfg: Config, run: seq<Event>, e: Event, k: nat)
    requires Legal(cfg, run, k)
    requires Paired(Reach(cfg, run), e) && |Next(cfg, Reach(cfg, run), e).admitted| <= k
    ensures Legal(cfg, run + [e], k)
    ensures Reach(cfg, run + [e]) == Next(cfg, Reach(cfg, run), e)
  {
    assert (run + [e])[..|run|] == run;
  }

  lemma OneMoreAdmitted(cfg: Config, slot: Slot, run: seq<Event>, k: nat, admitted: nat, open: nat, peer: IpAddr)
    requires cfg.enabled && Counted(cfg, slot, run, k, admitted, open) && open < Cap(cfg, slot) && admitted < k
    ensures Counted(cfg, slot, run + [Admit(slot, peer, 0.0)], k, admitted + 1, open)
  {
    assert Reach(cfg, run).admitted + multiset{slot} == multiset{}[slot := admitted + 1];
    LegalAppend(cfg, run, Admit(slot, peer, 0.0), k);
  }

  lemma ConnectHolds(cfg: Config, slot: Slot, open: nat)
    requires cfg.enabled
    ensures (if slot.Client? then OnConnect(cfg, Holding(slot, open), slot.ip)
      else OnConnectUnattributed(cfg, Holding(slot, open))) == Holding(slot, open + 1)
  {
    if slot.Client? {
      var perIp := Holding(slot, open).perIp;
      assert Count(perIp, slot.ip) == open;
      assert perIp[slot.ip := open + 1] == map[slot.ip := open + 1];
    }
  }

  lemma OneMoreOpen(cfg: Config, slot: Slot, run: seq<Event>, k: nat, admitted: nat, open: nat)
    requires cfg.enabled && Counted(cfg, slot, run, k, admitted, open) && admitted > 0
    ensures Counted(cfg, slot, run + [Connect(slot)], k, admitted - 1, open + 1)
  {
    var y := Reach(cfg, run);
    assert y.admitted - multiset{slot} == multiset{}[slot := admitted - 1];
    assert y.open + multiset{slot} == multiset{}[slot := open + 1];
    ConnectHolds(cfg, slot, open);
    LegalAppend(cfg, run, Connect(slot), k);
  }

  lemma NoneYet(cfg: Config, slot: Slot, k: nat)
    ensures Counted(cfg, slot, [], k, 0, 0)
  {
    assert multiset{}[slot := 0] == multiset{};
  }

  lemma {:induction false} FillTo(cfg: Config, slot: Slot, k: nat, peer: IpAddr, n: nat) returns (run: seq<Event>)
    requires cfg.enabled && k >= 1 && n < Cap(cfg, slot)
    ensures Counted(cfg, slot, run, k, 0, n)
  {
    hide Counted, Cap;
    if n == 0 {
      run := [];
      NoneYet(cfg, slot, k);
    } else {
      var most := FillTo(cfg, slot, k, peer, n - 1);
      OneMoreAdmitted(cfg, slot, most, k, 0, n - 1, peer);
      var admitted := most + [Admit(slot, peer, 0.0)];
      OneMoreOpen(cfg, slot, admitted, k, 1, n - 1);
      run := admitted + [Connect(slot)];
    }
  }

  lemma {:induction false} RushIn(cfg: Config, slot: Slot, k: nat, peer: IpAddr, n: nat, admitted: nat)
        returns (run: seq<Event>)
    requires cfg.enabled && k >= 1 && n < Cap(cfg, slot) && admitted <= k
    ensures Counted(cfg, slot, run, k, admitted, n)
  {
    hide Counted, Cap;
    if admitted == 0 {
      run := FillTo(cfg, slot, k, peer, n);
    } else {
      var most := RushIn(cfg, slot, k, peer, n, admitted - 1);
      OneMoreAdmitted(cfg, slot, most, k, admitted - 1, n, peer);
      run := most + [Admit(slot, peer, 0.0)];
    }
  }

  lemma {:induction false} LandAll(cfg: Config, slot: Slot, k: nat, peer: IpAddr, landed: nat) returns (run: seq<Event>)
    requires cfg.enabled && k >= 1 && Cap(cfg, slot) >= 1 && landed <= k
    ensures Counted(cfg, slot, run, k, k - landed, Cap(cfg, slot) - 1 + landed)
  {
    hide Counted, Cap;
    var cap := Cap(cfg, slot);
    if landed == 0 {
      run := RushIn(cfg, slot, k, peer, cap - 1, k);
    } else {
      var most := LandAll(cfg, slot, k, peer, landed - 1);
      var admitted, open := k - landed + 1, cap - 1 + (landed - 1);
      OneMoreOpen(cfg, slot, most, k, admitted, open);
      run := most + [Connect(slot)];
    }
  }

  // Both bounds are met: one short of the limit, k admissions pass their checks
  // before any of them connects.
  lemma TotalBoundMet(cfg: Config, k: nat, peer: IpAddr) returns (run: seq<Event>)
    requires cfg.enabled && k >= 1 && cfg.maxTotal >= 1
    ensures Legal(cfg, run, k)
    ensures Reach(cfg, run).fw.total == cfg.maxTotal + k - 1
  {
    run := LandAll(cfg, Unattributed, k, peer, k);
  }

  lemma PerIpBoundMet(cfg: Config, k: nat, ip: IpAddr) returns (run: seq<Event>)
    requires cfg.enabled && k >= 1 && 1 <= cfg.maxPerIp <= cfg.maxTotal
    ensures Legal(cfg, run, k)
    ensures Count(Reach(cfg, run).fw.perIp, ip) == cfg.maxPerIp + k - 1
  {
    run := LandAll(cfg, Client(ip), k, ip, k);
  }
}
