// Whole runs of the timer wheels: nothing is lost, nothing fires early, and
// queues that are not sorted still deliver in time.
module TimerRuns {
  import opened Prelude
  import opened Timers

  datatype Op =
    | Schedule(delay: nat, repeating: bool, made: Time, added: Time)
    | PollAt(now: Time)
    | CancelId(id: nat, at: Time)

  function Start(op: Op): Time {
    match op case Schedule(_, _, made, _) => made case PollAt(now) => now case CancelId(_, at) => at
  }

  function End(op: Op): Time {
    match op case Schedule(_, _, _, added) => added case PollAt(now) => now case CancelId(_, at) => at
  }

  type Run = seq<Op>

  // The clock never goes back, within an operation or between two.
  ghost predicate Clocked(run: Run) {
    && (forall i :: 0 <= i < |run| ==> Start(run[i]) <= End(run[i]))
    && (forall i, j :: 0 <= i < j < |run| ==> End(run[i]) <= Start(run[j]))
  }

  // When a timer was due and when it was queued, and what was asked.
  datatype Birth = Birth(deadline: Time, added: Time, delay: nat, repeating: bool)

  datatype System = System(y: Wheels, births: seq<Birth>, returned: seq<Timer>, cancelled: multiset<nat>)

  const Idle: System := System(Empty, [], [], multiset{})

  // How many timers of a list carry an id.
  function Occurrences(q: seq<Timer>, id: nat): nat {
    if q == [] then 0 else (if q[0].id == id then 1 else 0) + Occurrences(q[1..], id)
  }

  function Next(s: System, op: Op): System
    requires |s.y.queues| == 6
  {
    match op
    case Schedule(delay, repeating, made, added) =>
      s.(y := AddTimer(s.y.(nextId := s.y.nextId + 1), Timer(s.y.nextId, made + delay, repeating, delay), added),
         births := s.births + [Birth(made + delay, added, delay, repeating)])
    case PollAt(now) =>
      var (y, ready) := Poll(s.y, now);
      s.(y := y, returned := s.returned + ready)
    case CancelId(id, _) =>
      var (y, found) := Cancel(s.y, id);
      s.(y := y, cancelled := if found then s.cancelled + multiset{id} else s.cancelled)
  }

  function Reach(run: Run): (s: System)
    ensures |s.y.queues| == 6
  {
    if run == [] then Idle else Next(Reach(run[..|run| - 1]), run[|run| - 1])
  }

  // ---- Nothing is lost -----------------------------------------------------

  function Held(y: Wheels, id: nat): nat
    requires |y.queues| == 6
  {
    var q := y.queues;
    Occurrences(q[0], id) + Occurrences(q[1], id) + Occurrences(q[2], id)
    + Occurrences(q[3], id) + Occurrences(q[4], id) + Occurrences(q[5], id)
  }

  // Every id given out is in exactly one place, once: held, returned or cancelled.
  ghost predicate Conserved(s: System, id: nat)
    requires |s.y.queues| == 6
  {
    && |s.births| == s.y.nextId
    && Held(s.y, id) + Occurrences(s.returned, id) + s.cancelled[id] == if id < s.y.nextId then 1 else 0
  }

  lemma {:induction false} Append(a: seq<Timer>, b: seq<Timer>, id: nat)
    ensures Occurrences(a + b, id) == Occurrences(a, id) + Occurrences(b, id)
  {
    if a == [] {
      assert a + b == b;
    } else {
      Append(a[1..], b, id);
      assert (a + b)[1..] == a[1..] + b;
    }
  }

  lemma {:induction false} PollSplits(q: seq<Timer>, now: Time, repeatingOk: bool, id: nat)
    ensures Occurrences(Front(q, now, repeatingOk), id) + Occurrences(Rest(q, now), id) == Occurrences(q, id)
  {
    if q != [] && q[0].at <= now {
      PollSplits(q[1..], now, repeatingOk, id);
    }
  }

  lemma WithoutTakesOne(q: seq<Timer>, gone: nat, id: nat)
    requires Position(q, gone).Some?
    ensures Occurrences(Without(q, gone), id) + (if id == gone then 1 else 0) == Occurrences(q, id)
  {
    var p := Position(q, gone).value;
    assert q == q[..p] + ([q[p]] + q[p + 1..]);
    Append(q[..p], [q[p]] + q[p + 1..], id);
    Append([q[p]], q[p + 1..], id);
    Append(q[..p], q[p + 1..], id);
    assert Occurrences([q[p]], id) == if id == gone then 1 else 0;
  }

  // Replacing one queue changes what is held by what it held.
  lemma HeldUpdate(y: Wheels, w: nat, q: seq<Timer>, id: nat)
    requires |y.queues| == 6 && w < 6
    ensures Held(y.(queues := y.queues[w := q]), id) + Occurrences(y.queues[w], id) == Held(y, id) + Occurrences(q, id)
  {
    var updated := y.queues[w := q];
    if w == 0 { assert updated[0] == q; }
    else if w == 1 { assert updated[1] == q; }
    else if w == 2 { assert updated[2] == q; }
    else if w == 3 { assert updated[3] == q; }
    else if w == 4 { assert updated[4] == q; }
    else { assert updated[5] == q; }
  }

  lemma AddHolds(y: Wheels, t: Timer, now: Time, id: nat)
    requires |y.queues| == 6
    ensures Held(AddTimer(y, t, now), id) == Held(y, id) + (if t.id == id then 1 else 0)
  {
    var w := WheelFor(Left(t.at, now));
    Append(y.queues[w], [t], id);
    HeldUpdate(y, w, y.queues[w] + [t], id);
    assert Occurrences([t], id) == if t.id == id then 1 else 0;
  }

  lemma PollHolds(y: Wheels, now: Time, id: nat)
    requires |y.queues| == 6
    ensures Held(Poll(y, now).0, id) + Occurrences(Poll(y, now).1, id) == Held(y, id)
  {
    var q := y.queues;
    var f0, f1, f2, f3, f4, f5 := Front(q[0], now, true), Front(q[1], now, true), Front(q[2], now, true),
                                  Front(q[3], now, true), Front(q[4], now, true), Front(q[5], now, false);
    PollSplits(q[0], now, true, id);
    PollSplits(q[1], now, true, id);
    PollSplits(q[2], now, true, id);
    PollSplits(q[3], now, true, id);
    PollSplits(q[4], now, true, id);
    PollSplits(q[5], now, false, id);
    Append(f0, f1, id);
    Append(f0 + f1, f2, id);
    Append(f0 + f1 + f2, f3, id);
    Append(f0 + f1 + f2 + f3, f4, id);
    Append(f0 + f1 + f2 + f3 + f4, f5, id);
  }

  lemma CancelHolds(y: Wheels, gone: nat, id: nat)
    requires |y.queues| == 6
    ensures Held(Cancel(y, gone).0, id) + (if Cancel(y, gone).1 && id == gone then 1 else 0) == Held(y, id)
  {
    match Holder(y.queues, gone, 0) {
      case Some(w) =>
        WithoutTakesOne(y.queues[w], gone, id);
        HeldUpdate(y, w, Without(y.queues[w], gone), id);
      case None =>
    }
  }

  lemma StepConserves(s: System, op: Op, id: nat)
    requires |s.y.queues| == 6 && Conserved(s, id)
    ensures Conserved(Next(s, op), id)
  {
    match op {
      case Schedule(delay, repeating, made, added) =>
        AddHolds(s.y.(nextId := s.y.nextId + 1), Timer(s.y.nextId, made + delay, repeating, delay), added, id);
      case PollAt(now) =>
        PollHolds(s.y, now, id);
        Append(s.returned, Poll(s.y, now).1, id);
      case CancelId(gone, _) =>
        CancelHolds(s.y, gone, id);
    }
  }

  // After any run, the scheduled ids are the disjoint union of those pending,
  // those returned and those cancelled, each counted once.
  lemma {:induction false} TimersConserved(run: Run, id: nat)
    ensures Conserved(Reach(run), id)
  {
    if run != [] {
      TimersConserved(run[..|run| - 1], id);
      StepConserves(Reach(run[..|run| - 1]), run[|run| - 1], id);
    }
  }

  // ---- Queues are in order of arrival, not of deadline ----------------------

  ghost predicate Placed(t: Timer, w: nat, births: seq<Birth>) {
    && t.id < |births| && t.at == births[t.id].deadline
    && t.interval == births[t.id].delay && t.repeating == births[t.id].repeating
    && WheelFor(Left(t.at, births[t.id].added)) == w
  }

  ghost predicate QueueOk(q: seq<Timer>, w: nat, births: seq<Birth>) {
    && (forall i :: 0 <= i < |q| ==> Placed(q[i], w, births))
    && (forall i, j :: 0 <= i < j < |q| ==> q[i].id < q[j].id)
  }

  ghost predicate InOrder(s: System, now: Time)
    requires |s.y.queues| == 6
  {
    && |s.births| == s.y.nextId
    && (forall w :: 0 <= w < 6 ==> QueueOk(s.y.queues[w], w, s.births))
    && (forall i, j :: 0 <= i <= j < |s.births| ==> s.births[i].added <= s.births[j].added <= now)
  }

  lemma {:induction false} RestIsSuffix(q: seq<Timer>, now: Time)
    ensures exists k :: 0 <= k <= |q| && Rest(q, now) == q[k..]
    ensures Rest(q, now) != [] ==> Rest(q, now)[0].at > now
  {
    if q == [] || q[0].at > now {
      assert Rest(q, now) == q[0..];
    } else {
      RestIsSuffix(q[1..], now);
      var k :| 0 <= k <= |q[1..]| && Rest(q[1..], now) == q[1..][k..];
      assert Rest(q, now) == q[k + 1..];
    }
  }

  lemma AppendKeepsOk(q: seq<Timer>, w: nat, births: seq<Birth>, b: Birth)
    requires QueueOk(q, w, births)
    ensures QueueOk(q, w, births + [b])
  {
    forall i | 0 <= i < |q|
      ensures Placed(q[i], w, births + [b])
    {
      assert Placed(q[i], w, births);
    }
  }

  lemma ScheduleKeepsOrder(s: System, op: Op, now: Time)
    requires |s.y.queues| == 6 && InOrder(s, now) && op.Schedule? && now <= op.made <= op.added
    ensures InOrder(Next(s, op), op.added)
  {
    hide WheelFor;
    var b, id := Birth(op.made + op.delay, op.added, op.delay, op.repeating), s.y.nextId;
    var t := Timer(id, op.made + op.delay, op.repeating, op.delay);
    var added := WheelFor(Left(t.at, op.added));
    forall w | 0 <= w < 6
      ensures QueueOk(Next(s, op).y.queues[w], w, s.births + [b])
    {
      AppendKeepsOk(s.y.queues[w], w, s.births, b);
      if w == added {
        assert Placed(t, w, s.births + [b]);
        forall i | 0 <= i < |s.y.queues[w]|
          ensures s.y.queues[w][i].id < id
        {
          assert Placed(s.y.queues[w][i], w, s.births);
        }
      }
    }
  }

  lemma PollKeepsOrder(s: System, op: Op, now: Time)
    requires |s.y.queues| == 6 && InOrder(s, now) && op.PollAt? && now <= op.now
    ensures InOrder(Next(s, op), op.now)
  {
    var left := Poll(s.y, op.now).0.queues;
    forall w | 0 <= w < 6
      ensures QueueOk(left[w], w, s.births)
    {
      PolledQueue(s.y, op.now, w);
      RestKeepsOk(s.y.queues[w], op.now, w, s.births);
    }
  }

  lemma PolledQueue(y: Wheels, now: Time, w: nat)
    requires |y.queues| == 6 && w < 6
    ensures Poll(y, now).0.queues[w] == Rest(y.queues[w], now)
  {
  }

  lemma {:induction false} RestKeepsOk(q: seq<Timer>, now: Time, w: nat, births: seq<Birth>)
    requires QueueOk(q, w, births)
    ensures QueueOk(Rest(q, now), w, births)
  {
    if q != [] && q[0].at <= now {
      RestKeepsOk(q[1..], now, w, births);
    }
  }

  lemma WithoutKeepsOk(q: seq<Timer>, id: nat, w: nat, births: seq<Birth>)
    requires QueueOk(q, w, births)
    ensures QueueOk(Without(q, id), w, births)
  {
    hide Placed;
    var at := Position(q, id);
    if at.Some? { CutKeepsOk(q, at.value, w, births); }
  }

  lemma CutKeepsOk(q: seq<Timer>, p: nat, w: nat, births: seq<Birth>)
    requires QueueOk(q, w, births) && p < |q|
    ensures QueueOk(q[..p] + q[p + 1..], w, births)
  {
    hide Placed;
    var left := q[..p] + q[p + 1..];
    assert forall i :: 0 <= i < |left| ==> left[i] == if i < p then q[i] else q[i + 1];
  }

  lemma CancelKeepsOrder(s: System, op: Op, now: Time)
    requires |s.y.queues| == 6 && InOrder(s, now) && op.CancelId? && now <= op.at
    ensures InOrder(Next(s, op), op.at)
  {
    hide QueueOk, Without;
    forall w | 0 <= w < 6
      ensures QueueOk(Next(s, op).y.queues[w], w, s.births)
    {
      WithoutKeepsOk(s.y.queues[w], op.id, w, s.births);
    }
  }

  lemma {:induction false} RunInOrder(run: Run)
    requires Clocked(run)
    ensures InOrder(Reach(run), if run == [] then 0 else End(run[|run| - 1]))
  {
    if run != [] {
      var before, op := run[..|run| - 1], run[|run| - 1];
      RunInOrder(before);
      var now := if before == [] then 0 else End(before[|before| - 1]);
      match op {
        case Schedule(_, _, _, _) => ScheduleKeepsOrder(Reach(before), op, now);
        case PollAt(_) => PollKeepsOrder(Reach(before), op, now);
        case CancelId(_, _) => CancelKeepsOrder(Reach(before), op, now);
      }
    }
  }

  // ---- In time, and never early --------------------------------------------

  function Home(b: Birth): nat { WheelFor(Left(b.deadline, b.added)) }

  // The first timer that is not due, and all behind it, are what a poll leaves.
  lemma {:induction false} RestFrom(q: seq<Timer>, now: Time) returns (k: nat)
    ensures k <= |q| && Rest(q, now) == q[k..]
    ensures (forall m :: 0 <= m < k ==> q[m].at <= now) && (k < |q| ==> q[k].at > now)
  {
    if q == [] || q[0].at > now {
      k := 0;
    } else {
      var k' := RestFrom(q[1..], now);
      k := k' + 1;
      assert forall m :: 1 <= m <= k' ==> q[m] == q[1..][m - 1];
      assert q[1..][k'..] == q[k..];
    }
  }

  predicate Lists(q: seq<Timer>, id: nat) { exists i :: 0 <= i < |q| && q[i].id == id }

  lemma {:induction false} ListsCounts(q: seq<Timer>, id: nat)
    ensures Lists(q, id) <==> Occurrences(q, id) > 0
  {
    if q != [] {
      ListsCounts(q[1..], id);
      if Lists(q[1..], id) {
        var i :| 0 <= i < |q[1..]| && q[1..][i].id == id;
        assert q[i + 1].id == id;
      }
      if Lists(q, id) && q[0].id != id {
        var i :| 0 <= i < |q| && q[i].id == id;
        assert q[1..][i - 1].id == id;
      }
    }
  }

  // In a queue in order of ids a poll leaves a timer exactly when it, or one
  // before it, is not due.
  lemma StaysInQueue(q: seq<Timer>, now: Time, i: nat)
    requires i < |q| && forall a, b :: 0 <= a < b < |q| ==> q[a].id < q[b].id
    ensures Lists(Rest(q, now), q[i].id) <==> exists k :: 0 <= k <= i && q[k].at > now
  {
    var k := RestFrom(q, now);
    var left := Rest(q, now);
    if k <= i {
      assert left[i - k] == q[i];
    } else {
      forall m | 0 <= m < |left|
        ensures left[m].id != q[i].id
      {
        assert left[m] == q[k + m];
      }
    }
  }

  // A timer that is held stands in the wheel of its delay and in no other.
  lemma HeldAtHome(s: System, now: Time, id: nat)
    requires |s.y.queues| == 6 && InOrder(s, now)
    ensures Held(s.y, id) > 0 <==> id < |s.births| && Lists(s.y.queues[Home(s.births[id])], id)
  {
    forall w | 0 <= w < 6
      ensures Lists(s.y.queues[w], id) <==> Occurrences(s.y.queues[w], id) > 0
      ensures Lists(s.y.queues[w], id) ==> id < |s.births| && Home(s.births[id]) == w
    {
      ListsCounts(s.y.queues[w], id);
      assert QueueOk(s.y.queues[w], w, s.births);
      assert forall i :: 0 <= i < |s.y.queues[w]| ==> Placed(s.y.queues[w][i], w, s.births);
    }
  }

  // Two delays on the same side of 64 ms, 4 s, 4 min, 4 h and 4 days.
  predicate Together(d: nat, e: nat) {
    && (d < 64_000_000 <==> e < 64_000_000)
    && (d < 4_000_000_000 <==> e < 4_000_000_000)
    && (d < 240_000_000_000 <==> e < 240_000_000_000)
    && (d < 14_400_000_000_000 <==> e < 14_400_000_000_000)
    && (d < 345_600_000_000_000 <==> e < 345_600_000_000_000)
  }

  // Those share a queue, and no others.
  lemma TogetherExact(d: nat, e: nat)
    ensures WheelFor(d) == WheelFor(e) <==> Together(d, e)
  {
  }

  // What was left when it was queued.
  function LeftThen(b: Birth): nat { if b.deadline > b.added then b.deadline - b.added else 0 }

  // A timer `front` that keeps `id` from being returned at `now`.
  ghost predicate Blocks(s: System, front: nat, id: nat, now: Time)
    requires |s.y.queues| == 6
  {
    && front <= id < |s.births| && Held(s.y, front) > 0
    && Together(LeftThen(s.births[front]), LeftThen(s.births[id])) && s.births[front].deadline > now
  }

  lemma SameHome(a: Birth, b: Birth)
    ensures Home(a) == Home(b) <==> Together(LeftThen(a), LeftThen(b))
  {
    TogetherExact(LeftThen(a), LeftThen(b));
  }

  // On every run two timers that are held stand in one queue exactly when what
  // was left of each when it was queued is on the same side of the five bounds.
  lemma QueuesExact(run: Run, x: nat, y: nat)
    requires Clocked(run) && Held(Reach(run).y, x) > 0 && Held(Reach(run).y, y) > 0
    ensures var s := Reach(run);
      && x < |s.births| && y < |s.births|
      && ((exists w :: 0 <= w < 6 && Lists(s.y.queues[w], x) && Lists(s.y.queues[w], y))
          <==> Together(LeftThen(s.births[x]), LeftThen(s.births[y])))
  {
    hide Held, Reach, Together, LeftThen;
    var s, now := Reach(run), if run == [] then 0 else End(run[|run| - 1]);
    RunInOrder(run);
    HeldAtHome(s, now, x);
    HeldAtHome(s, now, y);
    SameHome(s.births[x], s.births[y]);
    HomeBelow(s.births[x]);
    forall w | 0 <= w < 6
      ensures Lists(s.y.queues[w], x) ==> Home(s.births[x]) == w
      ensures Lists(s.y.queues[w], y) ==> Home(s.births[y]) == w
    {
      if Lists(s.y.queues[w], x) { ListedAtHome(s, now, w, x); }
      if Lists(s.y.queues[w], y) { ListedAtHome(s, now, w, y); }
    }
  }

  lemma HomeBelow(b: Birth)
    ensures Home(b) < 6
  {
  }

  lemma ListedAtHome(s: System, now: Time, w: nat, id: nat)
    requires |s.y.queues| == 6 && InOrder(s, now) && w < 6 && Lists(s.y.queues[w], id)
    ensures id < |s.births| && Home(s.births[id]) == w
  {
    var i :| 0 <= i < |s.y.queues[w]| && s.y.queues[w][i].id == id;
    assert QueueOk(s.y.queues[w], w, s.births);
    assert Placed(s.y.queues[w][i], w, s.births);
  }

  lemma BlocksInQueue(s: System, now: Time, then_: Time, id: nat, i: nat)
    requires |s.y.queues| == 6 && InOrder(s, now) && id < |s.births|
    requires var q := s.y.queues[Home(s.births[id])]; i < |q| && q[i].id == id
    ensures (exists k :: 0 <= k <= i && s.y.queues[Home(s.births[id])][k].at > then_) <==>
      exists front: nat :: Blocks(s, front, id, then_)
  {
    var w := Home(s.births[id]);
    var q := s.y.queues[w];
    assert QueueOk(q, w, s.births);
    if k :| 0 <= k <= i && q[k].at > then_ {
      assert Placed(q[k], w, s.births);
      HeldAtHome(s, now, q[k].id);
      SameHome(s.births[q[k].id], s.births[id]);
      assert Blocks(s, q[k].id, id, then_);
    }
    if front: nat :| Blocks(s, front, id, then_) {
      HeldAtHome(s, now, front);
      SameHome(s.births[front], s.births[id]);
      var k :| 0 <= k < |q| && q[k].id == front;
      assert Placed(q[k], w, s.births);
    }
  }

  lemma PollStays(s: System, now: Time, id: nat, then_: Time)
    requires |s.y.queues| == 6 && InOrder(s, now) && Held(s.y, id) > 0 && now <= then_
    ensures Held(Poll(s.y, then_).0, id) > 0 <==> exists front: nat :: Blocks(s, front, id, then_)
  {
    HeldAtHome(s, now, id);
    var w := Home(s.births[id]);
    var q := s.y.queues[w];
    var i :| 0 <= i < |q| && q[i].id == id;
    assert QueueOk(q, w, s.births);
    StaysInQueue(q, then_, i);
    BlocksInQueue(s, now, then_, id, i);
    var op := PollAt(then_);
    PollKeepsOrder(s, op, now);
    HeldAtHome(Next(s, op), then_, id);
    PolledQueue(s.y, then_, w);
  }

  // On every run, a poll leaves a timer exactly when it or a timer of the same
  // wheel scheduled before it, and still held, is not due.
  lemma PollLeavesExact(run: Run, j: nat, id: nat)
    requires Clocked(run) && j < |run| && run[j].PollAt? && Held(Reach(run[..j]).y, id) > 0
    ensures Held(Reach(run[..j + 1]).y, id) > 0 <==> exists front: nat :: Blocks(Reach(run[..j]), front, id, run[j].now)
  {
    RunInOrder(run[..j]);
    ReachStep(run, j);
    PollStays(Reach(run[..j]), if j == 0 then 0 else End(run[j - 1]), id, run[j].now);
  }

  // The law that a poll returns every timer that is due, and when it holds:
  // when no due timer stands behind one of its wheel that is not.
  ghost predicate ReturnsDue(s: System, now: Time)
    requires |s.y.queues| == 6
  {
    forall id: nat :: id < |s.births| && Held(s.y, id) > 0 && s.births[id].deadline <= now ==>
      Held(Poll(s.y, now).0, id) == 0
  }

  ghost predicate NoneBlocked(s: System, now: Time)
    requires |s.y.queues| == 6
  {
    forall id: nat, front: nat :: Held(s.y, id) > 0 && Blocks(s, front, id, now) ==> s.births[id].deadline > now
  }

  lemma PollReturnsDue(s: System, then_: Time, now: Time)
    requires |s.y.queues| == 6 && InOrder(s, then_) && then_ <= now
    ensures ReturnsDue(s, now) <==> NoneBlocked(s, now)
  {
    if ReturnsDue(s, now) {
      forall id: nat, front: nat | Held(s.y, id) > 0 && Blocks(s, front, id, now)
        ensures s.births[id].deadline > now
      {
        PollStays(s, then_, id, now);
      }
    }
    if NoneBlocked(s, now) {
      forall id: nat | id < |s.births| && Held(s.y, id) > 0 && s.births[id].deadline <= now
        ensures Held(Poll(s.y, now).0, id) == 0
      {
        PollStays(s, then_, id, now);
      }
    }
  }

  lemma ReturnsDueExact(run: Run, j: nat)
    requires Clocked(run) && j < |run| && run[j].PollAt?
    ensures ReturnsDue(Reach(run[..j]), run[j].now) <==> NoneBlocked(Reach(run[..j]), run[j].now)
  {
    RunInOrder(run[..j]);
    PollReturnsDue(Reach(run[..j]), if j == 0 then 0 else End(run[j - 1]), run[j].now);
  }

  // 64 ms, 4 s, 4 min, 4 h and 4 days.
  predicate IsBound(t: nat) {
    t in {64_000_000, 4_000_000_000, 240_000_000_000, 14_400_000_000_000, 345_600_000_000_000}
  }

  lemma TogetherBelow(d: nat, e: nat, t: nat)
    requires Together(d, e) && IsBound(t) && e < t
    ensures d < t
  {
  }

  // A poll a bound after a timer with less than it left was queued leaves it in
  // no queue: what could block it was queued before it, on the same side.
  lemma PollDelivers(s: System, now: Time, id: nat, then_: Time, t: nat)
    requires |s.y.queues| == 6 && InOrder(s, now) && id < |s.births| && now <= then_
    requires IsBound(t) && LeftThen(s.births[id]) < t && s.births[id].added + t <= then_
    ensures Held(Poll(s.y, then_).0, id) == 0
  {
    if Held(s.y, id) > 0 {
      PollStays(s, now, id, then_);
      if front: nat :| Blocks(s, front, id, then_) {
        TogetherBelow(LeftThen(s.births[front]), LeftThen(s.births[id]), t);
      }
    } else {
      PollHolds(s.y, then_, id);
    }
  }

  lemma PollEmpties(s: System, now: Time, id: nat, op: Op, t: nat)
    requires |s.y.queues| == 6 && InOrder(s, now) && Conserved(s, id) && id < |s.births| && op.PollAt? && now <= op.now
    requires IsBound(t) && LeftThen(s.births[id]) < t && s.births[id].added + t <= op.now
    ensures var s' := Next(s, op);
      Held(s'.y, id) == 0 && Occurrences(s'.returned, id) + s'.cancelled[id] == 1
  {
    PollDelivers(s, now, id, op.now, t);
    StepConserves(s, op, id);
  }

  lemma NextGrows(s: System, op: Op)
    requires |s.y.queues| == 6
    ensures s.births <= Next(s, op).births
  {
  }

  lemma {:induction false} BirthsGrow(run: Run, i: nat)
    requires i <= |run|
    ensures Reach(run[..i]).births <= Reach(run).births
    decreases |run|
  {
    hide Next;
    if i < |run| {
      BirthsGrow(run[..|run| - 1], i);
      NextGrows(Reach(run[..|run| - 1]), run[|run| - 1]);
      assert run[..|run| - 1][..i] == run[..i];
    } else {
      assert run[..i] == run;
    }
  }

  // A timer with less than 64 ms, 4 s, 4 min, 4 h or 4 days left when it is
  // queued is out of its queue -- returned, or cancelled before -- after any
  // poll that much later, or more.
  lemma TimersPrompt(run: Run, i: nat, j: nat, t: nat)
    requires Clocked(run) && i < j < |run| && run[i].Schedule? && run[j].PollAt?
    requires t in {64_000_000, 4_000_000_000, 240_000_000_000, 14_400_000_000_000, 345_600_000_000_000}
    requires run[i].made + run[i].delay < run[i].added + t && run[i].added + t <= run[j].now
    ensures var id, s := Reach(run[..i]).y.nextId, Reach(run[..j + 1]);
      Held(s.y, id) == 0 && Occurrences(s.returned, id) + s.cancelled[id] == 1
  {
    var id := Reach(run[..i]).y.nextId;
    var before := run[..j];
    BornAs(run, i, j);
    InOrderBefore(run, j);
    TimersConserved(before, id);
    PollEmpties(Reach(before), End(run[j - 1]), id, run[j], t);
    ReachStep(run, j);
  }

  lemma InOrderBefore(run: Run, j: nat)
    requires Clocked(run) && 1 <= j < |run|
    ensures InOrder(Reach(run[..j]), End(run[j - 1])) && End(run[j - 1]) <= Start(run[j])
  {
    RunInOrder(run[..j]);
  }

  lemma ReachStep(run: Run, j: nat)
    requires j < |run|
    ensures Reach(run[..j + 1]) == Next(Reach(run[..j]), run[j])
  {
    assert run[..j + 1][..j] == run[..j];
  }

  lemma BornNext(s: System, op: Op)
    requires |s.y.queues| == 6 && op.Schedule?
    ensures Next(s, op).births == s.births + [Birth(op.made + op.delay, op.added, op.delay, op.repeating)]
  {
  }

  // The timer scheduled by operation i is the one with the next id, from then on.
  lemma BornAs(run: Run, i: nat, j: nat)
    requires i < j <= |run| && run[i].Schedule?
    ensures var id, births := Reach(run[..i]).y.nextId, Reach(run[..j]).births;
      id < |births| && births[id] == Birth(run[i].made + run[i].delay, run[i].added, run[i].delay, run[i].repeating)
  {
    hide Held, Occurrences, Next, Reach;
    TimersConserved(run[..i], 0);
    ReachStep(run, i);
    BornNext(Reach(run[..i]), run[i]);
    assert run[..j][..i + 1] == run[..i + 1];
    BirthsGrow(run[..j], i + 1);
  }

  lemma {:induction false} FrontIsDue(q: seq<Timer>, now: Time, repeatingOk: bool, id: nat)
    requires Occurrences(Front(q, now, repeatingOk), id) > 0
    ensures exists i :: 0 <= i < |q| && q[i].id == id && q[i].at <= now
  {
    if q[0].id == id {
      assert q[0].at <= now;
    } else {
      FrontIsDue(q[1..], now, repeatingOk, id);
      var i :| 0 <= i < |q[1..]| && q[1..][i].id == id && q[1..][i].at <= now;
      assert q[i + 1].id == id;
    }
  }

  // What a poll returns was due.
  lemma TimersNeverEarly(run: Run, j: nat, id: nat)
    requires Clocked(run) && j < |run| && run[j].PollAt?
    requires Occurrences(Poll(Reach(run[..j]).y, run[j].now).1, id) > 0
    ensures id < |Reach(run[..j]).births| && Reach(run[..j]).births[id].deadline <= run[j].now
  {
    var s, now := Reach(run[..j]), run[j].now;
    RunInOrder(run[..j]);
    PollIsFronts(s.y, now);
    var w := FromSomeQueue(s.y, now, 6, id);
    FrontIsDue(s.y.queues[w], now, w < 5, id);
    var i :| 0 <= i < |s.y.queues[w]| && s.y.queues[w][i].id == id && s.y.queues[w][i].at <= now;
    assert QueueOk(s.y.queues[w], w, s.births);
    assert Placed(s.y.queues[w][i], w, s.births);
  }

  // ---- What a poll returns -------------------------------------------------

  // Which operation scheduled a timer.
  lemma {:induction false} ScheduledBy(run: Run, id: nat) returns (i: nat)
    requires id < |Reach(run).births|
    ensures i < |run| && run[i].Schedule? && Reach(run[..i]).y.nextId == id
  {
    hide Next, Held, Occurrences;
    var last := |run| - 1;
    var before := run[..last];
    TimersConserved(before, 0);
    if id < |Reach(before).births| {
      i := ScheduledBy(before, id);
      assert run[..i] == before[..i];
    } else {
      NextBirths(Reach(before), run[last]);
      i := last;
    }
  }

  lemma NextBirths(s: System, op: Op)
    requires |s.y.queues| == 6
    ensures |Next(s, op).births| == |s.births| + if op.Schedule? then 1 else 0
  {
  }

  // The first of a queue, one by one, as they were, but for the next deadline
  // of those that repeat.
  lemma {:induction false} FrontAt(q: seq<Timer>, now: Time, repeatingOk: bool, k: nat)
    requires k < |Front(q, now, repeatingOk)|
    ensures k < |q| && Front(q, now, repeatingOk)[k] == Returned(q[k], now, repeatingOk) && q[k].at <= now
  {
    if k > 0 {
      FrontAt(q[1..], now, repeatingOk, k - 1);
      assert q[k] == q[1..][k - 1];
    }
  }

  // What the queues before w contribute.
  function Fronts(y: Wheels, now: Time, w: nat): seq<Timer>
    requires |y.queues| == 6 && w <= 6
  {
    if w == 0 then [] else Fronts(y, now, w - 1) + Front(y.queues[w - 1], now, w - 1 < 5)
  }

  lemma PollIsFronts(y: Wheels, now: Time)
    requires |y.queues| == 6
    ensures Poll(y, now).1 == Fronts(y, now, 6)
  {
    hide Front, Rest;
    var q := y.queues;
    var f0, f1, f2, f3, f4 := Front(q[0], now, true), Front(q[1], now, true), Front(q[2], now, true),
                              Front(q[3], now, true), Front(q[4], now, true);
    assert Fronts(y, now, 1) == f0;
    assert Fronts(y, now, 2) == f0 + f1;
    assert Fronts(y, now, 3) == f0 + f1 + f2;
    assert Fronts(y, now, 4) == f0 + f1 + f2 + f3;
    assert Fronts(y, now, 5) == f0 + f1 + f2 + f3 + f4;
  }

  lemma {:induction false} FrontsAt(y: Wheels, now: Time, v: nat, k: nat) returns (w: nat, m: nat)
    requires |y.queues| == 6 && v <= 6 && k < |Fronts(y, now, v)|
    ensures w < v && m < |Front(y.queues[w], now, w < 5)| && Fronts(y, now, v)[k] == Front(y.queues[w], now, w < 5)[m]
    ensures k == |Fronts(y, now, w)| + m
  {
    hide Front;
    if k < |Fronts(y, now, v - 1)| {
      w, m := FrontsAt(y, now, v - 1, k);
    } else {
      w, m := v - 1, k - |Fronts(y, now, v - 1)|;
    }
  }

  // The k-th timer that a poll returns, by queue and place.
  lemma ReadyAt(y: Wheels, now: Time, k: nat) returns (w: nat, m: nat)
    requires |y.queues| == 6 && k < |Poll(y, now).1|
    ensures w < 6 && m < |Front(y.queues[w], now, w < 5)| && Poll(y, now).1[k] == Front(y.queues[w], now, w < 5)[m]
    ensures k == |Fronts(y, now, w)| + m
  {
    hide Front, Poll, Fronts;
    PollIsFronts(y, now);
    w, m := FrontsAt(y, now, 6, k);
  }

  // Whatever a poll returns was scheduled by some operation: it carries its id
  // and interval, and its deadline, which has come; one that repeats carries
  // instead the deadline an interval from now, unless it had four days or more
  // left when it was queued.
  lemma PollReturnsScheduled(run: Run, j: nat, k: nat) returns (i: nat)
    requires Clocked(run) && j < |run| && run[j].PollAt? && k < |Poll(Reach(run[..j]).y, run[j].now).1|
    ensures i < j && run[i].Schedule?
    ensures run[i].made + run[i].delay <= run[j].now
    ensures var again := run[i].repeating && run[i].made + run[i].delay < run[i].added + 345_600_000_000_000;
      Poll(Reach(run[..j]).y, run[j].now).1[k] == Timer(
        Reach(run[..i]).y.nextId,
        if again then run[j].now + run[i].delay else run[i].made + run[i].delay,
        run[i].repeating, run[i].delay)
  {
    hide Poll, Reach, Front, Held, Occurrences;
    var s, now := Reach(run[..j]), run[j].now;
    RunInOrder(run[..j]);
    var w, m := ReadyAt(s.y, now, k);
    FrontAt(s.y.queues[w], now, w < 5, m);
    assert QueueOk(s.y.queues[w], w, s.births);
    var t := s.y.queues[w][m];
    assert Placed(t, w, s.births);
    i := ScheduledBy(run[..j], t.id);
    assert run[..j][..i] == run[..i];
    BornAs(run, i, j);
  }

  // Timers come back shortest delays first, by the side of the five bounds on
  // which they were queued; on the same side in order of scheduling.
  lemma PollOrder(run: Run, j: nat, a: nat, b: nat)
    requires Clocked(run) && j < |run| && run[j].PollAt? && a < b < |Poll(Reach(run[..j]).y, run[j].now).1|
    ensures var ready, births := Poll(Reach(run[..j]).y, run[j].now).1, Reach(run[..j]).births;
      var x, y := ready[a].id, ready[b].id;
      && x < |births| && y < |births|
      && (if Together(LeftThen(births[x]), LeftThen(births[y])) then x < y
          else LeftThen(births[x]) < LeftThen(births[y]))
  {
    hide Poll, Reach, Front, Held, Occurrences;
    var s, now := Reach(run[..j]), run[j].now;
    RunInOrder(run[..j]);
    var v, m := ReadyAt(s.y, now, a);
    var w, n := ReadyAt(s.y, now, b);
    FrontsGrow(s.y, now, v, w);
    FrontsGrow(s.y, now, w, v);
    FrontAt(s.y.queues[v], now, v < 5, m);
    FrontAt(s.y.queues[w], now, w < 5, n);
    assert QueueOk(s.y.queues[v], v, s.births) && QueueOk(s.y.queues[w], w, s.births);
    assert Placed(s.y.queues[v][m], v, s.births) && Placed(s.y.queues[w][n], w, s.births);
    SameHome(s.births[s.y.queues[v][m].id], s.births[s.y.queues[w][n].id]);
  }

  lemma {:induction false} FrontsGrow(y: Wheels, now: Time, v: nat, w: nat)
    requires |y.queues| == 6 && v <= 6 && w <= 6
    ensures v < w ==> |Fronts(y, now, v)| + |Front(y.queues[v], now, v < 5)| <= |Fronts(y, now, w)|
  {
    hide Front;
    if v + 1 < w { FrontsGrow(y, now, v, w - 1); }
  }

  lemma {:induction false} FromSomeQueue(y: Wheels, now: Time, v: nat, id: nat) returns (w: nat)
    requires |y.queues| == 6 && v <= 6 && Occurrences(Fronts(y, now, v), id) > 0
    ensures w < v && Occurrences(Front(y.queues[w], now, w < 5), id) > 0
  {
    hide Front;
    Append(Fronts(y, now, v - 1), Front(y.queues[v - 1], now, v - 1 < 5), id);
    if Occurrences(Fronts(y, now, v - 1), id) > 0 {
      w := FromSomeQueue(y, now, v - 1, id);
    } else {
      w := v - 1;
    }
  }

  // ---- Where promptness ends -----------------------------------------------

  // Two timers queued one after the other in the same wheel.
  lemma TwoQueued(a: nat, b: nat)
    requires WheelFor(a) == WheelFor(b)
    ensures var s := Reach([Schedule(a, false, 0, 0), Schedule(b, false, 0, 0)]);
      && s.births == [Birth(a, 0, a, false), Birth(b, 0, b, false)]
      && s.y.queues == Empty.queues[WheelFor(a) := [Timer(0, a, false, a), Timer(1, b, false, b)]]
  {
    hide WheelFor, Next, Reach;
    var run, w := [Schedule(a, false, 0, 0), Schedule(b, false, 0, 0)], WheelFor(a);
    var t0, t1 := Timer(0, a, false, a), Timer(1, b, false, b);
    assert run[..0] == [] && run[..2] == run;
    ReachNothing();
    ReachStep(run, 0);
    ReachStep(run, 1);
    QueuedNext(Idle, a, w, []);
    QueuedNext(Next(Idle, run[0]), b, w, [t0]);
    SetTwice(Empty.queues, w, [t0], [t0] + [t1]);
    assert [] + [t0] == [t0] && [t0] + [t1] == [t0, t1];
  }

  lemma SetTwice(queues: seq<seq<Timer>>, w: nat, x: seq<Timer>, y: seq<Timer>)
    requires w < |queues|
    ensures queues[w := x][w := y] == queues[w := y]
  {
  }

  lemma ReachNothing()
    ensures Reach([]) == Idle
  {
  }

  lemma QueuedNext(s: System, delay: nat, w: nat, q: seq<Timer>)
    requires |s.y.queues| == 6 && w == WheelFor(delay) && s.y.queues[w] == q
    ensures var s' := Next(s, Schedule(delay, false, 0, 0));
      && s'.births == s.births + [Birth(delay, 0, delay, false)] && s'.y.nextId == s.y.nextId + 1
      && s'.y.queues == s.y.queues[w := q + [Timer(s.y.nextId, delay, false, delay)]]
  {
    hide WheelFor;
  }

  // In the last wheel nothing bounds the wait: behind a timer due `late` later,
  // one that is due is not returned until then.
  lemma LastWheelUnbounded(late: nat) returns (run: Run, now: Time)
    requires late >= 1
    ensures Clocked(run) && |Reach(run).births| == 2
    ensures forall b :: b in Reach(run).births ==> LeftThen(b) >= 345_600_000_000_000
    ensures Reach(run).births[1].deadline + late - 1 == now
    ensures Occurrences(Poll(Reach(run).y, now).1, 1) == 0 && Occurrences(Poll(Reach(run).y, now).0.queues[5], 1) == 1
  {
    var days := 345_600 * SECOND;
    run, now := [Schedule(days + late, false, 0, 0), Schedule(days, false, 0, 0)], days + late - 1;
    TwoQueued(days + late, days);
    SecondStays(run, days + late, days, now);
  }

  // The second of two timers queued in one wheel waits for the first.
  lemma SecondStays(run: Run, a: nat, b: nat, now: Time)
    requires WheelFor(a) == WheelFor(b) && run == [Schedule(a, false, 0, 0), Schedule(b, false, 0, 0)] && now < a
    ensures var (y, ready) := Poll(Reach(run).y, now);
      Held(y, 1) == 1 && Occurrences(ready, 1) == 0 && Occurrences(y.queues[WheelFor(b)], 1) == 1
  {
    hide Poll, Reach, Next, WheelFor, Occurrences, Held;
    var s, w := Reach(run), WheelFor(b);
    TogetherExact(a, b);
    TwoQueued(a, b);
    assert Clocked(run);
    RunInOrder(run);
    var q := [Timer(0, a, false, a), Timer(1, b, false, b)];
    assert s.y.queues[w] == q && q[0].id == 0 && q[1].id == 1;
    HeldAtHome(s, 0, 0);
    HeldAtHome(s, 0, 1);
    assert Blocks(s, 0, 1, now);
    PollStays(s, 0, 1, now);
    TimersConserved(run, 1);
    PollHolds(s.y, now, 1);
    SecondAtHome(s, now, w);
  }

  lemma SecondAtHome(s: System, now: Time, w: nat)
    requires |s.y.queues| == 6 && InOrder(s, 0) && 1 < |s.births| && Home(s.births[1]) == w
    requires Held(Poll(s.y, now).0, 1) == 1
    ensures Occurrences(Poll(s.y, now).0.queues[w], 1) == 1
  {
    hide InOrder, Rest;
    var op := PollAt(now);
    PollKeepsOrder(s, op, 0);
    HeldAtHome(Next(s, op), now, 1);
    ListsCounts(Poll(s.y, now).0.queues[w], 1);
  }

  // A poll returns nothing exactly when no queue's front is due, whatever
  // stands behind the fronts.
  lemma PollReturnsNothing(y: Wheels, now: Time)
    requires |y.queues| == 6
    ensures Poll(y, now).1 == [] <==> forall w :: 0 <= w < 6 ==> y.queues[w] == [] || y.queues[w][0].at > now
  {
    hide Front, Rest;
    forall w | 0 <= w < 6
      ensures Front(y.queues[w], now, w < 5) == [] <==> y.queues[w] == [] || y.queues[w][0].at > now
    {
      FrontEmpty(y.queues[w], now, w < 5);
    }
  }

  lemma FrontEmpty(q: seq<Timer>, now: Time, repeatingOk: bool)
    ensures Front(q, now, repeatingOk) == [] <==> q == [] || q[0].at > now
  {
  }

  // So the time to the next deadline can be over while a poll returns nothing.
  lemma DueButBlocked() returns (run: Run, now: Time)
    ensures Clocked(run)
    ensures exists t :: t in Pending(Reach(run).y) && Left(t.at, now) == 0
    ensures Poll(Reach(run).y, now).1 == [] && Held(Poll(Reach(run).y, now).0, 1) == 1
  {
    run, now := [Schedule(60 * MILLI, false, 0, 0), Schedule(MILLI, false, 0, 0)], MILLI;
    TwoQueued(60 * MILLI, MILLI);
    SecondStays(run, 60 * MILLI, MILLI, now);
    var q := [Timer(0, 60 * MILLI, false, 60 * MILLI), Timer(1, MILLI, false, MILLI)];
    assert Reach(run).y.queues[0] == q;
    PendingIsAll(Reach(run).y.queues);
    assert q[1] in Pending(Reach(run).y);
    PollReturnsNothing(Reach(run).y, now);
  }
}
