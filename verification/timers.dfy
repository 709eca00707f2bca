// The timer wheels: six first-in first-out queues picked by delay, polled from
// the front (crates/core/src/timer.rs).
module Timers {
  import opened Prelude

  // Nanoseconds on a monotonic clock.
  type Time = nat

  const MILLI: nat := 1_000_000
  const SECOND: nat := 1_000_000_000

  datatype Timer = Timer(id: nat, at: Time, repeating: bool, interval: nat)

  // The six queues, shortest delays first, and the next id to give out.
  datatype Wheels = Wheels(queues: seq<seq<Timer>>, nextId: nat)

  const Empty: Wheels := Wheels([[], [], [], [], [], []], 0)

  function WheelFor(delay: nat): (w: nat)
    ensures w < 6
  {
    if delay / MILLI < 64 then 0
    else if delay / SECOND < 4 then 1
    else if delay / SECOND < 240 then 2
    else if delay / SECOND < 14_400 then 3
    else if delay / SECOND < 345_600 then 4
    else 5
  }

  function Left(at: Time, now: Time): nat { if at > now then at - now else 0 }

  function AddTimer(y: Wheels, t: Timer, now: Time): Wheels
    requires |y.queues| == 6
  {
    var w := WheelFor(Left(t.at, now));
    y.(queues := y.queues[w := y.queues[w] + [t]])
  }

  // A returned repeating timer carries its next deadline, except from the last wheel.
  function Returned(t: Timer, now: Time, repeatingOk: bool): Timer {
    if repeatingOk && t.repeating then t.(at := now + t.interval) else t
  }

  // What one poll takes off a queue, and what it leaves.
  function Front(q: seq<Timer>, now: Time, repeatingOk: bool): seq<Timer> {
    if q == [] || q[0].at > now then [] else [Returned(q[0], now, repeatingOk)] + Front(q[1..], now, repeatingOk)
  }

  lemma FrontStep(done: seq<Timer>, q: seq<Timer>, now: Time, repeatingOk: bool)
    requires q != [] && q[0].at <= now
    ensures done + Front(q, now, repeatingOk)
      == done + [Returned(q[0], now, repeatingOk)] + Front(q[1..], now, repeatingOk)
  {
  }

  function Rest(q: seq<Timer>, now: Time): seq<Timer> {
    if q == [] || q[0].at > now then q else Rest(q[1..], now)
  }

  function Poll(y: Wheels, now: Time): (Wheels, seq<Timer>)
    requires |y.queues| == 6
  {
    var q := y.queues;
    (y.(queues :=
      [Rest(q[0], now), Rest(q[1], now), Rest(q[2], now), Rest(q[3], now), Rest(q[4], now), Rest(q[5], now)]),
     Front(q[0], now, true) + Front(q[1], now, true) + Front(q[2], now, true)
     + Front(q[3], now, true) + Front(q[4], now, true) + Front(q[5], now, false))
  }

  function Position(q: seq<Timer>, id: nat): (p: Option<nat>)
    ensures p.None? <==> forall i :: 0 <= i < |q| ==> q[i].id != id
    ensures p.Some? ==> p.value < |q| && q[p.value].id == id && forall i :: 0 <= i < p.value ==> q[i].id != id
  {
    if q == [] then None
    else if q[0].id == id then Some(0)
    else match Position(q[1..], id) case None => None case Some(p) => Some(p + 1)
  }

  // The first queue from w on that holds `id`.
  function Holder(queues: seq<seq<Timer>>, id: nat, w: nat): (r: Option<nat>)
    requires w <= |queues|
    ensures r.Some? ==> w <= r.value < |queues| && Position(queues[r.value], id).Some?
    ensures forall v :: w <= v < (if r.Some? then r.value else |queues|) ==> Position(queues[v], id).None?
    decreases |queues| - w
  {
    if w == |queues| then None
    else if Position(queues[w], id).Some? then Some(w)
    else Holder(queues, id, w + 1)
  }

  function Without(q: seq<Timer>, id: nat): seq<Timer> {
    match Position(q, id) case None => q case Some(p) => q[..p] + q[p + 1..]
  }

  function Cancel(y: Wheels, id: nat): (Wheels, bool)
    requires |y.queues| == 6
  {
    match Holder(y.queues, id, 0)
    case None => (y, false)
    case Some(w) => (y.(queues := y.queues[w := Without(y.queues[w], id)]), true)
  }

  // ---- The wheel as the program keeps it -----------------------------------

  class TimerWheel {
    var wheelMs: seq<Timer>
    var wheelS: seq<Timer>
    var wheelM: seq<Timer>
    var wheelH: seq<Timer>
    var wheelD: seq<Timer>
    var wheelLarge: seq<Timer>
    var nextTimerId: nat

    ghost function View(): (y: Wheels)
      reads this
      ensures |y.queues| == 6
    {
      Wheels([wheelMs, wheelS, wheelM, wheelH, wheelD, wheelLarge], nextTimerId)
    }

    constructor ()
      ensures View() == Empty
    {
      wheelMs, wheelS, wheelM, wheelH, wheelD, wheelLarge := [], [], [], [], [], [];
      nextTimerId := 0;
    }

    // `made` is the clock when the deadline is set, `added` when it is queued.
    method Schedule(delay: nat, repeating: bool, made: Time, added: Time) returns (id: nat)
      modifies this
      ensures id == old(View()).nextId
      ensures View() == AddTimer(old(View()).(nextId := id + 1), Timer(id, made + delay, repeating, delay), added)
    {
      id := nextTimerId;
      nextTimerId := nextTimerId + 1;
      Add(Timer(id, made + delay, repeating, delay), added);
    }

    method Add(t: Timer, now: Time)
      modifies this
      ensures View() == AddTimer(old(View()), t, now)
    {
      var delay := Left(t.at, now);
      if delay / MILLI < 64 {
        wheelMs := wheelMs + [t];
      } else if delay / SECOND < 4 {
        wheelS := wheelS + [t];
      } else if delay / SECOND < 240 {
        wheelM := wheelM + [t];
      } else if delay / SECOND < 14_400 {
        wheelH := wheelH + [t];
      } else if delay / SECOND < 345_600 {
        wheelD := wheelD + [t];
      } else {
        wheelLarge := wheelLarge + [t];
      }
    }

    // Pop ready timers off the front; the first one not ready goes back and
    // ends the loop, ready ones behind it or not.
    static method PollWheel(wheel0: seq<Timer>, now: Time, repeatingOk: bool)
        returns (wheel: seq<Timer>, ready: seq<Timer>)
      ensures wheel == Rest(wheel0, now) && ready == Front(wheel0, now, repeatingOk)
    {
      wheel, ready := wheel0, [];
      while wheel != []
        invariant Rest(wheel, now) == Rest(wheel0, now)
        invariant ready + Front(wheel, now, repeatingOk) == Front(wheel0, now, repeatingOk)
        decreases |wheel|
      {
        var timer := wheel[0];
        if timer.at <= now {
          FrontStep(ready, wheel, now, repeatingOk);
          wheel := wheel[1..];
          if repeatingOk && timer.repeating {
            ready := ready + [timer.(at := now + timer.interval)];
          } else {
            ready := ready + [timer];
          }
        } else {
          break;
        }
      }
    }

    method PollAll(now: Time) returns (ready: seq<Timer>)
      modifies this
      ensures (View(), ready) == Poll(old(View()), now)
    {
      var more;
      wheelMs, ready := PollWheel(wheelMs, now, true);
      wheelS, more := PollWheel(wheelS, now, true);
      ready := ready + more;
      wheelM, more := PollWheel(wheelM, now, true);
      ready := ready + more;
      wheelH, more := PollWheel(wheelH, now, true);
      ready := ready + more;
      wheelD, more := PollWheel(wheelD, now, true);
      ready := ready + more;
      wheelLarge, more := PollWheel(wheelLarge, now, false);
      ready := ready + more;
    }

    static method Remove(wheel0: seq<Timer>, id: nat) returns (wheel: seq<Timer>, found: bool)
      ensures found <==> Position(wheel0, id).Some?
      ensures wheel == Without(wheel0, id)
    {
      var i := 0;
      while i < |wheel0|
        invariant i <= |wheel0| && forall j :: 0 <= j < i ==> wheel0[j].id != id
      {
        if wheel0[i].id == id {
          assert Position(wheel0, id) == Some(i);
          return wheel0[..i] + wheel0[i + 1..], true;
        }
        i := i + 1;
      }
      return wheel0, false;
    }

    // Write one queue back, as the loop over the six `&mut` queues does.
    method SetQueue(w: nat, q: seq<Timer>)
      requires w < 6
      modifies this
      ensures View() == old(View()).(queues := old(View()).queues[w := q])
    {
      match w {
        case 0 => wheelMs := q;
        case 1 => wheelS := q;
        case 2 => wheelM := q;
        case 3 => wheelH := q;
        case 4 => wheelD := q;
        case _ => wheelLarge := q;
      }
    }

    // The first queue that holds the timer, and that queue without it.
    static method RemoveFirst(queues: seq<seq<Timer>>, id: nat) returns (holder: Option<nat>, q: seq<Timer>)
      ensures holder == Holder(queues, id, 0)
      ensures holder.Some? ==> q == Without(queues[holder.value], id)
    {
      for w := 0 to |queues|
        invariant Holder(queues, id, 0) == Holder(queues, id, w)
      {
        var found;
        q, found := Remove(queues[w], id);
        if found { return Some(w), q; }
      }
      return None, [];
    }

    method CancelTimer(id: nat) returns (found: bool)
      modifies this
      ensures (View(), found) == Cancel(old(View()), id)
    {
      var holder, q := RemoveFirst([wheelMs, wheelS, wheelM, wheelH, wheelD, wheelLarge], id);
      found := holder.Some?;
      if found { SetQueue(holder.value, q); }
    }

    method NextDuration(now: Time) returns (d: Option<nat>)
      ensures d == None <==> Pending(View()) == []
      ensures d.Some? ==> IsLeast(d.value, Pending(View()), now)
    {
      var all := wheelMs + wheelS + wheelM + wheelH + wheelD + wheelLarge;
      PendingIsAll(View().queues);
      assert all == Pending(View());
      d := None;
      for i := 0 to |all|
        invariant d == None <==> i == 0
        invariant d.Some? ==> IsLeast(d.value, all[..i], now)
      {
        var left := Left(all[i].at, now);
        assert all[..i + 1] == all[..i] + [all[i]];
        ghost var was := d;
        d := if d.None? then Some(left) else Some(Min(d.value, left));
        assert all[i] in all[..i + 1];
        if was.Some? && d == was {
          var t :| t in all[..i] && was.value == Left(t.at, now);
          assert t in all[..i + 1];
        }
      }
      assert all[..|all|] == all;
    }
  }

  // d is the least time left to any of the timers.
  ghost predicate IsLeast(d: nat, timers: seq<Timer>, now: Time) {
    (forall t :: t in timers ==> d <= Left(t.at, now)) && (exists t :: t in timers && d == Left(t.at, now))
  }

  function Concat(queues: seq<seq<Timer>>): seq<Timer> {
    if queues == [] then [] else Concat(queues[..|queues| - 1]) + queues[|queues| - 1]
  }

  function Pending(y: Wheels): seq<Timer> { Concat(y.queues) }

  lemma PendingIsAll(q: seq<seq<Timer>>)
    requires |q| == 6
    ensures Concat(q) == q[0] + q[1] + q[2] + q[3] + q[4] + q[5]
  {
    assert q[..5][..4] == q[..4] && q[..4][..3] == q[..3] && q[..3][..2] == q[..2] && q[..2][..1] == q[..1]
      && q[..1][..0] == [];
    assert Concat(q[..1]) == q[0];
    assert Concat(q[..2]) == q[0] + q[1];
    assert Concat(q[..3]) == q[0] + q[1] + q[2];
    assert Concat(q[..4]) == q[0] + q[1] + q[2] + q[3];
    assert Concat(q[..5]) == q[0] + q[1] + q[2] + q[3] + q[4];
  }
}
