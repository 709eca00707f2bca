// What the trie of a profile guarantees, and the way back from its table to
// the samples (crates/js/src/profiler.rs, crates/cli/src/main.rs).
module ProfileTheorems {
  import opened Prelude
  import opened ProfileTrie

  // ---- The trie is canonical -----------------------------------------------

  lemma ReversedInjective<T>(s: seq<T>, t: seq<T>)
    ensures Reversed(s) == Reversed(t) <==> s == t
  {
    if Reversed(s) == Reversed(t) {
      assert |s| == |t|;
      forall i | 0 <= i < |s|
        ensures s[i] == t[i]
      {
        assert Reversed(s)[|s| - 1 - i] == s[i] && Reversed(t)[|t| - 1 - i] == t[i];
      }
    }
  }

  // Two samples share an id exactly when their stacks are equal.
  lemma SameIdSameStack(p: CpuProfile, samples: seq<Sample>, startMs: nat, i: nat, j: nat)
    requires Profiles(p, samples, startMs) && i < |samples| && j < |samples|
    ensures p.sampleIds[i] == p.sampleIds[j] <==> samples[i].frames == samples[j].frames
  {
    var ps := Prefixes(samples);
    assert IdOf(p.sampleIds[i], Stack(samples[i]), ps) && IdOf(p.sampleIds[j], Stack(samples[j]), ps);
    ReversedInjective(samples[i].frames, samples[j].frames);
  }

  // A root-side prefix of some sample's stack.
  ghost predicate Occurs(samples: seq<Sample>, path: Path) {
    exists n, m :: OccursAt(samples, path, n, m)
  }

  predicate OccursAt(samples: seq<Sample>, path: Path, n: int, m: int) {
    0 <= n < |samples| && 0 <= m <= |Stack(samples[n])| && path == Stack(samples[n])[..m]
  }

  lemma {:induction false} MetOrPrefix(ps: seq<Path>, stack: Path, n: nat, path: Path)
    requires n <= |stack|
    ensures path in MeetPrefixes(ps, stack, n) <==> path in ps || exists m :: 1 <= m <= n && path == stack[..m]
  {
    if n > 0 {
      MetOrPrefix(ps, stack, n - 1, path);
    }
  }

  lemma {:induction false} PathsOccur(samples: seq<Sample>, path: Path)
    requires path != [] && path in Prefixes(samples)
    ensures Occurs(samples, path)
  {
    if samples != [] {
      var before, last := samples[..|samples| - 1], |samples| - 1;
      var stack := Stack(samples[last]);
      MetOrPrefix(Prefixes(before), stack, |stack|, path);
      if path in Prefixes(before) {
        PathsOccur(before, path);
        var n, m :| OccursAt(before, path, n, m);
        assert OccursAt(samples, path, n, m);
      } else {
        var m :| 1 <= m <= |stack| && path == stack[..m];
        assert OccursAt(samples, path, last, m);
      }
    }
  }

  lemma {:induction false} OccurrencesAreMet(samples: seq<Sample>, path: Path, n: nat, m: nat)
    requires path != [] && OccursAt(samples, path, n, m)
    ensures path in Prefixes(samples)
  {
    var before, last := samples[..|samples| - 1], |samples| - 1;
    var stack := Stack(samples[last]);
    MetOrPrefix(Prefixes(before), stack, |stack|, path);
    if n < last {
      OccurrencesAreMet(before, path, n, m);
    }
  }

  // Below the root, nodes and non-empty prefixes of stacks are one to one:
  // every node stands for one, every one has exactly one node.
  lemma NodesArePrefixes(p: CpuProfile, samples: seq<Sample>, startMs: nat, path: Path)
    requires Profiles(p, samples, startMs) && path != []
    ensures Occurs(samples, path) <==> exists id :: 2 <= id < |p.nodes| && IdOf(id, path, Prefixes(samples))
    ensures forall id, id' :: IdOf(id, path, Prefixes(samples)) && IdOf(id', path, Prefixes(samples)) ==> id == id'
  {
    var ps := Prefixes(samples);
    if Occurs(samples, path) {
      var n, m :| OccursAt(samples, path, n, m);
      OccurrencesAreMet(samples, path, n, m);
    }
    if path in ps {
      PathsOccur(samples, path);
      var j :| 0 <= j < |ps| && ps[j] == path;
      assert IdOf(j + 1, path, ps);
    }
  }

  // A child's id exceeds its parent's.
  lemma ChildrenAreLater(p: CpuProfile, samples: seq<Sample>, startMs: nat, i: nat, k: Frame)
    requires Profiles(p, samples, startMs) && 1 <= i < |p.nodes| && k in p.nodes[i].children
    ensures i < p.nodes[i].children[k] < |p.nodes|
  {
    var ps, c := Prefixes(samples), p.nodes[i].children[k];
    assert NodeHolds(p.nodes, ps, i);
    assert ps[c - 1] == Longer(ps[i - 1], k);
    assert Parent(ps[c - 1]) == ps[i - 1];
    assert Extends(ps, c - 1);
  }

  function SumHits(nodes: seq<Node>): nat {
    if nodes == [] then 0 else nodes[0].hits + SumHits(nodes[1..])
  }

  function TotalHits(ps: seq<Path>, samples: seq<Sample>): nat {
    if ps == [] then 0 else Hits(samples, ps[0]) + TotalHits(ps[1..], samples)
  }

  lemma {:induction false} NoHitsYet(ps: seq<Path>)
    ensures TotalHits(ps, []) == 0
  {
    if ps != [] { NoHitsYet(ps[1..]); }
  }

  lemma {:induction false} OneMoreHit(ps: seq<Path>, samples: seq<Sample>)
    requires samples != []
    requires forall i, j :: 0 <= i < j < |ps| ==> ps[i] != ps[j]
    ensures TotalHits(ps, samples) == TotalHits(ps, samples[..|samples| - 1])
      + (if Stack(samples[|samples| - 1]) in ps then 1 else 0)
  {
    if ps != [] { OneMoreHit(ps[1..], samples); }
  }

  lemma {:induction false} AllHitsCounted(ps: seq<Path>, samples: seq<Sample>)
    requires forall i, j :: 0 <= i < j < |ps| ==> ps[i] != ps[j]
    requires forall n :: 0 <= n < |samples| ==> Stack(samples[n]) in ps
    ensures TotalHits(ps, samples) == |samples|
  {
    if samples == [] {
      NoHitsYet(ps);
    } else {
      OneMoreHit(ps, samples);
      AllHitsCounted(ps, samples[..|samples| - 1]);
    }
  }

  lemma {:induction false} SumsAgree(nodes: seq<Node>, ps: seq<Path>, samples: seq<Sample>)
    requires |nodes| == |ps| && forall i :: 0 <= i < |nodes| ==> nodes[i].hits == Hits(samples, ps[i])
    ensures SumHits(nodes) == TotalHits(ps, samples)
  {
    if nodes != [] { SumsAgree(nodes[1..], ps[1..], samples); }
  }

  // Hit counts sum to the number of samples.
  lemma HitsSumToSamples(p: CpuProfile, samples: seq<Sample>, startMs: nat)
    requires Profiles(p, samples, startMs)
    ensures SumHits(p.nodes[1..]) == |samples|
  {
    var ps := Prefixes(samples);
    SumsAgree(p.nodes[1..], ps, samples);
    forall n | 0 <= n < |samples|
      ensures Stack(samples[n]) in ps
    {
      assert IdOf(p.sampleIds[n], Stack(samples[n]), ps);
    }
    AllHitsCounted(ps, samples);
  }
}

module ProfileRebuild {
  import opened ProfileRecording
  import opened Prelude
  import opened ProfileTrie

  // ---- The profile file as a table -----------------------------------------

  // One node of the file: its id, its frame, the ids of its children.
  datatype Row = Row(id: nat, frame: Frame, children: seq<nat>)

  ghost predicate SameChildren(ids: seq<nat>, children: map<Frame, nat>) {
    && (forall c :: c in ids ==> exists k :: k in children && children[k] == c)
    && (forall k :: k in children ==> children[k] in ids)
  }

  // How a profile is written: node by node, the children in any order.
  ghost predicate Written(nodes: seq<Node>, table: seq<Row>) {
    && |nodes| == |table| + 1
    && (forall i :: 0 <= i < |table| ==> table[i].id == i + 1 && table[i].frame == nodes[i + 1].shown)
    && (forall i :: 0 <= i < |table| ==> SameChildren(table[i].children, nodes[i + 1].children))
  }

  // ---- Reading it back -----------------------------------------------------

  function FrameMap(table: seq<Row>): map<nat, Frame> {
    if table == [] then map[]
    else FrameMap(table[..|table| - 1])[table[|table| - 1].id := table[|table| - 1].frame]
  }

  function Adopt(parents: map<nat, nat>, children: seq<nat>, id: nat): map<nat, nat> {
    if children == [] then parents
    else Adopt(parents, children[..|children| - 1], id)[children[|children| - 1] := id]
  }

  function ParentMap(table: seq<Row>): map<nat, nat> {
    if table == [] then map[]
    else Adopt(ParentMap(table[..|table| - 1]), table[|table| - 1].children, table[|table| - 1].id)
  }

  const DEPTH_LIMIT: nat := 64

  // From a node up to the root, leaf first, stopping past the depth limit.
  function Walk(frames: map<nat, Frame>, parents: map<nat, nat>, cur: nat, depth: nat): seq<Frame>
    requires depth <= DEPTH_LIMIT
    decreases DEPTH_LIMIT - depth
  {
    if cur !in frames then []
    else if depth + 1 > DEPTH_LIMIT || cur !in parents || parents[cur] == 0 || parents[cur] == cur then [frames[cur]]
    else [frames[cur]] + Walk(frames, parents, parents[cur], depth + 1)
  }

  const DEFAULT_DELTA_US: nat := 10_000

  // Milliseconds up to and including sample n - 1.
  function TimeOf(deltas: Option<seq<nat>>, n: nat): nat {
    if n == 0 then 0
    else
      TimeOf(deltas, n - 1)
      + (if deltas.Some? && n <= |deltas.value| then deltas.value[n - 1] else DEFAULT_DELTA_US) / 1000
  }

  datatype Rebuilt = Rebuilt(samples: seq<Sample>, startMs: nat, endMs: nat)

  method ReadMaps(table: seq<Row>) returns (frames: map<nat, Frame>, parents: map<nat, nat>)
    ensures frames == FrameMap(table) && parents == ParentMap(table)
  {
    frames, parents := map[], map[];
    for i := 0 to |table|
      invariant frames == FrameMap(table[..i]) && parents == ParentMap(table[..i])
    {
      var row := table[i];
      frames := frames[row.id := row.frame];
      ghost var above := parents;
      for c := 0 to |row.children|
        invariant parents == Adopt(above, row.children[..c], row.id)
      {
        parents := parents[row.children[c] := row.id];
        assert row.children[..c + 1][..c] == row.children[..c];
      }
      assert row.children[..|row.children|] == row.children;
      assert table[..i + 1][..i] == table[..i];
    }
    assert table[..|table|] == table;
  }

  method WalkUp(frames: map<nat, Frame>, parents: map<nat, nat>, leaf: nat) returns (stack: seq<Frame>)
    ensures stack == Walk(frames, parents, leaf, 0)
  {
    stack := [];
    var cur, depth := leaf, 0;
    while cur in frames
      invariant depth <= DEPTH_LIMIT
      invariant stack + Walk(frames, parents, cur, depth) == Walk(frames, parents, leaf, 0)
      decreases DEPTH_LIMIT - depth
    {
      stack := stack + [frames[cur]];
      if depth + 1 > DEPTH_LIMIT {
        return;
      }
      if cur in parents && parents[cur] != 0 && parents[cur] != cur {
        assert stack[..|stack| - 1] + Walk(frames, parents, cur, depth)
          == stack + Walk(frames, parents, parents[cur], depth + 1);
        cur, depth := parents[cur], depth + 1;
      } else {
        return;
      }
    }
  }

  // Sample n of the file, read back.
  function ReadSample(frames: map<nat, Frame>, parents: map<nat, nat>, ids: seq<nat>, deltas: Option<seq<nat>>,
        n: nat): Sample
    requires n < |ids|
  {
    Sample(TimeOf(deltas, n + 1), Walk(frames, parents, ids[n], 0))
  }

  lemma NothingRead(deltas: Option<seq<nat>>)
    ensures TimeOf(deltas, 0) == 0 && FirstNonZero([]) == 0
  {
  }

  lemma OneRead(frames: map<nat, Frame>, parents: map<nat, nat>, ids: seq<nat>, deltas: Option<seq<nat>>, i: nat)
    requires i < |ids|
    ensures var delta := if deltas.Some? && i < |deltas.value| then deltas.value[i] else DEFAULT_DELTA_US;
      TimeOf(deltas, i + 1) == TimeOf(deltas, i) + delta / 1000
    ensures ReadSample(frames, parents, ids, deltas, i)
      == Sample(TimeOf(deltas, i + 1), Walk(frames, parents, ids[i], 0))
  {
  }

  method ReadSamples(frames: map<nat, Frame>, parents: map<nat, nat>, ids: seq<nat>, deltas: Option<seq<nat>>)
        returns (r: Rebuilt)
    ensures |r.samples| == |ids|
    ensures forall n :: 0 <= n < |ids| ==> r.samples[n] == ReadSample(frames, parents, ids, deltas, n)
    ensures r.startMs == FirstNonZero(r.samples)
    ensures r.endMs == TimeOf(deltas, |ids|)
  {
    hide ReadSample, FirstNonZero, TimeOf, Walk;
    NothingRead(deltas);
    var samples: seq<Sample> := [];
    var ts, startMs := 0, 0;
    for i := 0 to |ids|
      invariant ts == TimeOf(deltas, i) && |samples| == i
      invariant startMs == FirstNonZero(samples)
      invariant forall n :: 0 <= n < i ==> samples[n] == ReadSample(frames, parents, ids, deltas, n)
    {
      var delta := if deltas.Some? && i < |deltas.value| then deltas.value[i] else DEFAULT_DELTA_US;
      ts := ts + delta / 1000;
      var stack := WalkUp(frames, parents, ids[i]);
      OneRead(frames, parents, ids, deltas, i);
      if startMs == 0 {
        startMs := ts;
      }
      FirstNonZeroAppend(samples, Sample(ts, stack));
      samples := samples + [Sample(ts, stack)];
    }
    r := Rebuilt(samples, startMs, ts);
  }

  method Rebuild(table: seq<Row>, ids: seq<nat>, deltas: Option<seq<nat>>) returns (r: Rebuilt)
    ensures |r.samples| == |ids|
    ensures forall n :: 0 <= n < |ids| ==> r.samples[n] == ReadSample(FrameMap(table), ParentMap(table), ids, deltas, n)
    ensures r.startMs == FirstNonZero(r.samples) && r.endMs == TimeOf(deltas, |ids|)
  {
    var frames, parents := ReadMaps(table);
    r := ReadSamples(frames, parents, ids, deltas);
  }

  // ---- The round trip of the stacks ----------------------------------------

  lemma {:induction false} FrameMapRows(table: seq<Row>)
    requires forall i :: 0 <= i < |table| ==> table[i].id == i + 1
    ensures forall id :: id in FrameMap(table) <==> 1 <= id <= |table|
    ensures forall i :: 0 <= i < |table| ==> i + 1 in FrameMap(table) && FrameMap(table)[i + 1] == table[i].frame
  {
    if table != [] { FrameMapRows(table[..|table| - 1]); }
  }

  lemma {:induction false} AdoptAll(parents: map<nat, nat>, children: seq<nat>, id: nat, c: nat)
    ensures c in Adopt(parents, children, id) <==> c in children || c in parents
    ensures c in Adopt(parents, children, id) ==>
      Adopt(parents, children, id)[c] == if c in children then id else parents[c]
  {
    if children != [] { AdoptAll(parents, children[..|children| - 1], id, c); }
  }

  lemma {:induction false} ParentMapRows(table: seq<Row>, c: nat)
    ensures c in ParentMap(table) <==> exists i :: 0 <= i < |table| && c in table[i].children
    ensures c in ParentMap(table) ==>
      exists i :: 0 <= i < |table| && c in table[i].children && ParentMap(table)[c] == table[i].id
  {
    if table != [] {
      var before, last := table[..|table| - 1], table[|table| - 1];
      ParentMapRows(before, c);
      AdoptAll(ParentMap(before), last.children, last.id, c);
      if c in last.children {
        assert table[|table| - 1] == last;
      } else if c in ParentMap(before) {
        var i :| 0 <= i < |before| && c in before[i].children && ParentMap(before)[c] == before[i].id;
        assert table[i] == before[i];
      }
    }
  }

  // Whoever lists a node as a child stands for the path one frame shorter.
  lemma ListedByParent(nodes: seq<Node>, ps: seq<Path>, table: seq<Row>, id: nat, i: nat)
    requires Holds(nodes, ps) && Written(nodes, table) && 1 <= id < |nodes|
    requires i < |table| && id in table[i].children
    ensures ps[id - 1] != [] && Parent(ps[id - 1]) == ps[i]
  {
    assert SameChildren(table[i].children, nodes[i + 1].children);
    var k :| k in nodes[i + 1].children && nodes[i + 1].children[k] == id;
    assert NodeHolds(nodes, ps, i + 1);
    assert Parent(Longer(ps[i], k)) == ps[i];
  }

  // Every node but the root is listed as a child.
  lemma ListedSomewhere(nodes: seq<Node>, ps: seq<Path>, table: seq<Row>, id: nat) returns (i: nat)
    requires Ordered(ps) && Holds(nodes, ps) && Written(nodes, table) && 1 <= id < |nodes|
    requires ps[id - 1] != []
    ensures i < |table| && id in table[i].children
  {
    assert Extends(ps, id - 1);
    var above := Parent(ps[id - 1]);
    i :| 0 <= i < id - 1 && ps[i] == above;
    var k := ps[id - 1][|ps[id - 1]| - 1];
    assert Longer(above, k) == ps[id - 1];
    assert NodeHolds(nodes, ps, i + 1);
    assert k in nodes[i + 1].children;
    assert SameChildren(table[i].children, nodes[i + 1].children);
    assert nodes[i + 1].children[k] == id;
  }

  // A node's recorded parent stands for the path one frame shorter.
  lemma ParentIsParent(nodes: seq<Node>, ps: seq<Path>, table: seq<Row>, id: nat)
    requires Ordered(ps) && Holds(nodes, ps) && Written(nodes, table) && 1 <= id < |nodes|
    ensures var parents := ParentMap(table);
      if ps[id - 1] == [] then id !in parents
      else id in parents && parents[id] != 0 && parents[id] != id && IdOf(parents[id], Parent(ps[id - 1]), ps)
  {
    var parents := ParentMap(table);
    ParentMapRows(table, id);
    if id in parents {
      var i :| 0 <= i < |table| && id in table[i].children && parents[id] == table[i].id;
      ListedByParent(nodes, ps, table, id, i);
    } else if ps[id - 1] != [] {
      var i := ListedSomewhere(nodes, ps, table, id);
    }
  }

  // A path as it is shown, leaf first and ending at the root.
  function LeafFirst(path: Path): seq<Frame> {
    if path == [] then [ROOT] else [Shown(path[|path| - 1])] + LeafFirst(Parent(path))
  }

  function Take<T>(s: seq<T>, n: nat): seq<T> { s[..Min(|s|, n)] }

  lemma {:induction false} WalkFollowsPath(nodes: seq<Node>, ps: seq<Path>, table: seq<Row>, id: nat, depth: nat)
    requires Ordered(ps) && Holds(nodes, ps) && Written(nodes, table) && 1 <= id < |nodes| && depth <= DEPTH_LIMIT
    ensures Walk(FrameMap(table), ParentMap(table), id, depth) == Take(LeafFirst(ps[id - 1]), DEPTH_LIMIT + 1 - depth)
    decreases DEPTH_LIMIT - depth
  {
    hide FrameMap, ParentMap, LeafFirst, Ordered, NodeHolds, Written, Take;
    var parents, path := ParentMap(table), ps[id - 1];
    FrameShown(nodes, ps, table, id);
    ParentIsParent(nodes, ps, table, id);
    TakeFirst(path, DEPTH_LIMIT + 1 - depth);
    if path != [] && depth + 1 <= DEPTH_LIMIT {
      WalkFollowsPath(nodes, ps, table, parents[id], depth + 1);
    }
  }

  lemma FrameShown(nodes: seq<Node>, ps: seq<Path>, table: seq<Row>, id: nat)
    requires Holds(nodes, ps) && Written(nodes, table) && 1 <= id < |nodes|
    ensures var path := ps[id - 1];
      id in FrameMap(table) && FrameMap(table)[id] == if path == [] then ROOT else Shown(path[|path| - 1])
  {
    FrameMapRows(table);
    assert table[id - 1].frame == nodes[id - 1 + 1].shown;
    assert NodeHolds(nodes, ps, id);
  }

  lemma TakeCons<T>(x: T, s: seq<T>, n: nat)
    requires n >= 1
    ensures Take([x] + s, n) == [x] + Take(s, n - 1)
  {
  }

  lemma TakeFirst(path: Path, n: nat)
    requires n >= 1
    ensures Take(LeafFirst(path), n) ==
      if path == [] then [ROOT]
      else if n == 1 then [Shown(path[|path| - 1])]
      else [Shown(path[|path| - 1])] + Take(LeafFirst(Parent(path)), n - 1)
  {
    hide Shown;
    if path != [] { TakeCons(Shown(path[|path| - 1]), LeafFirst(Parent(path)), n); }
  }

  function ShownAll(frames: seq<Frame>): seq<Frame> {
    if frames == [] then [] else [Shown(frames[0])] + ShownAll(frames[1..])
  }

  lemma {:induction false} LeafFirstOfStack(frames: seq<Frame>)
    ensures LeafFirst(Reversed(frames)) == ShownAll(frames) + [ROOT]
    ensures |ShownAll(frames)| == |frames|
  {
    if frames != [] {
      assert Parent(Reversed(frames)) == Reversed(frames[1..]);
      LeafFirstOfStack(frames[1..]);
    }
  }

  lemma {:induction false} ShownAt(frames: seq<Frame>, i: nat)
    requires i < |frames|
    ensures |ShownAll(frames)| == |frames|
    ensures ShownAll(frames)[i] == if frames[i].name == "" then frames[i].(name := "(anonymous)") else frames[i]
  {
    if i > 0 { ShownAt(frames[1..], i - 1); } else if |frames| > 1 { ShownAt(frames[1..], 0); }
  }

  // Round trip: whatever the samples, walking up from each stored id gives back
  // that sample's frames, leaf to root, then the root -- all of them for stacks
  // of up to 64 frames, the first 65 for deeper ones.
  lemma StacksRoundTrip(p: CpuProfile, samples: seq<Sample>, startMs: nat, table: seq<Row>, n: nat)
    requires Profiles(p, samples, startMs) && Written(p.nodes, table) && n < |samples|
    ensures var frames, stack := samples[n].frames, Walk(FrameMap(table), ParentMap(table), p.sampleIds[n], 0);
      && |stack| == (if |frames| <= 64 then |frames| + 1 else 65)
      && (forall i :: 0 <= i < |frames| && i < 65 ==>
            stack[i] == if frames[i].name == "" then frames[i].(name := "(anonymous)") else frames[i])
      && (|frames| <= 64 ==> stack[|frames|] == Frame("(root)", "", -1, -1))
  {
    var frames, stack := samples[n].frames, Walk(FrameMap(table), ParentMap(table), p.sampleIds[n], 0);
    assert IdOf(p.sampleIds[n], Stack(samples[n]), Prefixes(samples));
    WalkFollowsPath(p.nodes, Prefixes(samples), table, p.sampleIds[n], 0);
    LeafFirstOfStack(frames);
    assert stack == Take(ShownAll(frames) + [ROOT], 65);
    forall i | 0 <= i < |frames| && i < 65
      ensures stack[i] == if frames[i].name == "" then frames[i].(name := "(anonymous)") else frames[i]
    {
      ShownAt(frames, i);
    }
  }

  // ---- What a walk gives for any table -------------------------------------

  function Ancestor(parents: map<nat, nat>, id: nat, k: nat): nat
    decreases k
  {
    if k == 0 || id !in parents then id else Ancestor(parents, parents[id], k - 1)
  }

  // A node that the walk goes on from: its parent is another one, not zero.
  predicate HasParent(parents: map<nat, nat>, id: nat) { id in parents && parents[id] != 0 && parents[id] != id }

  // The frames of a node, its parent, and so on, up to one without a parent or
  // whose parent is not in the table, 65 at most.
  lemma {:induction false} WalkExact(frames: map<nat, Frame>, parents: map<nat, nat>, id: nat, depth: nat, k: nat)
    requires depth <= 64 && id in frames
    ensures var w := Walk(frames, parents, id, depth);
      && 0 < |w| <= 65 - depth
      && (k < |w| ==> Ancestor(parents, id, k) in frames && w[k] == frames[Ancestor(parents, id, k)])
      && (k + 1 < |w| ==> HasParent(parents, Ancestor(parents, id, k)))
      && (k + 1 == |w| < 65 - depth ==>
            var last := Ancestor(parents, id, k);
            !HasParent(parents, last) || parents[last] !in frames)
    decreases 64 - depth
  {
    if HasParent(parents, id) && depth < 64 && parents[id] in frames {
      WalkExact(frames, parents, parents[id], depth + 1, if k == 0 then 0 else k - 1);
    }
  }

  // ---- What the nodes show -------------------------------------------------

  // The first node is the root. Every other shows a frame of a sample, without
  // a script if it has no url, and else with its own id for one; a frame
  // without a name is shown as anonymous.
  lemma NodesShow(p: CpuProfile, samples: seq<Sample>, startMs: nat, i: nat)
    requires Profiles(p, samples, startMs) && 1 <= i < |p.nodes|
    ensures var node, path := p.nodes[i], Prefixes(samples)[i - 1];
      && node.scriptId == (if node.shown.url == "" then 0 else i)
      && (path == [] ==> i == 1 && node.shown == Frame("(root)", "", -1, -1))
      && (path != [] ==>
            var frame := path[|path| - 1];
            node.shown == if frame.name == "" then frame.(name := "(anonymous)") else frame)
  {
    var ps := Prefixes(samples);
    assert NodeHolds(p.nodes, ps, i);
    assert ps[0] == [];
  }

  // Without deltas each sample is taken 10 ms after the one before.
  lemma {:induction false} DefaultTimes(n: nat)
    ensures TimeOf(None, n) == 10 * n
  {
    if n > 0 { DefaultTimes(n - 1); }
  }

  // A delta is the time since the sample before, in microseconds; none is
  // negative.
  lemma {:induction false} DeltasAre(samples: seq<Sample>, startMs: nat, n: nat)
    requires n < |samples|
    ensures |Deltas(samples, startMs)| == |samples|
    ensures var since := if n == 0 then startMs else samples[n - 1].timestampMs;
      var now := samples[n].timestampMs;
      Deltas(samples, startMs)[n] == if now > since then 1000 * (now - since) else 0
  {
    DeltasLength(samples, startMs);
    var before := samples[..|samples| - 1];
    if n < |before| { DeltasAre(before, startMs, n); } else { DeltasLength(before, startMs); }
  }

  // ---- The round trip of the times -----------------------------------------

  ghost predicate Ascending(samples: seq<Sample>, startMs: nat) {
    && (samples != [] ==> startMs <= samples[0].timestampMs)
    && (forall i, j :: 0 <= i < j < |samples| ==> samples[i].timestampMs <= samples[j].timestampMs)
  }

  lemma {:induction false} TimesPrefix(deltas: seq<nat>, more: seq<nat>, n: nat)
    requires n <= |deltas|
    ensures TimeOf(Some(deltas + more), n) == TimeOf(Some(deltas), n)
  {
    if n > 0 { TimesPrefix(deltas, more, n - 1); }
  }

  lemma {:induction false} DeltasLength(samples: seq<Sample>, startMs: nat)
    ensures |Deltas(samples, startMs)| == |samples|
  {
    if samples != [] { DeltasLength(samples[..|samples| - 1], startMs); }
  }

  // The time read back for sample n is the sum of the forward steps up to it.
  lemma {:induction false} TimeStep(samples: seq<Sample>, startMs: nat, n: nat)
    requires n < |samples|
    ensures TimeOf(Some(Deltas(samples, startMs)), n + 1)
         == TimeOf(Some(Deltas(samples, startMs)), n) + Max(samples[n].timestampMs - LastTime(samples[..n], startMs), 0)
    decreases |samples|
  {
    var before := samples[..|samples| - 1];
    DeltasLength(samples, startMs);
    DeltasLength(before, startMs);
    if n == |before| {
      var step := Max(samples[n].timestampMs - LastTime(before, startMs), 0);
      assert step * 1000 / 1000 == step;
    } else {
      TimeStep(before, startMs, n);
      assert before[..n] == samples[..n];
      var last := Deltas(samples, startMs)[|before|..];
      assert Deltas(samples, startMs) == Deltas(before, startMs) + last;
      TimesPrefix(Deltas(before, startMs), last, n);
      TimesPrefix(Deltas(before, startMs), last, n + 1);
    }
  }

  lemma {:induction false} AscendingTimesExact(samples: seq<Sample>, startMs: nat, n: nat)
    requires Ascending(samples, startMs) && n < |samples|
    ensures TimeOf(Some(Deltas(samples, startMs)), n + 1) == samples[n].timestampMs - startMs
  {
    TimeStep(samples, startMs, n);
    if n > 0 { AscendingTimesExact(samples, startMs, n - 1); }
  }

  // The prefix sums give every timestamp minus the start exactly when the
  // timestamps never go back and none is before the start.
  lemma TimesRoundTrip(samples: seq<Sample>, startMs: nat)
    ensures Ascending(samples, startMs)
       <==> forall n :: 0 <= n < |samples| ==>
              TimeOf(Some(Deltas(samples, startMs)), n + 1) == samples[n].timestampMs - startMs
  {
    if Ascending(samples, startMs) {
      forall n | 0 <= n < |samples|
        ensures TimeOf(Some(Deltas(samples, startMs)), n + 1) == samples[n].timestampMs - startMs
      {
        AscendingTimesExact(samples, startMs, n);
      }
    } else if forall n :: 0 <= n < |samples| ==>
              TimeOf(Some(Deltas(samples, startMs)), n + 1) == samples[n].timestampMs - startMs {
      StepsForward(samples, startMs, |samples|);
    }
  }

  lemma {:induction false} StepsForward(samples: seq<Sample>, startMs: nat, n: nat)
    requires n <= |samples|
    requires forall i :: 0 <= i < |samples| ==>
      TimeOf(Some(Deltas(samples, startMs)), i + 1) == samples[i].timestampMs - startMs
    ensures Ascending(samples[..n], startMs)
    ensures n == |samples| ==> samples[..n] == samples
  {
    hide Ascending, Deltas, TimeOf;
    if n == 0 {
      NothingAscends(samples, startMs);
    } else {
      StepsForward(samples, startMs, n - 1);
      StepForward(samples, startMs, n);
      AscendingNext(samples, startMs, n);
    }
  }

  lemma NothingAscends(samples: seq<Sample>, startMs: nat)
    ensures Ascending(samples[..0], startMs)
  {
  }

  lemma StepForward(samples: seq<Sample>, startMs: nat, n: nat)
    requires 0 < n <= |samples|
    requires forall i :: 0 <= i < |samples| ==>
      TimeOf(Some(Deltas(samples, startMs)), i + 1) == samples[i].timestampMs - startMs
    ensures samples[n - 1].timestampMs >= LastTime(samples[..n - 1], startMs)
  {
    hide Deltas, TimeOf;
    TimeStep(samples, startMs, n - 1);
    if n == 1 { NothingRead(Some(Deltas(samples, startMs))); } else {
      assert TimeOf(Some(Deltas(samples, startMs)), n - 2 + 1) == samples[n - 2].timestampMs - startMs;
    }
  }

  lemma AscendingNext(samples: seq<Sample>, startMs: nat, n: nat)
    requires 0 < n <= |samples| && Ascending(samples[..n - 1], startMs)
    requires samples[n - 1].timestampMs >= LastTime(samples[..n - 1], startMs)
    ensures Ascending(samples[..n], startMs)
  {
  }

  // ---- Recording -----------------------------------------------------------

  // A start of zero reads as "not started", so for a recording whose clock
  // never goes back the times come back right exactly when the first sample is
  // not at time zero, or every sample is.
  lemma RecordedTimesExact(samples: seq<Sample>)
    requires forall i, j :: 0 <= i < j < |samples| ==> samples[i].timestampMs <= samples[j].timestampMs
    ensures (forall n :: 0 <= n < |samples| ==>
               TimeOf(Some(Deltas(samples, FirstNonZero(samples))), n + 1)
                 == samples[n].timestampMs - FirstNonZero(samples))
       <==> samples == [] || samples[0].timestampMs > 0 || samples[|samples| - 1].timestampMs == 0
  {
    FirstNonZeroIs(samples);
    TimesRoundTrip(samples, FirstNonZero(samples));
  }
}
