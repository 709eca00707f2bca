// The profiler's stacks as a trie of call frames (crates/js/src/profiler.rs).
module ProfileTrie {
  import opened Prelude

  datatype Frame = Frame(name: string, url: string, line: int, column: int)

  // Frames are stored top of stack first.
  datatype Sample = Sample(timestampMs: nat, frames: seq<Frame>)

  // A path from the root: frames bottom of stack first.
  type Path = seq<Frame>

  datatype Node = Node(shown: Frame, scriptId: nat, children: map<Frame, nat>, hits: nat)

  // Node ids are positions; position 0 is a placeholder, position 1 the root.
  datatype CpuProfile = CpuProfile(nodes: seq<Node>, sampleIds: seq<nat>, timeDeltas: seq<nat>)

  const ROOT: Frame := Frame("(root)", "", -1, -1)

  function Shown(f: Frame): Frame { if f.name == "" then f.(name := "(anonymous)") else f }

  function Reversed<T>(s: seq<T>): (r: seq<T>)
    ensures |r| == |s| && forall i :: 0 <= i < |s| ==> r[i] == s[|s| - 1 - i]
  {
    if s == [] then [] else Reversed(s[1..]) + [s[0]]
  }

  function Stack(sample: Sample): Path { Reversed(sample.frames) }

  // ---- What the trie holds, without a trie ---------------------------------

  // Distinct root-side prefixes in the order they are first met.
  function Meet(ps: seq<Path>, path: Path): seq<Path> { if path in ps then ps else ps + [path] }

  function MeetPrefixes(ps: seq<Path>, stack: Path, n: nat): seq<Path>
    requires n <= |stack|
  {
    if n == 0 then ps else Meet(MeetPrefixes(ps, stack, n - 1), stack[..n])
  }

  function Prefixes(samples: seq<Sample>): seq<Path> {
    if samples == [] then [[]]
    else
      var stack := Stack(samples[|samples| - 1]);
      MeetPrefixes(Prefixes(samples[..|samples| - 1]), stack, |stack|)
  }

  function Hits(samples: seq<Sample>, path: Path): nat {
    if samples == [] then 0
    else Hits(samples[..|samples| - 1], path) + (if Stack(samples[|samples| - 1]) == path then 1 else 0)
  }

  function Longer(path: Path, frame: Frame): Path { path + [frame] }

  function Parent(path: Path): Path
    requires path != []
  {
    path[..|path| - 1]
  }

  // No path twice, each after the path it extends.
  ghost predicate Ordered(ps: seq<Path>) {
    && |ps| >= 1 && ps[0] == []
    && (forall i, j :: 0 <= i < j < |ps| ==> ps[i] != ps[j])
    && (forall j {:trigger Extends(ps, j)} :: 1 <= j < |ps| ==> Extends(ps, j))
  }

  // Path j extends a path met before it.
  ghost predicate Extends(ps: seq<Path>, j: nat)
    requires j < |ps|
  {
    ps[j] != [] && Parent(ps[j]) in ps[..j]
  }

  // A node stands for a path: it shows the path's last frame, and its children
  // are exactly the known paths one frame longer.
  ghost predicate StandsFor(node: Node, path: Path, ps: seq<Path>) {
    && node.shown == (if path == [] then ROOT else Shown(path[|path| - 1]))
    && (forall k :: k in node.children <==> Longer(path, k) in ps)
    && (forall k :: k in node.children ==>
          1 <= node.children[k] <= |ps| && ps[node.children[k] - 1] == Longer(path, k))
  }

  // The node table is the trie of the paths: node i + 1 stands for path i.
  ghost predicate Holds(nodes: seq<Node>, ps: seq<Path>) {
    && |nodes| == |ps| + 1
    && forall i {:trigger NodeHolds(nodes, ps, i)} :: 1 <= i < |nodes| ==> NodeHolds(nodes, ps, i)
  }

  ghost predicate NodeHolds(nodes: seq<Node>, ps: seq<Path>, i: nat)
    requires 1 <= i < |nodes| == |ps| + 1
  {
    StandsFor(nodes[i], ps[i - 1], ps) && nodes[i].scriptId == if nodes[i].shown.url == "" then 0 else i
  }

  ghost predicate Counts(nodes: seq<Node>, ps: seq<Path>, samples: seq<Sample>) {
    && |nodes| == |ps| + 1
    && forall i :: 1 <= i < |nodes| ==> nodes[i].hits == Hits(samples, ps[i - 1])
  }

  // ---- Building it ---------------------------------------------------------

  function NewNode(frame: Frame, id: nat): Node {
    Node(Shown(frame), if frame.url == "" then 0 else id, map[], 0)
  }

  // The table with a child for `frame` added under `current`.
  function WithChild(nodes: seq<Node>, current: nat, frame: Frame): seq<Node>
    requires current < |nodes|
  {
    var id := |nodes|;
    (nodes + [NewNode(frame, id)])[current := nodes[current].(children := nodes[current].children[frame := id])]
  }

  lemma OrderedAppend(ps: seq<Path>, path: Path, frame: Frame)
    requires Ordered(ps) && path in ps && Longer(path, frame) !in ps
    ensures Ordered(ps + [Longer(path, frame)])
  {
    var ps' := ps + [Longer(path, frame)];
    assert Parent(Longer(path, frame)) == path;
    forall j | 1 <= j < |ps'|
      ensures Extends(ps', j)
    {
      if j < |ps| {
        assert Extends(ps, j) && ps'[..j] == ps[..j];
      } else {
        assert ps'[..j] == ps;
      }
    }
  }

  // Nothing met so far extends a path not met yet.
  lemma NothingExtends(ps: seq<Path>, path: Path, k: Frame)
    requires Ordered(ps) && path !in ps
    ensures Longer(path, k) !in ps
  {
    assert Parent(Longer(path, k)) == path;
    forall j | 0 <= j < |ps|
      ensures ps[j] != Longer(path, k)
    {
      if j >= 1 { assert Extends(ps, j); }
    }
  }

  lemma SameLonger(p: Path, k: Frame, q: Path, l: Frame)
    requires Longer(p, k) == Longer(q, l)
    ensures p == q && k == l
  {
    assert Parent(Longer(p, k)) == p && Parent(Longer(q, l)) == q;
    assert Longer(p, k)[|p|] == k && Longer(q, l)[|q|] == l;
  }

  // What a node that gets no child stands for, once one more path is known.
  lemma StillStandsFor(node: Node, path: Path, ps: seq<Path>, other: Path, frame: Frame)
    requires StandsFor(node, path, ps) && (path != other || frame in node.children)
    ensures StandsFor(node, path, ps + [Longer(other, frame)])
  {
    forall k
      ensures k in node.children <==> Longer(path, k) in ps + [Longer(other, frame)]
    {
      if Longer(path, k) == Longer(other, frame) { SameLonger(path, k, other, frame); }
    }
  }

  lemma ParentStandsFor(node: Node, path: Path, ps: seq<Path>, frame: Frame)
    requires StandsFor(node, path, ps) && frame !in node.children
    ensures StandsFor(node.(children := node.children[frame := |ps| + 1]), path, ps + [Longer(path, frame)])
  {
    var node' := node.(children := node.children[frame := |ps| + 1]);
    forall k
      ensures k in node'.children <==> Longer(path, k) in ps + [Longer(path, frame)]
    {
      if Longer(path, k) == Longer(path, frame) { SameLonger(path, k, path, frame); }
    }
  }

  lemma NewStandsFor(ps: seq<Path>, path: Path, frame: Frame)
    requires Ordered(ps) && path in ps && Longer(path, frame) !in ps
    ensures StandsFor(NewNode(frame, |ps| + 1), Longer(path, frame), ps + [Longer(path, frame)])
  {
    forall k
      ensures Longer(Longer(path, frame), k) !in ps + [Longer(path, frame)]
    {
      NothingExtends(ps, Longer(path, frame), k);
    }
  }

  lemma FrameIsNew(nodes: seq<Node>, ps: seq<Path>, current: nat, frame: Frame)
    requires Holds(nodes, ps) && 1 <= current < |nodes| && frame !in nodes[current].children
    ensures Longer(ps[current - 1], frame) !in ps
  {
    assert NodeHolds(nodes, ps, current);
  }

  lemma PathsDiffer(ps: seq<Path>, i: nat, j: nat)
    requires Ordered(ps) && i < |ps| && j < |ps| && i != j
    ensures ps[i] != ps[j]
  {
  }

  lemma ChildAddedAt(nodes: seq<Node>, ps: seq<Path>, current: nat, frame: Frame, i: nat)
    requires Ordered(ps) && Holds(nodes, ps) && 1 <= current < |nodes| && 1 <= i <= |nodes|
    requires frame !in nodes[current].children
    ensures NodeHolds(WithChild(nodes, current, frame), ps + [Longer(ps[current - 1], frame)], i)
  {
    hide StandsFor, Ordered;
    var path, nodes', ps' := ps[current - 1], WithChild(nodes, current, frame), ps + [Longer(ps[current - 1], frame)];
    assert NodeHolds(nodes, ps, current);
    FrameIsNew(nodes, ps, current, frame);
    if i == |nodes| {
      assert nodes'[i] == NewNode(frame, |nodes|) && ps'[i - 1] == Longer(path, frame);
      NewStandsFor(ps, path, frame);
    } else if i == current {
      assert nodes'[i] == nodes[i].(children := nodes[i].children[frame := |nodes|]) && ps'[i - 1] == path;
      ParentStandsFor(nodes[i], path, ps, frame);
    } else {
      assert nodes'[i] == nodes[i] && ps'[i - 1] == ps[i - 1];
      assert NodeHolds(nodes, ps, i);
      PathsDiffer(ps, i - 1, current - 1);
      StillStandsFor(nodes[i], ps[i - 1], ps, path, frame);
    }
  }

  // Adding a child keeps the table the trie of its paths.
  lemma ChildAdded(nodes: seq<Node>, ps: seq<Path>, current: nat, frame: Frame)
    requires Ordered(ps) && Holds(nodes, ps) && 1 <= current < |nodes|
    requires frame !in nodes[current].children
    ensures Longer(ps[current - 1], frame) !in ps
    ensures var ps' := ps + [Longer(ps[current - 1], frame)];
      Ordered(ps') && Holds(WithChild(nodes, current, frame), ps')
  {
    assert NodeHolds(nodes, ps, current);
    OrderedAppend(ps, ps[current - 1], frame);
    var nodes', ps' := WithChild(nodes, current, frame), ps + [Longer(ps[current - 1], frame)];
    forall i | 1 <= i < |nodes'|
      ensures NodeHolds(nodes', ps', i)
    {
      ChildAddedAt(nodes, ps, current, frame, i);
    }
  }

  lemma ChildAddedCounts(nodes: seq<Node>, ps: seq<Path>, current: nat, frame: Frame, path: Path, done: seq<Sample>)
    requires Counts(nodes, ps, done) && current < |nodes| && Hits(done, path) == 0
    ensures Counts(WithChild(nodes, current, frame), ps + [path], done)
  {
  }

  lemma {:induction false} MeetKeepsPaths(ps: seq<Path>, stack: Path, n: nat)
    requires n <= |stack|
    ensures ps <= MeetPrefixes(ps, stack, n)
  {
    if n > 0 {
      MeetKeepsPaths(ps, stack, n - 1);
    }
  }

  // Every sample is stored under the node of its own stack.
  ghost predicate Identifies(ids: seq<nat>, samples: seq<Sample>, ps: seq<Path>) {
    && |ids| == |samples|
    && forall n :: 0 <= n < |ids| ==> IdOf(ids[n], Stack(samples[n]), ps)
  }

  ghost predicate IdOf(id: nat, path: Path, ps: seq<Path>) { 1 <= id <= |ps| && ps[id - 1] == path }

  lemma IdentifiesOneMore(ids: seq<nat>, samples: seq<Sample>, ps: seq<Path>, ps': seq<Path>, id: nat, sample: Sample)
    requires Identifies(ids, samples, ps) && ps <= ps' && IdOf(id, Stack(sample), ps')
    ensures Identifies(ids + [id], samples + [sample], ps')
  {
    forall n | 0 <= n < |ids|
      ensures IdOf(ids[n], Stack(samples[n]), ps')
    {
      assert IdOf(ids[n], Stack(samples[n]), ps);
    }
  }

  function LastTime(samples: seq<Sample>, startMs: nat): nat {
    if samples == [] then startMs else samples[|samples| - 1].timestampMs
  }

  // Milliseconds since the previous sample, saturating at zero, in microseconds.
  function Deltas(samples: seq<Sample>, startMs: nat): seq<nat> {
    if samples == [] then []
    else
      var before := samples[..|samples| - 1];
      Deltas(before, startMs) + [Max(samples[|samples| - 1].timestampMs - LastTime(before, startMs), 0) * 1000]
  }

  // The profile of a sample list.
  ghost predicate Profiles(p: CpuProfile, samples: seq<Sample>, startMs: nat) {
    && Trie(p.nodes, Prefixes(samples), samples)
    && Identifies(p.sampleIds, samples, Prefixes(samples))
    && p.timeDeltas == Deltas(samples, startMs)
  }

  method BuildCpuProfile(samples: seq<Sample>, startMs: nat) returns (p: CpuProfile)
    ensures Profiles(p, samples, startMs)
  {
    p := CpuProfile([Node(Frame("", "", -1, -1), 0, map[], 0), Node(ROOT, 0, map[], 0)], [], []);
    var prev := startMs;
    for n := 0 to |samples|
      invariant Profiles(p, samples[..n], startMs)
      invariant prev == LastTime(samples[..n], startMs)
    {
      p := AddSample(p, samples[n], prev, samples[..n], startMs);
      prev := samples[n].timestampMs;
      assert samples[..n + 1] == samples[..n] + [samples[n]];
    }
    assert samples[..|samples|] == samples;
  }

  // One turn of the outer loop: `current` starts at the root and ends at the
  // node of the sample's stack, which takes the hit.
  method AddSample(p0: CpuProfile, sample: Sample, prev: nat, ghost done: seq<Sample>, ghost startMs: nat)
        returns (p: CpuProfile)
    requires Profiles(p0, done, startMs) && prev == LastTime(done, startMs)
    ensures Profiles(p, done + [sample], startMs)
  {
    hide Trie, Prefixes, Stack, Identifies, IdOf, Deltas;
    var delta := Max(sample.timestampMs - prev, 0);
    var nodes, current := Record(p0.nodes, sample, done);
    SampleIdentified(p0.sampleIds, done, current, sample);
    DeltasNext(done, sample, startMs);
    p := CpuProfile(nodes, p0.sampleIds + [current], p0.timeDeltas + [delta * 1000]);
  }

  lemma SampleIdentified(ids: seq<nat>, done: seq<Sample>, current: nat, sample: Sample)
    requires Identifies(ids, done, Prefixes(done)) && IdOf(current, Stack(sample), Prefixes(done + [sample]))
    ensures Identifies(ids + [current], done + [sample], Prefixes(done + [sample]))
  {
    hide Identifies, IdOf, Stack;
    PrefixesNext(done, sample);
    MeetKeepsPaths(Prefixes(done), Stack(sample), |Stack(sample)|);
    IdentifiesOneMore(ids, done, Prefixes(done), Prefixes(done + [sample]), current, sample);
  }

  lemma PrefixesNext(done: seq<Sample>, sample: Sample)
    ensures Prefixes(done + [sample]) == MeetPrefixes(Prefixes(done), Stack(sample), |Stack(sample)|)
  {
    assert (done + [sample])[..|done|] == done;
  }

  lemma DeltasNext(done: seq<Sample>, sample: Sample, startMs: nat)
    ensures Deltas(done + [sample], startMs)
      == Deltas(done, startMs) + [Max(sample.timestampMs - LastTime(done, startMs), 0) * 1000]
  {
    assert (done + [sample])[..|done|] == done;
  }

  // The table is the trie of the samples in `done` and of the paths in `ps`.
  ghost predicate Trie(nodes: seq<Node>, ps: seq<Path>, done: seq<Sample>) {
    Ordered(ps) && Holds(nodes, ps) && Counts(nodes, ps, done)
  }

  lemma RootFirst(nodes: seq<Node>, ps: seq<Path>, done: seq<Sample>)
    requires Trie(nodes, ps, done)
    ensures |nodes| >= 2 && |ps| == |nodes| - 1 && ps[0] == []
  {
  }

  lemma ChildKnown(nodes: seq<Node>, ps: seq<Path>, done: seq<Sample>, current: nat, frame: Frame)
    requires Trie(nodes, ps, done) && 1 <= current < |nodes| && frame in nodes[current].children
    ensures var child, path := nodes[current].children[frame], Longer(ps[current - 1], frame);
      Meet(ps, path) == ps && 1 <= child < |nodes| && ps[child - 1] == path
  {
    assert NodeHolds(nodes, ps, current);
  }

  lemma ChildNew(nodes: seq<Node>, ps: seq<Path>, done: seq<Sample>, current: nat, frame: Frame)
    requires Trie(nodes, ps, done) && 1 <= current < |nodes| && frame !in nodes[current].children
    requires Longer(ps[current - 1], frame) !in ps ==> Hits(done, Longer(ps[current - 1], frame)) == 0
    ensures var path := Longer(ps[current - 1], frame);
      Meet(ps, path) == ps + [path] && |ps| + 1 == |nodes| && Trie(WithChild(nodes, current, frame), ps + [path], done)
  {
    hide Ordered, Counts, NodeHolds;
    ChildAdded(nodes, ps, current, frame);
    ChildAddedCounts(nodes, ps, current, frame, Longer(ps[current - 1], frame), done);
  }

  // One turn of the walk: the child is there, or it is added.
  method Child(nodes0: seq<Node>, current: nat, frame: Frame, ghost ps: seq<Path>, ghost done: seq<Sample>)
        returns (nodes: seq<Node>, next: nat)
    requires Trie(nodes0, ps, done) && 1 <= current < |nodes0|
    requires Longer(ps[current - 1], frame) !in ps ==> Hits(done, Longer(ps[current - 1], frame)) == 0
    ensures var ps' := Meet(ps, Longer(ps[current - 1], frame));
      Trie(nodes, ps', done) && 1 <= next < |nodes| && ps'[next - 1] == Longer(ps[current - 1], frame)
  {
    hide Ordered, Counts, NodeHolds, Meet, Longer, Hits;
    nodes := nodes0;
    if frame in nodes[current].children {
      ChildKnown(nodes, ps, done, current, frame);
      next := nodes[current].children[frame];
    } else {
      ChildNew(nodes, ps, done, current, frame);
      next := |nodes|;
      nodes := nodes + [NewNode(frame, next)];
      nodes := nodes[current := nodes[current].(children := nodes[current].children[frame := next])];
      assert nodes == WithChild(nodes0, current, frame);
    }
  }

  // Walk from the root down one stack, adding the nodes that are missing.
  method Descend(nodes0: seq<Node>, sample: Sample, ghost ps: seq<Path>, ghost done: seq<Sample>)
        returns (nodes: seq<Node>, current: nat)
    requires Trie(nodes0, ps, done) && ps == Prefixes(done)
    ensures var ps' := MeetPrefixes(ps, Stack(sample), |Stack(sample)|);
      Trie(nodes, ps', done) && 1 <= current < |nodes| && ps'[current - 1] == Stack(sample)
  {
    hide Hits, Ordered, Counts, NodeHolds, StandsFor;
    RootFirst(nodes0, ps, done);
    nodes, current := nodes0, 1;
    ghost var stack := Stack(sample);
    var m := |sample.frames|;
    ghost var met := ps;
    while m > 0
      invariant 0 <= m <= |sample.frames|
      invariant met == MeetPrefixes(ps, stack, |stack| - m)
      invariant Trie(nodes, met, done) && 1 <= current < |nodes| && met[current - 1] == stack[..|stack| - m]
    {
      m := m - 1;
      var frame := sample.frames[m];
      ghost var n := |stack| - m;
      assert stack[..n] == Longer(met[current - 1], frame);
      if stack[..n] !in met {
        NeverHit(done, ps, met, stack, n);
      }
      nodes, current := Child(nodes, current, frame, met, done);
      met := Meet(met, stack[..n]);
    }
    assert stack[..|stack|] == stack;
  }

  // Walk down the stack of one sample and hit the node it ends at.
  method Record(nodes0: seq<Node>, sample: Sample, ghost done: seq<Sample>) returns (nodes: seq<Node>, current: nat)
    requires Trie(nodes0, Prefixes(done), done)
    ensures Trie(nodes, Prefixes(done + [sample]), done + [sample])
    ensures IdOf(current, Stack(sample), Prefixes(done + [sample]))
  {
    ghost var rest := done + [sample];
    assert rest[..|done|] == done;
    nodes, current := Descend(nodes0, sample, Prefixes(done), done);
    SampleAdded(nodes, Prefixes(rest), done, rest, current);
    nodes := nodes[current := nodes[current].(hits := nodes[current].hits + 1)];
  }

  // A path not met yet has been hit by no sample.
  lemma NeverHit(done: seq<Sample>, ps: seq<Path>, met: seq<Path>, stack: Path, n: nat)
    requires ps == Prefixes(done) && 1 <= n <= |stack|
    requires met == MeetPrefixes(ps, stack, n - 1) && stack[..n] !in met
    ensures Hits(done, stack[..n]) == 0
  {
    MeetKeepsPaths(ps, stack, n - 1);
    assert stack[..n] !in ps;
    HitPathsAreMet(done, stack[..n]);
  }

  lemma MeetsStack(ps: seq<Path>, stack: Path, n: nat)
    requires n <= |stack| && [] in ps
    ensures stack[..n] in MeetPrefixes(ps, stack, n)
  {
    if n == 0 { assert stack[..0] == []; }
  }

  lemma {:induction false} EmptyPathMet(samples: seq<Sample>)
    ensures [] in Prefixes(samples)
  {
    if samples != [] {
      EmptyPathMet(samples[..|samples| - 1]);
      var stack := Stack(samples[|samples| - 1]);
      MeetKeepsPaths(Prefixes(samples[..|samples| - 1]), stack, |stack|);
    }
  }

  lemma {:induction false} HitPathsAreMet(samples: seq<Sample>, path: Path)
    requires path !in Prefixes(samples)
    ensures Hits(samples, path) == 0
  {
    if samples != [] {
      var before, stack := samples[..|samples| - 1], Stack(samples[|samples| - 1]);
      MeetKeepsPaths(Prefixes(before), stack, |stack|);
      HitPathsAreMet(before, path);
      EmptyPathMet(before);
      MeetsStack(Prefixes(before), stack, |stack|);
      assert stack[..|stack|] == stack;
    }
  }

  // The table with one more hit on `current`.
  function WithHit(nodes: seq<Node>, current: nat): seq<Node>
    requires current < |nodes|
  {
    nodes[current := nodes[current].(hits := nodes[current].hits + 1)]
  }

  lemma HitHolds(nodes: seq<Node>, ps: seq<Path>, current: nat)
    requires Holds(nodes, ps) && 1 <= current < |nodes|
    ensures Holds(WithHit(nodes, current), ps)
  {
    forall i | 1 <= i < |nodes|
      ensures NodeHolds(WithHit(nodes, current), ps, i)
    {
      assert NodeHolds(nodes, ps, i);
    }
  }

  lemma HitCounts(nodes: seq<Node>, ps: seq<Path>, done: seq<Sample>, rest: seq<Sample>, current: nat)
    requires Ordered(ps) && Counts(nodes, ps, done) && 1 <= current < |nodes|
    requires |rest| == |done| + 1 && rest[..|done|] == done && ps[current - 1] == Stack(rest[|done|])
    ensures Counts(WithHit(nodes, current), ps, rest)
  {
    forall i | 1 <= i < |nodes|
      ensures WithHit(nodes, current)[i].hits == Hits(rest, ps[i - 1])
    {
      assert nodes[i].hits == Hits(done, ps[i - 1]);
    }
  }

  lemma SampleAdded(nodes: seq<Node>, ps: seq<Path>, done: seq<Sample>, rest: seq<Sample>, current: nat)
    requires Trie(nodes, ps, done) && 1 <= current < |nodes|
    requires |rest| == |done| + 1 && rest[..|done|] == done && ps[current - 1] == Stack(rest[|done|])
    ensures Trie(WithHit(nodes, current), ps, rest)
  {
    HitHolds(nodes, ps, current);
    HitCounts(nodes, ps, done, rest, current);
  }
}
