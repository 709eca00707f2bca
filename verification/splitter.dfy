// Splitting a dependency graph into chunks (crates/bundler/src/generator.rs).
module Splitter {

  datatype Chunk = Chunk(name: string, modules: seq<string>, deps: seq<string>)

  type Graph = map<string, seq<string>>

  function Deps(g: Graph, m: string): seq<string> { if m in g then g[m] else [] }

  // Some dependency of m depends on x.
  ghost predicate Hop(g: Graph, m: string, x: string) {
    exists d :: d in Deps(g, m) && x in Deps(g, d)
  }

  ghost predicate HopsIn(g: Graph, m: string, s: set<string>) {
    forall d, x :: d in Deps(g, m) && x in Deps(g, d) ==> x in s
  }

  // The chunk of m: itself and its direct dependencies.
  function ChunkOf(g: Graph, m: string): Chunk { Chunk(m, [m] + Deps(g, m), Deps(g, m)) }

  ghost predicate IsPath(g: Graph, roots: seq<string>, path: seq<string>) {
    path != [] && path[0] in roots && forall i :: 0 <= i < |path| - 1 ==> path[i + 1] in Deps(g, path[i])
  }

  ghost predicate Reachable(g: Graph, roots: seq<string>, m: string) {
    exists path :: IsPath(g, roots, path) && path[|path| - 1] == m
  }

  // In an even number of hops.
  ghost predicate IsEvenPath(g: Graph, roots: seq<string>, path: seq<string>) {
    path != [] && path[0] in roots && forall i :: 0 <= i < |path| - 1 ==> Hop(g, path[i], path[i + 1])
  }

  ghost predicate EvenReachable(g: Graph, roots: seq<string>, m: string) {
    exists path :: IsEvenPath(g, roots, path) && path[|path| - 1] == m
  }

  ghost predicate Distinct(chunks: seq<Chunk>) {
    forall i, j :: 0 <= i < j < |chunks| ==> chunks[i].name != chunks[j].name
  }

  // A walk that starts with v0 visited, ends with v1 visited and adds these
  // chunks: one for each newly visited module, and nothing left to visit two
  // hops from one.
  ghost predicate Explored(g: Graph, v0: set<string>, v1: set<string>, chunks: seq<Chunk>) {
    && v0 <= v1
    && Distinct(chunks)
    && (forall i :: 0 <= i < |chunks| ==> chunks[i].name in v1 - v0 && chunks[i] == ChunkOf(g, chunks[i].name))
    && (forall m :: m in v1 - v0 ==> ChunkOf(g, m) in chunks && HopsIn(g, m, v1))
  }

  ghost predicate AllEven(g: Graph, roots: seq<string>, visited: set<string>) {
    forall m :: m in visited ==> EvenReachable(g, roots, m)
  }

  class CodeSplitter {
    var chunks: seq<Chunk>

    constructor ()
      ensures chunks == []
    {
      chunks := [];
    }

    // The entries' chunks are added, whatever was there before.
    method Split(entries: seq<string>, g: Graph) returns (result: seq<Chunk>, ghost news: seq<Chunk>)
      modifies this
      ensures chunks == old(chunks) + news && result == chunks
      ensures Splits(g, entries, news)
    {
      RootsReachable(g, entries);
      var visited;
      visited, news := SplitAll(entries, g, {}, entries);
      SplitsAll(g, entries, visited, news);
      result := chunks;
    }

    // Each of these modules, unless it was visited meanwhile.
    method SplitAll(modules: seq<string>, g: Graph, v0: set<string>, ghost roots: seq<string>)
          returns (visited: set<string>, ghost news: seq<Chunk>)
      requires AllEven(g, roots, v0) && forall m :: m in modules ==> EvenReachable(g, roots, m)
      modifies this
      ensures chunks == old(chunks) + news && Explored(g, v0, visited, news) && AllEven(g, roots, visited)
      ensures forall m :: m in modules ==> m in visited
      decreases g.Keys - v0, 1
    {
      visited, news := v0, [];
      for n := 0 to |modules|
        invariant chunks == old(chunks) + news && Explored(g, v0, visited, news) && AllEven(g, roots, visited)
        invariant forall k :: 0 <= k < n ==> modules[k] in visited
      {
        if modules[n] !in visited {
          ghost var v, more := visited, [];
          visited, more := SplitEntry(modules[n], g, visited, roots);
          ExploredBoth(g, v0, v, visited, news, more);
          news := news + more;
        }
      }
    }

    method SplitEntry(entry: string, g: Graph, v0: set<string>, ghost roots: seq<string>)
          returns (visited: set<string>, ghost news: seq<Chunk>)
      requires EvenReachable(g, roots, entry) && AllEven(g, roots, v0)
      modifies this
      ensures chunks == old(chunks) + news && Explored(g, v0, visited, news) && AllEven(g, roots, visited)
      ensures entry in visited
      decreases g.Keys - v0, 0
    {
      visited, news := v0, [];
      if entry in v0 {
        return;
      }
      var chunk := Chunk(entry, [entry], []);
      visited := visited + {entry};
      if entry in g {
        chunk, visited, news := SplitDeps(entry, g, visited, roots);
      }
      EntryDone(g, v0, visited, entry, news, chunk);
      chunks := chunks + [chunk];
      news := news + [chunk];
    }

    // The chunk of entry, behind the chunks of the modules two hops on.
    method SplitDeps(entry: string, g: Graph, v0: set<string>, ghost roots: seq<string>)
          returns (chunk: Chunk, visited: set<string>, ghost news: seq<Chunk>)
      requires entry in g && EvenReachable(g, roots, entry) && AllEven(g, roots, v0)
      modifies this
      ensures chunks == old(chunks) + news && Explored(g, v0, visited, news) && AllEven(g, roots, visited)
      ensures chunk == ChunkOf(g, entry) && forall k :: 0 <= k < |g[entry]| ==> DepsIn(g, g[entry][k], visited)
      decreases g.Keys - v0, 2
    {
      hide Explored, AllEven, EvenReachable, DepsIn;
      NothingExplored(g, v0);
      chunk, visited, news := Chunk(entry, [entry], []), v0, [];
      var deps := g[entry];
      for n := 0 to |deps|
        invariant chunk == Chunk(entry, [entry] + deps[..n], deps[..n])
        invariant v0 <= visited && chunks == old(chunks) + news && Explored(g, v0, visited, news)
        invariant AllEven(g, roots, visited)
        invariant forall k :: 0 <= k < n ==> DepsIn(g, deps[k], visited)
      {
        chunk := AddDep(chunk, entry, deps, n);
        if deps[n] in g {
          HopsReachable(g, roots, entry, deps[n]);
          ghost var v, more := visited, [];
          visited, more := SplitAll(g[deps[n]], g, visited, roots);
          ExploredBoth(g, v0, v, visited, news, more);
          news := news + more;
          DepsStay(g, deps, n, v, visited);
        }
        DepVisited(g, deps[n], visited);
      }
      assert deps[..|deps|] == deps;
    }
  }

  ghost predicate DepsIn(g: Graph, m: string, s: set<string>) { forall x :: x in Deps(g, m) ==> x in s }

  function AddDep(chunk: Chunk, entry: string, deps: seq<string>, n: nat): (more: Chunk)
    requires n < |deps| && chunk == Chunk(entry, [entry] + deps[..n], deps[..n])
    ensures more == Chunk(entry, [entry] + deps[..n + 1], deps[..n + 1])
  {
    assert [entry] + deps[..n + 1] == [entry] + deps[..n] + [deps[n]];
    Chunk(entry, chunk.modules + [deps[n]], chunk.deps + [deps[n]])
  }

  lemma EntryDone(g: Graph, v0: set<string>, v1: set<string>, entry: string, news: seq<Chunk>, chunk: Chunk)
    requires Explored(g, v0 + {entry}, v1, news) && entry !in v0
    requires forall k :: 0 <= k < |Deps(g, entry)| ==> DepsIn(g, Deps(g, entry)[k], v1)
    requires chunk == if entry in g then ChunkOf(g, entry) else Chunk(entry, [entry], [])
    ensures Explored(g, v0, v1, news + [chunk])
  {
    assert chunk == ChunkOf(g, entry) by { assert [entry] + [] == [entry]; }
    ExploredEntry(g, v0, v1, entry, news);
  }

  lemma RootsReachable(g: Graph, roots: seq<string>)
    ensures forall m :: m in roots ==> EvenReachable(g, roots, m)
  {
    forall m | m in roots
      ensures EvenReachable(g, roots, m)
    {
      assert IsEvenPath(g, roots, [m]);
    }
  }

  lemma HopsReachable(g: Graph, roots: seq<string>, m: string, d: string)
    requires EvenReachable(g, roots, m) && d in Deps(g, m)
    ensures forall x :: x in Deps(g, d) ==> EvenReachable(g, roots, x)
  {
    forall x | x in Deps(g, d)
      ensures EvenReachable(g, roots, x)
    {
      HopReachable(g, roots, m, x, d);
    }
  }

  lemma NothingExplored(g: Graph, v: set<string>)
    ensures Explored(g, v, v, [])
  {
  }

  lemma DepsStay(g: Graph, deps: seq<string>, n: nat, v: set<string>, more: set<string>)
    requires n <= |deps| && v <= more && forall k :: 0 <= k < n ==> DepsIn(g, deps[k], v)
    ensures forall k :: 0 <= k < n ==> DepsIn(g, deps[k], more)
  {
  }

  lemma DepVisited(g: Graph, m: string, visited: set<string>)
    requires m in g ==> forall x :: x in g[m] ==> x in visited
    ensures DepsIn(g, m, visited)
  {
  }

  lemma ExploredBoth(g: Graph, v0: set<string>, v1: set<string>, v2: set<string>, a: seq<Chunk>, b: seq<Chunk>)
    requires Explored(g, v0, v1, a) && Explored(g, v1, v2, b)
    ensures Explored(g, v0, v2, a + b)
    ensures v0 <= v2
  {
    forall m | m in v2 - v0
      ensures ChunkOf(g, m) in a + b && HopsIn(g, m, v2)
    {
      if m in v1 { assert m in v1 - v0; } else { assert m in v2 - v1; }
    }
  }

  lemma ExploredEntry(g: Graph, v0: set<string>, v1: set<string>, entry: string, news: seq<Chunk>)
    requires Explored(g, v0 + {entry}, v1, news) && entry !in v0 && HopsIn(g, entry, v1)
    ensures Explored(g, v0, v1, news + [ChunkOf(g, entry)])
  {
    forall m | m in v1 - v0
      ensures ChunkOf(g, m) in news + [ChunkOf(g, entry)] && HopsIn(g, m, v1)
    {
      if m != entry { assert m in v1 - (v0 + {entry}); }
    }
  }

  // ---- Reachability --------------------------------------------------------

  lemma HopReachable(g: Graph, roots: seq<string>, m: string, x: string, d: string)
    requires EvenReachable(g, roots, m) && d in Deps(g, m) && x in Deps(g, d)
    ensures EvenReachable(g, roots, x)
  {
    var path :| IsEvenPath(g, roots, path) && path[|path| - 1] == m;
    var longer := path + [x];
    forall i | 0 <= i < |longer| - 1
      ensures Hop(g, longer[i], longer[i + 1])
    {
      if i < |path| - 1 { assert Hop(g, path[i], path[i + 1]); }
    }
    assert IsEvenPath(g, roots, longer);
  }

  lemma StepReachable(g: Graph, roots: seq<string>, m: string, x: string)
    requires Reachable(g, roots, m) && x in Deps(g, m)
    ensures Reachable(g, roots, x)
  {
    var path :| IsPath(g, roots, path) && path[|path| - 1] == m;
    var longer := path + [x];
    forall i | 0 <= i < |longer| - 1
      ensures longer[i + 1] in Deps(g, longer[i])
    {
      if i < |path| - 1 { assert path[i + 1] in Deps(g, path[i]); }
    }
    assert IsPath(g, roots, longer);
  }

  lemma {:induction false} EvenIsReachable(g: Graph, roots: seq<string>, path: seq<string>)
    requires IsEvenPath(g, roots, path)
    ensures Reachable(g, roots, path[|path| - 1])
  {
    var last := |path| - 1;
    if last == 0 {
      assert IsPath(g, roots, path);
    } else {
      EvenIsReachable(g, roots, path[..last]);
      assert Hop(g, path[last - 1], path[last]);
      var d :| d in Deps(g, path[last - 1]) && path[last] in Deps(g, d);
      StepReachable(g, roots, path[last - 1], d);
      StepReachable(g, roots, d, path[last]);
    }
  }

  lemma {:induction false} ClosedHoldsPath(g: Graph, roots: seq<string>, s: set<string>, path: seq<string>)
    requires IsPath(g, roots, path) && (forall r :: r in roots ==> r in s)
    requires forall m, x :: m in s && x in Deps(g, m) ==> x in s
    ensures path[|path| - 1] in s
  {
    var last := |path| - 1;
    if last > 0 { ClosedHoldsPath(g, roots, s, path[..last]); }
  }

  lemma {:induction false} ClosedHoldsEvenPath(g: Graph, roots: seq<string>, s: set<string>, path: seq<string>)
    requires IsEvenPath(g, roots, path) && (forall r :: r in roots ==> r in s) && forall m :: m in s ==> HopsIn(g, m, s)
    ensures path[|path| - 1] in s
  {
    var last := |path| - 1;
    if last > 0 {
      ClosedHoldsEvenPath(g, roots, s, path[..last]);
      assert Hop(g, path[last - 1], path[last]);
    }
  }

  // ---- What a split is -----------------------------------------------------

  // Chunks with distinct names, one for each module an even number of hops from
  // an entry; together they have just the modules reachable from the entries.
  ghost predicate Splits(g: Graph, entries: seq<string>, chunks: seq<Chunk>) {
    && Distinct(chunks)
    && (forall i :: 0 <= i < |chunks| ==> IsChunk(g, chunks[i]))
    && (forall m :: EvenReachable(g, entries, m) <==> exists i :: 0 <= i < |chunks| && chunks[i].name == m)
    && (forall m :: Reachable(g, entries, m) <==> exists i :: 0 <= i < |chunks| && m in chunks[i].modules)
  }

  // A module first, then all it depends on, which it lists.
  ghost predicate IsChunk(g: Graph, chunk: Chunk) {
    if chunk.name in g then chunk.modules == [chunk.name] + g[chunk.name] && chunk.deps == g[chunk.name]
    else chunk.modules == [chunk.name] && chunk.deps == []
  }

  lemma ChunkIs(g: Graph, m: string)
    ensures IsChunk(g, ChunkOf(g, m)) && ChunkOf(g, m).name == m
  {
    assert [m] + [] == [m];
  }

  ghost predicate InSome(chunks: seq<Chunk>, m: string) { exists i :: 0 <= i < |chunks| && m in chunks[i].modules }

  // The visited modules and their direct dependencies.
  ghost function Spread(g: Graph, visited: set<string>): set<string> {
    visited + set v, d | v in visited && d in Deps(g, v) :: d
  }

  lemma SpreadCloses(g: Graph, visited: set<string>)
    requires forall m :: m in visited ==> HopsIn(g, m, visited)
    ensures forall m, x :: m in Spread(g, visited) && x in Deps(g, m) ==> x in Spread(g, visited)
  {
  }

  lemma SpreadReaches(g: Graph, entries: seq<string>, v: string, m: string)
    requires EvenReachable(g, entries, v) && (v == m || m in Deps(g, v))
    ensures Reachable(g, entries, m)
  {
    var path :| IsEvenPath(g, entries, path) && path[|path| - 1] == v;
    EvenIsReachable(g, entries, path);
    if v != m { StepReachable(g, entries, v, m); }
  }

  lemma SpreadHolds(g: Graph, entries: seq<string>, visited: set<string>, m: string)
    requires (forall r :: r in entries ==> r in visited) && (forall v :: v in visited ==> HopsIn(g, v, visited))
    requires Reachable(g, entries, m)
    ensures m in Spread(g, visited)
  {
    SpreadCloses(g, visited);
    var path :| IsPath(g, entries, path) && path[|path| - 1] == m;
    ClosedHoldsPath(g, entries, Spread(g, visited), path);
  }

  lemma SpreadReachable(g: Graph, entries: seq<string>, visited: set<string>)
    requires AllEven(g, entries, visited) && (forall v :: v in visited ==> HopsIn(g, v, visited))
    requires forall r :: r in entries ==> r in visited
    ensures forall m :: m in Spread(g, visited) <==> Reachable(g, entries, m)
  {
    forall m | m in Spread(g, visited)
      ensures Reachable(g, entries, m)
    {
      var v :| v in visited && (v == m || m in Deps(g, v));
      SpreadReaches(g, entries, v, m);
    }
    forall m | Reachable(g, entries, m)
      ensures m in Spread(g, visited)
    {
      SpreadHolds(g, entries, visited, m);
    }
  }

  lemma SpreadInSome(g: Graph, visited: set<string>, chunks: seq<Chunk>, m: string)
    requires Explored(g, {}, visited, chunks) && m in Spread(g, visited)
    ensures InSome(chunks, m)
  {
    var v :| v in visited && (v == m || m in Deps(g, v));
    assert v in visited - {};
    var i :| 0 <= i < |chunks| && chunks[i] == ChunkOf(g, v);
    assert m in chunks[i].modules;
  }

  lemma SomeInSpread(g: Graph, visited: set<string>, chunks: seq<Chunk>, i: nat, m: string)
    requires Explored(g, {}, visited, chunks) && i < |chunks| && m in chunks[i].modules
    ensures m in Spread(g, visited)
  {
    assert chunks[i] == ChunkOf(g, chunks[i].name);
  }

  lemma ChunksSpread(g: Graph, visited: set<string>, chunks: seq<Chunk>)
    requires Explored(g, {}, visited, chunks)
    ensures forall m :: m in Spread(g, visited) <==> exists i :: 0 <= i < |chunks| && m in chunks[i].modules
  {
    hide Explored, Spread;
    forall m | m in Spread(g, visited)
      ensures InSome(chunks, m)
    {
      SpreadInSome(g, visited, chunks, m);
    }
    forall m, i | 0 <= i < |chunks| && m in chunks[i].modules
      ensures m in Spread(g, visited)
    {
      SomeInSpread(g, visited, chunks, i, m);
    }
  }

  lemma VisitedHops(g: Graph, visited: set<string>, chunks: seq<Chunk>)
    requires Explored(g, {}, visited, chunks)
    ensures forall m :: m in visited ==> HopsIn(g, m, visited)
  {
    hide HopsIn;
    assert forall m :: m in visited ==> m in visited - {};
  }

  lemma EvenIsVisited(g: Graph, entries: seq<string>, visited: set<string>, m: string)
    requires (forall r :: r in entries ==> r in visited) && (forall v :: v in visited ==> HopsIn(g, v, visited))
    requires EvenReachable(g, entries, m)
    ensures m in visited
  {
    var path :| IsEvenPath(g, entries, path) && path[|path| - 1] == m;
    ClosedHoldsEvenPath(g, entries, visited, path);
  }

  lemma SplitsAll(g: Graph, entries: seq<string>, visited: set<string>, chunks: seq<Chunk>)
    requires Explored(g, {}, visited, chunks) && forall r :: r in entries ==> r in visited
    requires AllEven(g, entries, visited)
    ensures Splits(g, entries, chunks)
  {
    hide EvenReachable, Reachable, HopsIn, ChunkOf, Spread;
    VisitedHops(g, visited, chunks);
    forall m | EvenReachable(g, entries, m)
      ensures m in visited
    {
      EvenIsVisited(g, entries, visited, m);
    }
    SpreadReachable(g, entries, visited);
    ChunksSpread(g, visited, chunks);
    NamesVisited(g, visited, chunks);
  }

  // A chunk belongs to the module it is named after.
  lemma NamesVisited(g: Graph, visited: set<string>, chunks: seq<Chunk>)
    requires Explored(g, {}, visited, chunks)
    ensures forall m :: m in visited <==> exists i :: 0 <= i < |chunks| && chunks[i].name == m
    ensures forall i :: 0 <= i < |chunks| ==> IsChunk(g, chunks[i])
  {
    hide ChunkOf, IsChunk, HopsIn;
    forall i | 0 <= i < |chunks|
      ensures IsChunk(g, chunks[i]) && chunks[i].name in visited
    {
      ChunkIs(g, chunks[i].name);
    }
    forall m | m in visited
      ensures exists i :: 0 <= i < |chunks| && chunks[i].name == m
    {
      assert m in visited - {};
      ChunkIs(g, m);
      var i :| 0 <= i < |chunks| && chunks[i] == ChunkOf(g, m);
    }
  }
}
