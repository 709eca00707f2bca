// The bundler's walk over the import graph: ids, worklist, registry
// (crates/bundler/src/lib.rs).
module BundleGraph {
  import opened Prelude

  // A canonical absolute path.
  type File = string

  // What stands for a module at run time: a path under the working directory,
  // printed "./...", an opaque number, printed "#n", or the name of a builtin.
  datatype Key = Rel(path: string) | Opaque(n: nat) | Builtin(name: string)

  // The two quotes a specifier can stand in.
  datatype Quote = Single | Double

  // A module's text as far as loading goes: stretches of code, and requires,
  // each with the code before its quoted specifier.
  datatype Item = Code(text: string) | Req(text: string, quote: Quote, spec: string)

  // The same after rewriting.
  datatype Linked = Plain(text: string) | Load(text: string, quote: Quote, key: Key)

  // The readable files, what the resolver makes of a specifier, which names are
  // builtins, and the prefix that every path under the working directory has.
  datatype Project = Project(
    files: map<File, seq<Item>>,
    resolve: (File, string) -> File,
    builtin: string -> bool,
    base: string)

  // ---- The graph -----------------------------------------------------------

  predicate Imports(p: Project, f: File, g: File) {
    f in p.files && exists i :: 0 <= i < |p.files[f]| && ImportsAt(p, f, i, g)
  }

  predicate ImportsAt(p: Project, f: File, i: nat, g: File)
    requires f in p.files && i < |p.files[f]|
  {
    p.files[f][i].Req? && !p.builtin(p.files[f][i].spec) && p.resolve(f, p.files[f][i].spec) == g
  }

  ghost predicate Chain(p: Project, path: seq<File>) {
    forall i, j :: 0 <= i && j == i + 1 && j < |path| ==> Imports(p, path[i], path[j])
  }

  // f is imported from the entry, directly or through others.
  ghost predicate Reachable(p: Project, entry: File, f: File) {
    exists path :: ReachedBy(p, entry, f, path)
  }

  ghost predicate ReachedBy(p: Project, entry: File, f: File, path: seq<File>) {
    path != [] && path[0] == entry && path[|path| - 1] == f && Chain(p, path)
  }

  lemma ReachableStep(p: Project, entry: File, f: File, g: File)
    requires Reachable(p, entry, f) && Imports(p, f, g)
    ensures Reachable(p, entry, g)
  {
    var path :| ReachedBy(p, entry, f, path);
    assert ReachedBy(p, entry, g, path + [g]);
  }

  ghost predicate ClosedUnderImports(p: Project, s: set<File>) {
    forall f, g :: f in s && Imports(p, f, g) ==> g in s
  }

  lemma {:induction false} ClosedHoldsReached(p: Project, entry: File, s: set<File>, path: seq<File>)
    requires entry in s && ClosedUnderImports(p, s)
    requires path != [] && path[0] == entry && Chain(p, path)
    ensures path[|path| - 1] in s
  {
    if |path| > 1 {
      var before := path[..|path| - 1];
      ClosedHoldsReached(p, entry, s, before);
      assert Imports(p, path[|path| - 2], path[|path| - 1]);
    }
  }

  // ---- Ids -----------------------------------------------------------------

  function Slashed(s: string): (r: string)
    ensures |r| == |s| && forall i :: 0 <= i < |s| ==> r[i] == if s[i] == '\\' then '/' else s[i]
  {
    if s == "" then "" else Slashed(s[..|s| - 1]) + [if s[|s| - 1] == '\\' then '/' else s[|s| - 1]]
  }

  function FreshId(p: Project, f: File, next: nat): Key {
    if p.base <= f then Rel(Slashed(f[|p.base|..])) else Opaque(next)
  }

  type Ids = map<File, Key>

  function Assign(p: Project, ids: Ids, f: File): Ids {
    if f in ids then ids else ids[f := FreshId(p, f, |ids|)]
  }

  // What every table built by assigning ids satisfies.
  ghost predicate WellAssigned(p: Project, ids: Ids) {
    && (forall f :: f in ids ==> !ids[f].Builtin? && (ids[f].Rel? <==> p.base <= f))
    && (forall f :: f in ids && p.base <= f ==> ids[f] == Rel(Slashed(f[|p.base|..])))
    && (forall f :: f in ids && ids[f].Opaque? ==> ids[f].n < |ids|)
    && (forall f, g :: f in ids && g in ids && f != g && ids[f].Opaque? ==> ids[f] != ids[g])
  }

  lemma AssignKeeps(p: Project, ids: Ids, f: File)
    requires WellAssigned(p, ids)
    ensures WellAssigned(p, Assign(p, ids, f))
  {
  }

  ghost predicate Injective(ids: Ids) {
    forall f, g :: f in ids && g in ids && f != g ==> ids[f] != ids[g]
  }

  // Distinct files share an id exactly when both lie under the working directory
  // and differ there only in backslashes standing where the other has slashes.
  lemma IdsInjectiveExact(p: Project, ids: Ids)
    requires WellAssigned(p, ids)
    ensures Injective(ids) <==>
      forall f, g :: f in ids && g in ids && f != g && p.base <= f && p.base <= g ==>
        Slashed(f[|p.base|..]) != Slashed(g[|p.base|..])
  {
  }

  // Without backslashes in file names every file has its own id.
  lemma NoBackslashInjective(p: Project, ids: Ids)
    requires WellAssigned(p, ids) && forall f :: f in ids ==> '\\' !in f
    ensures Injective(ids)
  {
    hide WellAssigned, Injective;
    forall f, g | f in ids && g in ids && f != g && p.base <= f && p.base <= g
      ensures Slashed(f[|p.base|..]) != Slashed(g[|p.base|..])
    {
      SlashedIsSame(f[|p.base|..]);
      SlashedIsSame(g[|p.base|..]);
      assert f == p.base + f[|p.base|..] && g == p.base + g[|p.base|..];
    }
    IdsInjectiveExact(p, ids);
  }

  lemma SlashedIsSame(s: string)
    requires '\\' !in s
    ensures Slashed(s) == s
  {
    assert forall i :: 0 <= i < |s| ==> s[i] in s;
  }

  // ---- The bundle ----------------------------------------------------------

  datatype Bundle = Bundle(registry: map<Key, seq<Linked>>, entryId: Key)

  datatype Result<T> = Ok(value: T) | Err(message: string)

  // A module's text with every require but those of builtins pointing at an id.
  function LinkItem(p: Project, ids: Ids, f: File, item: Item): Linked {
    match item
    case Code(text) => Plain(text)
    case Req(text, quote, spec) =>
      if p.builtin(spec) then Load(text, quote, Builtin(spec))
      else Load(text, quote, var g := p.resolve(f, spec); if g in ids then ids[g] else Builtin(spec))
  }

  ghost predicate LinkedAs(p: Project, ids: Ids, f: File, items: seq<Item>, body: seq<Linked>) {
    |body| == |items| && forall i :: 0 <= i < |items| ==> body[i] == LinkItem(p, ids, f, items[i])
  }

  // Ids given out are never changed.
  ghost predicate Extends(more: Ids, ids: Ids) {
    forall f :: f in ids ==> f in more && more[f] == ids[f]
  }

  ghost predicate TargetsIn(p: Project, f: File, items: seq<Item>, ids: Ids) {
    forall i :: 0 <= i < |items| && items[i].Req? && !p.builtin(items[i].spec) ==> p.resolve(f, items[i].spec) in ids
  }

  lemma LinkedStays(p: Project, ids: Ids, more: Ids, f: File, items: seq<Item>, body: seq<Linked>)
    requires LinkedAs(p, ids, f, items, body) && TargetsIn(p, f, items, ids) && Extends(more, ids)
    ensures LinkedAs(p, more, f, items, body) && TargetsIn(p, f, items, more)
  {
  }

  predicate Wants(p: Project, f: File, items: seq<Item>, g: File) {
    exists k :: 0 <= k < |items| && WantsAt(p, f, items[k], g)
  }

  predicate WantsAt(p: Project, f: File, item: Item, g: File) {
    item.Req? && !p.builtin(item.spec) && p.resolve(f, item.spec) == g
  }

  ghost predicate NoRepeats(s: seq<File>) { forall i, j :: 0 <= i < j < |s| ==> s[i] != s[j] }

  // `added` are the files first met in these items: what the ids grew by.
  ghost predicate Discovered(p: Project, f: File, items: seq<Item>, ids0: Ids, ids: Ids, added: seq<File>) {
    && NoRepeats(added)
    && (forall g :: g in added ==> g !in ids0 && Wants(p, f, items, g))
    && (forall g :: g in ids <==> g in ids0 || g in added)
  }

  lemma DiscoveredNext(p: Project, f: File, items: seq<Item>, item: Item, ids0: Ids, ids: Ids, added: seq<File>,
        g: File)
    requires Discovered(p, f, items, ids0, ids, added) && WantsAt(p, f, item, g)
    ensures g in ids ==> Discovered(p, f, items + [item], ids0, ids, added)
    ensures g !in ids ==> Discovered(p, f, items + [item], ids0, Assign(p, ids, g), added + [g])
  {
    var more := items + [item];
    forall h | h in added || h == g
      ensures Wants(p, f, more, h)
    {
      if h in added {
        var k :| 0 <= k < |items| && WantsAt(p, f, items[k], h);
        assert WantsAt(p, f, more[k], h);
      } else {
        assert WantsAt(p, f, more[|items|], h);
      }
    }
  }

  lemma DiscoveredSkip(p: Project, f: File, items: seq<Item>, item: Item, ids0: Ids, ids: Ids, added: seq<File>)
    requires Discovered(p, f, items, ids0, ids, added)
    ensures Discovered(p, f, items + [item], ids0, ids, added)
  {
    forall h | h in added
      ensures Wants(p, f, items + [item], h)
    {
      var k :| 0 <= k < |items| && WantsAt(p, f, items[k], h);
      assert WantsAt(p, f, (items + [item])[k], h);
    }
  }

  // The body under the ids, with nothing left unassigned.
  ghost predicate Resolved(p: Project, ids: Ids, f: File, items: seq<Item>, body: seq<Linked>) {
    LinkedAs(p, ids, f, items, body) && TargetsIn(p, f, items, ids)
  }

  lemma ResolvedNext(p: Project, ids: Ids, more: Ids, f: File, items: seq<Item>, body: seq<Linked>, item: Item)
    requires Resolved(p, ids, f, items, body) && Extends(more, ids)
    requires item.Req? && !p.builtin(item.spec) ==> p.resolve(f, item.spec) in more
    ensures Resolved(p, more, f, items + [item], body + [LinkItem(p, more, f, item)])
  {
    LinkedStays(p, ids, more, f, items, body);
  }

  // Where the pass over one module's items stands.
  ghost predicate Linking(p: Project, f: File, items: seq<Item>, ids0: Ids, ids: Ids, added: seq<File>,
        body: seq<Linked>) {
    && WellAssigned(p, ids) && Extends(ids, ids0)
    && Resolved(p, ids, f, items, body)
    && Discovered(p, f, items, ids0, ids, added)
  }

  lemma LinkRequire(p: Project, f: File, items: seq<Item>, item: Item, ids0: Ids, ids: Ids, added: seq<File>,
        body: seq<Linked>, g: File)
    requires Linking(p, f, items, ids0, ids, added, body) && WantsAt(p, f, item, g)
    ensures var more := Assign(p, ids, g);
      Linking(p, f, items + [item], ids0, more, if g in ids then added else added + [g],
        body + [LinkItem(p, more, f, item)])
  {
    AssignKeeps(p, ids, g);
    DiscoveredNext(p, f, items, item, ids0, ids, added, g);
    ResolvedNext(p, ids, Assign(p, ids, g), f, items, body, item);
  }

  lemma LinkOther(p: Project, f: File, items: seq<Item>, item: Item, ids0: Ids, ids: Ids, added: seq<File>,
        body: seq<Linked>)
    requires Linking(p, f, items, ids0, ids, added, body) && (item.Code? || p.builtin(item.spec))
    ensures Linking(p, f, items + [item], ids0, ids, added, body + [LinkItem(p, ids, f, item)])
  {
    DiscoveredSkip(p, f, items, item, ids0, ids, added);
    ResolvedNext(p, ids, ids, f, items, body, item);
  }

  // What one pass over a module's items makes of the ids: the body, the ids
  // after it, the files first met.
  datatype Links = Links(body: seq<Linked>, ids: Ids, added: seq<File>)

  function LinkNext(p: Project, f: File, l: Links, item: Item): Links {
    if item.Req? && !p.builtin(item.spec) then
      var g := p.resolve(f, item.spec);
      var ids := Assign(p, l.ids, g);
      Links(l.body + [LinkItem(p, ids, f, item)], ids, if g in l.ids then l.added else l.added + [g])
    else l.(body := l.body + [LinkItem(p, l.ids, f, item)])
  }

  function LinkAll(p: Project, f: File, items: seq<Item>, ids: Ids): Links {
    if items == [] then Links([], ids, [])
    else LinkNext(p, f, LinkAll(p, f, items[..|items| - 1], ids), items[|items| - 1])
  }

  lemma {:induction false} LinkAllLinks(p: Project, f: File, items: seq<Item>, ids: Ids)
    requires WellAssigned(p, ids)
    ensures var l := LinkAll(p, f, items, ids); Linking(p, f, items, ids, l.ids, l.added, l.body)
  {
    if items != [] {
      var before, item := items[..|items| - 1], items[|items| - 1];
      LinkAllLinks(p, f, before, ids);
      var l := LinkAll(p, f, before, ids);
      assert items == before + [item];
      if item.Req? && !p.builtin(item.spec) {
        LinkRequire(p, f, before, item, ids, l.ids, l.added, l.body, p.resolve(f, item.spec));
      } else {
        LinkOther(p, f, before, item, ids, l.ids, l.added, l.body);
      }
    }
  }

  // One item: its target, if it has one, gets an id, and is queued if new.
  method LinkOne(p: Project, f: File, item: Item, ids0: Ids, queued0: set<File>, queue0: seq<File>, ghost l: Links,
        ghost start: seq<File>)
    returns (linked: Linked, ids: Ids, queued: set<File>, queue: seq<File>)
    requires ids0 == l.ids && queued0 == ids0.Keys && queue0 == start + l.added
    ensures var l' := LinkNext(p, f, l, item);
      l'.body == l.body + [linked] && ids == l'.ids && queued == ids.Keys && queue == start + l'.added
  {
    ids, queued, queue := ids0, queued0, queue0;
    if item.Req? && !p.builtin(item.spec) {
      var g := p.resolve(f, item.spec);
      if g !in queued {
        queued := queued + {g};
        queue := queue + [g];
        assert queue == start + (l.added + [g]);
      }
      ids := Assign(p, ids, g);
    }
    linked := LinkItem(p, ids, f, item);
  }

  // One module's requires, left to right.
  method LinkModule(p: Project, f: File, items: seq<Item>, ids0: Ids, queued0: set<File>, queue0: seq<File>)
    returns (body: seq<Linked>, ids: Ids, queued: set<File>, queue: seq<File>)
    requires queued0 == ids0.Keys
    ensures var l := LinkAll(p, f, items, ids0);
      body == l.body && ids == l.ids && queued == ids.Keys && queue == queue0 + l.added
  {
    hide LinkAll, LinkNext;
    LinkNone(p, f, items, ids0);
    body, ids, queued, queue := [], ids0, queued0, queue0;
    ghost var l := Links([], ids0, []);
    for n := 0 to |items|
      invariant l == LinkAll(p, f, items[..n], ids0)
      invariant body == l.body && ids == l.ids && queued == ids.Keys && queue == queue0 + l.added
    {
      var linked;
      LinkAllStep(p, f, items, n, ids0);
      linked, ids, queued, queue := LinkOne(p, f, items[n], ids, queued, queue, l, queue0);
      l := LinkNext(p, f, l, items[n]);
      body := body + [linked];
    }
    assert items[..|items|] == items;
  }

  lemma LinkNone(p: Project, f: File, items: seq<Item>, ids: Ids)
    ensures LinkAll(p, f, items[..0], ids) == Links([], ids, [])
  {
  }

  lemma LinkAllStep(p: Project, f: File, items: seq<Item>, n: nat, ids: Ids)
    requires n < |items|
    ensures LinkAll(p, f, items[..n + 1], ids) == LinkNext(p, f, LinkAll(p, f, items[..n], ids), items[n])
  {
    assert items[..n + 1][..n] == items[..n];
  }

  // ---- The worklist --------------------------------------------------------

  // Where the walk stands: every assigned file is either done or still queued.
  ghost predicate Walked(p: Project, entry: File, ids: Ids, queue: seq<File>, done: set<File>) {
    && WellAssigned(p, ids)
    && NoRepeats(queue)
    && entry in ids
    && (forall f :: f in ids <==> f in done || f in queue)
    && (forall f :: f in queue ==> f !in done)
    && (forall f :: f in ids ==> Reachable(p, entry, f))
    && (forall f :: f in done ==> f in p.files && TargetsIn(p, f, p.files[f], ids))
  }

  // The registry holds exactly the modules done, linked under the ids.
  ghost predicate Registered(p: Project, ids: Ids, done: set<File>, registry: map<Key, seq<Linked>>) {
    && (forall f :: f in done ==> f in ids && f in p.files && ids[f] in registry)
    && (forall key :: key in registry ==> exists f :: f in done && f in ids && ids[f] == key)
    && (Injective(ids) ==> forall f :: f in done ==> LinkedAs(p, ids, f, p.files[f], registry[ids[f]]))
  }

  lemma QueueSplits(rest: seq<File>, f: File)
    requires NoRepeats(rest + [f])
    ensures NoRepeats(rest) && f !in rest
  {
    forall i | 0 <= i < |rest|
      ensures rest[i] != f
    {
      assert (rest + [f])[i] != (rest + [f])[|rest|];
    }
    forall i, j | 0 <= i < j < |rest|
      ensures rest[i] != rest[j]
    {
      assert (rest + [f])[i] != (rest + [f])[j];
    }
  }

  lemma NoRepeatsConcat(a: seq<File>, b: seq<File>)
    requires NoRepeats(a) && NoRepeats(b) && forall f :: f in a ==> f !in b
    ensures NoRepeats(a + b)
  {
    forall i, j | 0 <= i < j < |a + b|
      ensures (a + b)[i] != (a + b)[j]
    {
      if i < |a| <= j { assert a[i] in a && b[j - |a|] in b; }
    }
  }

  lemma AddedReachable(p: Project, entry: File, ids0: Ids, ids: Ids, f: File, added: seq<File>)
    requires f in p.files && Reachable(p, entry, f) && Discovered(p, f, p.files[f], ids0, ids, added)
    ensures forall g :: g in added ==> Reachable(p, entry, g)
  {
    forall g | g in added
      ensures Reachable(p, entry, g)
    {
      var k :| 0 <= k < |p.files[f]| && WantsAt(p, f, p.files[f][k], g);
      assert ImportsAt(p, f, k, g);
      ReachableStep(p, entry, f, g);
    }
  }

  // Taking f off the queue and adding what it discovers keeps the queue the
  // assigned files not done.
  lemma QueueNext(p: Project, ids0: Ids, ids: Ids, rest: seq<File>, done: set<File>, f: File, items: seq<Item>,
        added: seq<File>)
    requires NoRepeats(rest + [f]) && Discovered(p, f, items, ids0, ids, added)
    requires forall g :: g in ids0 <==> g in done || g in rest + [f]
    requires forall g :: g in rest + [f] ==> g !in done
    ensures NoRepeats(rest + added)
    ensures forall g :: g in ids <==> g in done + {f} || g in rest + added
    ensures forall g :: g in rest + added ==> g !in done + {f}
  {
    QueueSplits(rest, f);
    assert forall g :: g in rest + [f] <==> g in rest || g == f;
    assert forall g :: g in rest + added <==> g in rest || g in added;
    NoRepeatsConcat(rest, added);
  }

  lemma WalkedNext(p: Project, entry: File, ids: Ids, rest: seq<File>, done: set<File>, f: File)
    requires Walked(p, entry, ids, rest + [f], done) && f in p.files
    ensures var l := LinkAll(p, f, p.files[f], ids); Walked(p, entry, l.ids, rest + l.added, done + {f})
  {
    var l := LinkAll(p, f, p.files[f], ids);
    LinkAllLinks(p, f, p.files[f], ids);
    assert (rest + [f])[|rest|] == f;
    QueueNext(p, ids, l.ids, rest, done, f, p.files[f], l.added);
    AddedReachable(p, entry, ids, l.ids, f, l.added);
    forall g | g in done
      ensures TargetsIn(p, g, p.files[g], l.ids)
    {
      assert TargetsIn(p, g, p.files[g], ids);
    }
  }

  lemma RegisteredNext(p: Project, ids0: Ids, ids: Ids, done: set<File>, registry: map<Key, seq<Linked>>, f: File,
        body: seq<Linked>)
    requires Registered(p, ids0, done, registry) && Extends(ids, ids0) && f !in done && f in ids && f in p.files
    requires forall g :: g in done ==> TargetsIn(p, g, p.files[g], ids0)
    requires LinkedAs(p, ids, f, p.files[f], body)
    ensures Registered(p, ids, done + {f}, registry[ids[f] := body])
  {
    var registry' := registry[ids[f] := body];
    forall key | key in registry'
      ensures exists g :: g in done + {f} && g in ids && ids[g] == key
    {
      if key == ids[f] { assert f in done + {f}; } else {
        var g :| g in done && g in ids0 && ids0[g] == key;
        assert g in done + {f} && ids[g] == key;
      }
    }
    if Injective(ids) {
      forall g | g in done
        ensures LinkedAs(p, ids, g, p.files[g], registry[ids[f] := body][ids[g]])
      {
        LinkedStays(p, ids0, ids, g, p.files[g], registry[ids0[g]]);
      }
    }
  }

  // What a finished walk over the graph from `entry` has: an id for exactly the
  // reachable files, and under those ids a registry of exactly their modules,
  // closed under every require that is not a builtin's.
  ghost predicate Bundles(p: Project, entry: File, ids: Ids, b: Bundle) {
    && WellAssigned(p, ids)
    && (forall f :: f in ids <==> Reachable(p, entry, f))
    && entry in ids && b.entryId == ids[entry]
    && Registered(p, ids, ids.Keys, b.registry)
    && (forall f :: f in ids ==> TargetsIn(p, f, p.files[f], ids))
  }

  // One turn of the walk, on a file that can be read.
  lemma TurnKeeps(p: Project, entry: File, ids: Ids, rest: seq<File>, done: set<File>, registry: map<Key, seq<Linked>>,
        f: File)
    requires Walked(p, entry, ids, rest + [f], done) && f in p.files && Registered(p, ids, done, registry)
    ensures f !in done
    ensures var l := LinkAll(p, f, p.files[f], ids);
      && f in l.ids && entry in l.ids && l.ids[entry] == ids[entry]
      && Walked(p, entry, l.ids, rest + l.added, done + {f})
      && Registered(p, l.ids, done + {f}, registry[l.ids[f] := l.body])
  {
    assert (rest + [f])[|rest|] == f;
    WalkedNext(p, entry, ids, rest, done, f);
    LinkAllLinks(p, f, p.files[f], ids);
    var l := LinkAll(p, f, p.files[f], ids);
    RegisteredNext(p, ids, l.ids, done, registry, f, l.body);
  }

  // The walk ends with a bundle exactly when every reachable file can be read.
  method BundleFiles(p: Project, entry: File) returns (r: Result<Bundle>, ghost ids: Ids)
    ensures r.Ok? <==> forall f :: Reachable(p, entry, f) ==> f in p.files
    ensures r.Ok? ==> Bundles(p, entry, ids, r.value)
  {
    hide Walked, Registered, Bundles, Reachable;
    ids := map[];
    EntryReachable(p, entry);
    if entry !in p.files {
      return Err("Entry file not found"), ids;
    }
    var table: Ids := map[entry := FreshId(p, entry, 0)];
    var entryId := table[entry];
    var registry: map<Key, seq<Linked>> := map[];
    var queue, queued := [entry], {entry};
    ghost var done: set<File> := {};
    WalkStarts(p, entry);
    while queue != []
      invariant entry in table && Walked(p, entry, table, queue, done) && queued == table.Keys
      invariant Registered(p, table, done, registry) && entryId == table[entry]
      decreases p.files.Keys - done
    {
      var f := queue[|queue| - 1];
      ghost var rest := queue[..|queue| - 1];
      assert queue == rest + [f];
      queue := queue[..|queue| - 1];
      if f !in p.files {
        QueuedReachable(p, entry, table, rest, done, f);
        return Err("Reading " + f), table;
      }
      TurnKeeps(p, entry, table, rest, done, registry, f);
      var body;
      body, table, queued, queue := LinkModule(p, f, p.files[f], table, queued, queue);
      registry := registry[table[f] := body];
      done := done + {f};
    }
    ids := table;
    r := Ok(Bundle(registry, entryId));
    WalkDone(p, entry, ids, done, r.value);
  }

  lemma WalkStarts(p: Project, entry: File)
    ensures var ids: Ids := map[entry := FreshId(p, entry, 0)];
      Walked(p, entry, ids, [entry], {}) && Registered(p, ids, {}, map[])
  {
    EntryReachable(p, entry);
  }

  lemma QueuedReachable(p: Project, entry: File, ids: Ids, rest: seq<File>, done: set<File>, f: File)
    requires Walked(p, entry, ids, rest + [f], done)
    ensures Reachable(p, entry, f)
  {
    assert (rest + [f])[|rest|] == f;
  }

  lemma EntryReachable(p: Project, entry: File)
    ensures Reachable(p, entry, entry)
  {
    assert ReachedBy(p, entry, entry, [entry]);
  }

  lemma WalkDone(p: Project, entry: File, ids: Ids, done: set<File>, b: Bundle)
    requires Walked(p, entry, ids, [], done) && Registered(p, ids, done, b.registry) && b.entryId == ids[entry]
    ensures Bundles(p, entry, ids, b)
    ensures forall f :: Reachable(p, entry, f) ==> f in p.files
  {
    assert done == ids.Keys;
    WalkIsClosed(p, entry, ids);
  }

  lemma WalkIsClosed(p: Project, entry: File, ids: Ids)
    requires Walked(p, entry, ids, [], ids.Keys)
    ensures forall f :: f in ids <==> Reachable(p, entry, f)
  {
    assert ClosedUnderImports(p, ids.Keys) by {
      forall f, g | f in ids && Imports(p, f, g)
        ensures g in ids
      {
        var i :| 0 <= i < |p.files[f]| && ImportsAt(p, f, i, g);
        assert TargetsIn(p, f, p.files[f], ids);
      }
    }
    forall f | Reachable(p, entry, f)
      ensures f in ids
    {
      var path :| ReachedBy(p, entry, f, path);
      ClosedHoldsReached(p, entry, ids.Keys, path);
    }
  }
}
