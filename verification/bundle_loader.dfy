// Running the bundle: the emitted `require`, and the unbundled loader it has to
// behave like (crates/bundler/src/lib.rs).
module BundleLoader {
  import opened Prelude
  import opened BundleGraph

  // What module code does, for any meaning of it: a world W it changes, and
  // whether a piece of it executes at all. Module objects are known to it only
  // as numbers in the order they are made, which is all a program can tell of
  // an object's identity.
  datatype Meaning<!W> = Meaning(
    make: (W, nat) -> W,
    executes: (W, nat, string) -> bool,
    run: (W, nat, string) -> W,
    receive: (W, nat, string, nat) -> W,
    receiveHost: (W, nat, string, string) -> W)

  // The loader's state: the module cache, the keys in load order, the world.
  datatype Loading<K(==), W> = Loading(cache: map<K, nat>, order: seq<K>, world: W)

  function Begin<K, W>(m: Meaning<W>, key: K, st: Loading<K, W>): Loading<K, W> {
    Loading(st.cache[key := |st.order|], st.order + [key], m.make(st.world, |st.order|))
  }

  // ---- The emitted loader --------------------------------------------------

  // require(id): a cached module is returned as it is, finished or not; an id
  // that is no module goes to the host; a new one is cached, then run.
  function Require<W>(registry: map<Key, seq<Linked>>, m: Meaning<W>, key: Key,
        st: Loading<Key, W>): (r: Loading<Key, W>)
    ensures st.cache.Keys <= r.cache.Keys
    decreases |registry.Keys - st.cache.Keys|, 0
  {
    if key in st.cache || key !in registry then st
    else
      BeginShrinks(registry.Keys, m, key, st);
      RunBody(registry, m, registry[key], 0, |st.order|, Begin(m, key, st))
  }

  // The module's function, from piece k on, as module object n.
  function RunBody<W>(registry: map<Key, seq<Linked>>, m: Meaning<W>, body: seq<Linked>, k: nat, n: nat,
        st: Loading<Key, W>): (r: Loading<Key, W>)
    requires k <= |body|
    ensures st.cache.Keys <= r.cache.Keys
    decreases |registry.Keys - st.cache.Keys|, 1 + |body| - k
  {
    if k == |body| then st
    else if !m.executes(st.world, n, body[k].text) then RunBody(registry, m, body, k + 1, n, st)
    else match body[k]
      case Plain(text) => RunBody(registry, m, body, k + 1, n, st.(world := m.run(st.world, n, text)))
      case Load(text, _, key) =>
        var st1 := Require(registry, m, key, st);
        FewerLeft(registry.Keys, st.cache.Keys, st1.cache.Keys);
        RunBody(registry, m, body, k + 1, n, st1.(world := Hand(m, n, text, key, st1)))
  }

  // What the caller gets: the module's object, or the host's answer.
  function Hand<W>(m: Meaning<W>, n: nat, text: string, key: Key, st: Loading<Key, W>): W {
    if key in st.cache then m.receive(st.world, n, text, st.cache[key])
    else m.receiveHost(st.world, n, text, if key.Builtin? then key.name else "")
  }

  // Each module begun leaves one fewer to begin.
  lemma BeginShrinks<K, W>(all: set<K>, m: Meaning<W>, key: K, st: Loading<K, W>)
    requires key in all && key !in st.cache
    ensures |all - Begin(m, key, st).cache.Keys| < |all - st.cache.Keys|
  {
    assert Begin(m, key, st).cache.Keys == st.cache.Keys + {key};
    assert all - st.cache.Keys == (all - Begin(m, key, st).cache.Keys) + {key};
  }

  lemma FewerLeft<K>(all: set<K>, before: set<K>, after: set<K>)
    requires before <= after
    ensures |all - after| <= |all - before|
  {
    SubsetSize(all - after, all - before);
  }

  lemma {:induction false} SubsetSize<K>(a: set<K>, b: set<K>)
    requires a <= b
    ensures |a| <= |b|
    decreases a
  {
    if a != {} {
      var x :| x in a;
      SubsetSize(a - {x}, b - {x});
    }
  }

  // ---- The unbundled loader ------------------------------------------------

  // Resolve and cache: each specifier is resolved when it is required, against
  // the requiring file; modules are cached by file.
  function Import<W>(p: Project, m: Meaning<W>, f: File, st: Loading<File, W>): (r: Loading<File, W>)
    ensures st.cache.Keys <= r.cache.Keys
    decreases |p.files.Keys - st.cache.Keys|, 0
  {
    if f in st.cache || f !in p.files then st
    else
      BeginShrinks(p.files.Keys, m, f, st);
      RunFile(p, m, f, p.files[f], 0, |st.order|, Begin(m, f, st))
  }

  function RunFile<W>(p: Project, m: Meaning<W>, f: File, items: seq<Item>, k: nat, n: nat,
        st: Loading<File, W>): (r: Loading<File, W>)
    requires k <= |items|
    ensures st.cache.Keys <= r.cache.Keys
    decreases |p.files.Keys - st.cache.Keys|, 1 + |items| - k
  {
    if k == |items| then st
    else if !m.executes(st.world, n, items[k].text) then RunFile(p, m, f, items, k + 1, n, st)
    else match items[k]
      case Code(text) => RunFile(p, m, f, items, k + 1, n, st.(world := m.run(st.world, n, text)))
      case Req(text, _, spec) =>
        if p.builtin(spec) then
          RunFile(p, m, f, items, k + 1, n, st.(world := m.receiveHost(st.world, n, text, spec)))
        else
          var g := p.resolve(f, spec);
          var st1 := Import(p, m, g, st);
          FewerLeft(p.files.Keys, st.cache.Keys, st1.cache.Keys);
          RunFile(p, m, f, items, k + 1, n,
            st1.(world := if g in st1.cache then m.receive(st1.world, n, text, st1.cache[g]) else st1.world))
  }

  // ---- At most once --------------------------------------------------------

  // Every module in the cache was begun exactly once: the load order has no
  // repeats and lists exactly the cache, each module at its own number.
  ghost predicate Once<K(!new), W(!new)>(st: Loading<K, W>) {
    && (forall i {:trigger st.order[i]} :: 0 <= i < |st.order| ==>
      st.order[i] in st.cache && st.cache[st.order[i]] == i)
    && (forall key {:trigger key in st.cache} :: key in st.cache ==>
      st.cache[key] < |st.order| && st.order[st.cache[key]] == key)
  }

  lemma BeginOnce<K(!new), W(!new)>(m: Meaning<W>, key: K, st: Loading<K, W>)
    requires Once(st) && key !in st.cache
    ensures Once(Begin(m, key, st)) && st.order <= Begin(m, key, st).order
  {
  }

  lemma {:induction false} RequireOnce<W(!new)>(registry: map<Key, seq<Linked>>, m: Meaning<W>, key: Key,
        st: Loading<Key, W>)
    requires Once(st)
    ensures Once(Require(registry, m, key, st))
    ensures st.order <= Require(registry, m, key, st).order
    decreases |registry.Keys - st.cache.Keys|, 0
  {
    if !(key in st.cache || key !in registry) {
      BeginShrinks(registry.Keys, m, key, st);
      BeginOnce(m, key, st);
      BodyOnce(registry, m, registry[key], 0, |st.order|, Begin(m, key, st));
    }
  }

  lemma OnceWorld<K(!new), W(!new)>(st: Loading<K, W>, world: W)
    requires Once(st)
    ensures Once(st.(world := world))
  {
  }

  lemma {:induction false} BodyOnce<W(!new)>(registry: map<Key, seq<Linked>>, m: Meaning<W>, body: seq<Linked>, k: nat,
        n: nat, st: Loading<Key, W>)
    requires k <= |body| && Once(st)
    ensures Once(RunBody(registry, m, body, k, n, st))
    ensures st.order <= RunBody(registry, m, body, k, n, st).order
    decreases |registry.Keys - st.cache.Keys|, 1 + |body| - k
  {
    if k < |body| {
      if !m.executes(st.world, n, body[k].text) {
        BodyOnce(registry, m, body, k + 1, n, st);
      } else {
        match body[k] {
          case Plain(text) =>
            OnceWorld(st, m.run(st.world, n, text));
            BodyOnce(registry, m, body, k + 1, n, st.(world := m.run(st.world, n, text)));
          case Load(text, _, key) =>
            RequireOnce(registry, m, key, st);
            var st1 := Require(registry, m, key, st);
            FewerLeft(registry.Keys, st.cache.Keys, st1.cache.Keys);
            OnceWorld(st1, Hand(m, n, text, key, st1));
            BodyOnce(registry, m, body, k + 1, n, st1.(world := Hand(m, n, text, key, st1)));
        }
      }
    }
  }

  // ---- The same behaviour --------------------------------------------------

  function Renamed(ids: Ids, order: seq<File>): seq<Key>
    requires forall f :: f in order ==> f in ids
  {
    if order == [] then [] else Renamed(ids, order[..|order| - 1]) + [ids[order[|order| - 1]]]
  }

  // The two loaders stand at the same point: same modules in the same order,
  // the same object for each, the same world.
  ghost predicate Matches<W(!new)>(ids: Ids, u: Loading<File, W>, b: Loading<Key, W>) {
    && u.world == b.world
    && (forall f :: f in u.order ==> f in ids)
    && b.order == Renamed(ids, u.order)
    && (forall f :: f in u.cache ==> f in ids && ids[f] in b.cache && b.cache[ids[f]] == u.cache[f])
    && (forall f :: f in ids && ids[f] in b.cache ==> f in u.cache)
    && (forall key :: key in b.cache ==> !key.Builtin?)
  }

  ghost predicate FaithfulAt(p: Project, ids: Ids, registry: map<Key, seq<Linked>>, f: File)
    requires f in ids
  {
    && f in p.files && ids[f] in registry
    && LinkedAs(p, ids, f, p.files[f], registry[ids[f]]) && TargetsIn(p, f, p.files[f], ids)
  }

  // What the walk over the graph has established about ids and registry.
  ghost predicate Faithful(p: Project, ids: Ids, registry: map<Key, seq<Linked>>) {
    && Injective(ids)
    && (forall f :: f in ids ==> !ids[f].Builtin? && FaithfulAt(p, ids, registry, f))
    && (forall key :: key in registry ==> !key.Builtin?)
  }

  lemma BeginMatches<W(!new)>(ids: Ids, m: Meaning<W>, f: File, u: Loading<File, W>, b: Loading<Key, W>)
    requires Matches(ids, u, b) && Injective(ids) && f in ids && !ids[f].Builtin? && |u.order| == |b.order|
    ensures Matches(ids, Begin(m, f, u), Begin(m, ids[f], b))
  {
    var u', b' := Begin(m, f, u), Begin(m, ids[f], b);
    assert u'.order[..|u'.order| - 1] == u.order;
  }

  lemma {:induction false} RenamedLength(ids: Ids, order: seq<File>)
    requires forall f :: f in order ==> f in ids
    ensures |Renamed(ids, order)| == |order|
    ensures forall i :: 0 <= i < |order| ==> Renamed(ids, order)[i] == ids[order[i]]
  {
    if order != [] { RenamedLength(ids, order[..|order| - 1]); }
  }

  lemma {:induction false} ImportMatches<W(!new)>(p: Project, ids: Ids, registry: map<Key, seq<Linked>>, m: Meaning<W>,
        f: File, u: Loading<File, W>, b: Loading<Key, W>)
    requires Faithful(p, ids, registry) && Matches(ids, u, b) && f in ids
    ensures Matches(ids, Import(p, m, f, u), Require(registry, m, ids[f], b))
    ensures f in Import(p, m, f, u).cache
    decreases |p.files.Keys - u.cache.Keys|, 0
  {
    if f !in u.cache {
      BeginShrinks(p.files.Keys, m, f, u);
      RenamedLength(ids, u.order);
      BeginMatches(ids, m, f, u, b);
      BodyMatches(p, ids, registry, m, f, 0, |u.order|, Begin(m, f, u), Begin(m, ids[f], b));
    }
  }

  lemma WorldMatches<W(!new)>(ids: Ids, u: Loading<File, W>, b: Loading<Key, W>, world: W)
    requires Matches(ids, u, b)
    ensures Matches(ids, u.(world := world), b.(world := world))
  {
  }

  // The world after an item that loads no module.
  function Quiet<W>(m: Meaning<W>, item: Item, n: nat, world: W): W {
    if !m.executes(world, n, item.text) then world
    else if item.Code? then m.run(world, n, item.text)
    else m.receiveHost(world, n, item.text, item.spec)
  }

  lemma QuietFile<W(!new)>(p: Project, m: Meaning<W>, f: File, items: seq<Item>, k: nat, n: nat, u: Loading<File, W>)
    requires k < |items| && !(m.executes(u.world, n, items[k].text) && items[k].Req? && !p.builtin(items[k].spec))
    ensures RunFile(p, m, f, items, k, n, u)
      == RunFile(p, m, f, items, k + 1, n, u.(world := Quiet(m, items[k], n, u.world)))
  {
  }

  lemma QuietBody<W(!new)>(p: Project, ids: Ids, registry: map<Key, seq<Linked>>, m: Meaning<W>, f: File, item: Item,
        body: seq<Linked>, k: nat, n: nat, b: Loading<Key, W>)
    requires k < |body| && body[k] == LinkItem(p, ids, f, item)
    requires !(m.executes(b.world, n, item.text) && item.Req? && !p.builtin(item.spec))
    requires (forall key :: key in registry ==> !key.Builtin?) && (forall key :: key in b.cache ==> !key.Builtin?)
    ensures RunBody(registry, m, body, k, n, b)
      == RunBody(registry, m, body, k + 1, n, b.(world := Quiet(m, item, n, b.world)))
  {
  }

  lemma {:induction false} BodyMatches<W(!new)>(p: Project, ids: Ids, registry: map<Key, seq<Linked>>, m: Meaning<W>,
        f: File, k: nat, n: nat, u: Loading<File, W>, b: Loading<Key, W>)
    requires Faithful(p, ids, registry) && Matches(ids, u, b) && f in ids && k <= |p.files[f]|
    ensures Matches(ids, RunFile(p, m, f, p.files[f], k, n, u), RunBody(registry, m, registry[ids[f]], k, n, b))
    decreases |p.files.Keys - u.cache.Keys|, 2 + 2 * (|p.files[f]| - k)
  {
    if k < |p.files[f]| {
      var item := p.files[f][k];
      assert FaithfulAt(p, ids, registry, f);
      assert registry[ids[f]][k] == LinkItem(p, ids, f, item);
      if m.executes(u.world, n, item.text) && item.Req? && !p.builtin(item.spec) {
        LoadMatches(p, ids, registry, m, f, k, n, u, b);
      } else {
        var world := Quiet(m, item, n, u.world);
        QuietFile(p, m, f, p.files[f], k, n, u);
        QuietBody(p, ids, registry, m, f, item, registry[ids[f]], k, n, b);
        WorldMatches(ids, u, b, world);
        BodyMatches(p, ids, registry, m, f, k + 1, n, u.(world := world), b.(world := world));
      }
    }
  }

  // The case of a require that loads a module: on either side it is loaded, and
  // its object received.
  lemma LoadFile<W(!new)>(p: Project, m: Meaning<W>, f: File, items: seq<Item>, k: nat, n: nat, u: Loading<File, W>)
    requires k < |items| && m.executes(u.world, n, items[k].text) && items[k].Req? && !p.builtin(items[k].spec)
    requires p.resolve(f, items[k].spec) in Import(p, m, p.resolve(f, items[k].spec), u).cache
    ensures var g := p.resolve(f, items[k].spec);
      var u1 := Import(p, m, g, u);
      RunFile(p, m, f, items, k, n, u)
      == RunFile(p, m, f, items, k + 1, n, u1.(world := m.receive(u1.world, n, items[k].text, u1.cache[g])))
  {
  }

  lemma LoadBody<W(!new)>(registry: map<Key, seq<Linked>>, m: Meaning<W>, body: seq<Linked>, k: nat, n: nat,
        b: Loading<Key, W>)
    requires k < |body| && m.executes(b.world, n, body[k].text) && body[k].Load?
    requires body[k].key in Require(registry, m, body[k].key, b).cache
    ensures var b1 := Require(registry, m, body[k].key, b);
      RunBody(registry, m, body, k, n, b)
      == RunBody(registry, m, body, k + 1, n,
        b1.(world := m.receive(b1.world, n, body[k].text, b1.cache[body[k].key])))
  {
  }

  lemma {:induction false} LoadMatches<W(!new)>(p: Project, ids: Ids, registry: map<Key, seq<Linked>>, m: Meaning<W>,
        f: File, k: nat, n: nat, u: Loading<File, W>, b: Loading<Key, W>)
    requires Faithful(p, ids, registry) && Matches(ids, u, b) && f in ids && k < |p.files[f]|
    requires var item := p.files[f][k]; m.executes(u.world, n, item.text) && item.Req? && !p.builtin(item.spec)
    ensures Matches(ids, RunFile(p, m, f, p.files[f], k, n, u), RunBody(registry, m, registry[ids[f]], k, n, b))
    decreases |p.files.Keys - u.cache.Keys|, 1 + 2 * (|p.files[f]| - k)
  {
    hide RunFile, RunBody, Import, Require;
    var items, body := p.files[f], registry[ids[f]];
    var g := p.resolve(f, items[k].spec);
    assert FaithfulAt(p, ids, registry, f);
    assert g in ids && body[k] == Load(items[k].text, items[k].quote, ids[g]);
    ImportMatches(p, ids, registry, m, g, u, b);
    var u1, b1 := Import(p, m, g, u), Require(registry, m, ids[g], b);
    FewerLeft(p.files.Keys, u.cache.Keys, u1.cache.Keys);
    LoadFile(p, m, f, items, k, n, u);
    LoadBody(registry, m, body, k, n, b);
    var world := m.receive(u1.world, n, items[k].text, u1.cache[g]);
    WorldMatches(ids, u1, b1, world);
    BodyMatches(p, ids, registry, m, f, k + 1, n, u1.(world := world), b1.(world := world));
  }

  function Cold<K, W>(world: W): Loading<K, W> { Loading(map[], [], world) }

  lemma BundleFaithful(p: Project, entry: File, ids: Ids, bundle: Bundle)
    requires Bundles(p, entry, ids, bundle) && Injective(ids)
    ensures Faithful(p, ids, bundle.registry)
  {
    assert forall f :: f in ids ==> FaithfulAt(p, ids, bundle.registry, f);
  }

  // Whatever the module code means, running the bundle leaves the world exactly
  // as running the files does, cycles included: the same module objects made in
  // the same order, every body run at most once, and only reachable files run.
  lemma BundleBehavesTheSame<W(!new)>(p: Project, entry: File, ids: Ids, bundle: Bundle, m: Meaning<W>, world: W)
    requires Bundles(p, entry, ids, bundle) && Injective(ids)
    ensures var b, u := Require(bundle.registry, m, bundle.entryId, Cold(world)), Import(p, m, entry, Cold(world));
      && b.world == u.world
      && (forall f :: f in u.order ==> f in ids && Reachable(p, entry, f))
      && b.order == Renamed(ids, u.order)
      && Once(b)
      && (forall i, j :: 0 <= i < j < |b.order| ==> b.order[i] != b.order[j])
  {
    BundleFaithful(p, entry, ids, bundle);
    assert Matches(ids, Cold<File, W>(world), Cold<Key, W>(world));
    ImportMatches(p, ids, bundle.registry, m, entry, Cold(world), Cold(world));
    RequireOnce(bundle.registry, m, bundle.entryId, Cold(world));
  }
}
