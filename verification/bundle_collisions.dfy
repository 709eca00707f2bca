// When two files share an id, or an id breaks its quotes, and what that does to
// the bundle
// (crates/bundler/src/lib.rs).
module BundleCollisions {
  import opened Prelude
  import opened BundleGraph
  import opened BundleLoader
  import opened BundleText

  // No two files that the bundle needs look alike once their backslashes are
  // slashes. Files outside the working directory cannot collide.
  ghost predicate DistinctNames(p: Project, entry: File) {
    forall f, g :: Reachable(p, entry, f) && Reachable(p, entry, g) && f != g && p.base <= f && p.base <= g
      ==> Slashed(f[|p.base|..]) != Slashed(g[|p.base|..])
  }

  // The ids that the walk gives out are injective exactly then.
  lemma IdsExact(p: Project, entry: File, ids: Ids, b: Bundle)
    requires Bundles(p, entry, ids, b)
    ensures Injective(ids) <==> DistinctNames(p, entry)
  {
    IdsInjectiveExact(p, ids);
  }

  // ---- A project whose files collide ---------------------------------------

  const BACK: File := "/w/a\\b"
  const FORTH: File := "/w/a/b"
  const MAIN: File := "/w/m"

  function Colliding(): Project {
    Project(map[MAIN := [Req("", Single, "a\\b"), Req("", Single, "a/b")], BACK := [], FORTH := []],
      (f, spec) => "/w/" + spec, s => false, "/w/")
  }

  lemma CollidingNames()
    ensures MAIN != BACK && BACK != FORTH && FORTH != MAIN && "/w/" + "a\\b" == BACK && "/w/" + "a/b" == FORTH
    ensures "/w/" <= BACK && "/w/" <= FORTH && Slashed(BACK[3..]) == Slashed(FORTH[3..])
  {
    assert BACK[3..] == "a\\b" && FORTH[3..] == "a/b";
    assert Slashed("a\\b") == Slashed("a/b");
  }

  lemma CollidingReachable()
    ensures forall f :: Reachable(Colliding(), MAIN, f) ==> f in Colliding().files
    ensures Reachable(Colliding(), MAIN, BACK) && Reachable(Colliding(), MAIN, FORTH)
  {
    var p := Colliding();
    CollidingNames();
    EntryReachable(p, MAIN);
    assert ImportsAt(p, MAIN, 0, BACK) && ImportsAt(p, MAIN, 1, FORTH);
    ReachableStep(p, MAIN, MAIN, BACK);
    ReachableStep(p, MAIN, MAIN, FORTH);
    forall f | Reachable(p, MAIN, f)
      ensures f in p.files
    {
      var path :| ReachedBy(p, MAIN, f, path);
      ClosedHoldsReached(p, MAIN, p.files.Keys, path);
    }
  }

  lemma IdUnderBase(p: Project, ids: Ids, f: File, rel: string)
    requires WellAssigned(p, ids) && f in ids && f == p.base + rel
    ensures ids[f] == Rel(Slashed(rel))
  {
    assert f[|p.base|..] == rel;
  }

  lemma CollidingIds(ids: Ids)
    requires WellAssigned(Colliding(), ids) && MAIN in ids && BACK in ids && FORTH in ids
    ensures ids[MAIN] == Rel("m") && ids[BACK] == Rel("a/b") && ids[FORTH] == Rel("a/b")
  {
    hide WellAssigned;
    assert MAIN == "/w/" + "m" && BACK == "/w/" + "a\\b" && FORTH == "/w/" + "a/b";
    IdUnderBase(Colliding(), ids, MAIN, "m");
    IdUnderBase(Colliding(), ids, BACK, "a\\b");
    IdUnderBase(Colliding(), ids, FORTH, "a/b");
    SlashedIsSame("m");
    SlashedIsSame("a/b");
    CollidingNames();
    assert BACK[3..] == "a\\b" && FORTH[3..] == "a/b";
  }

  // The registry has a key for each id and no other.
  lemma RegistryKeys(p: Project, entry: File, ids: Ids, b: Bundle)
    requires Bundles(p, entry, ids, b)
    ensures b.registry.Keys == set f | f in ids :: ids[f]
  {
    hide WellAssigned, Reachable, LinkedAs, TargetsIn;
  }

  lemma CollidingFiles(ids: Ids, b: Bundle)
    requires Bundles(Colliding(), MAIN, ids, b)
    ensures ids.Keys == {MAIN, BACK, FORTH} && WellAssigned(Colliding(), ids) && b.entryId == ids[MAIN]
  {
    hide Reachable, WellAssigned, Registered, TargetsIn;
    CollidingReachable();
    EntryReachable(Colliding(), MAIN);
  }

  // Whatever table a walk makes, it has two keys for the three files.
  lemma CollidingKeys(ids: Ids, b: Bundle)
    requires Bundles(Colliding(), MAIN, ids, b)
    ensures b.entryId == Rel("m") && b.registry.Keys == {Rel("m"), Rel("a/b")}
  {
    hide Bundles, WellAssigned, Colliding;
    CollidingFiles(ids, b);
    CollidingIds(ids);
    RegistryKeys(Colliding(), MAIN, ids, b);
  }

  // Walking it makes a bundle with one id for two files.
  method CollidingWalk() returns (b: Bundle, ghost ids: Ids)
    ensures Bundles(Colliding(), MAIN, ids, b) && !Injective(ids)
    ensures b.entryId == Rel("m") && b.registry.Keys == {Rel("m"), Rel("a/b")}
  {
    CollidingReachable();
    CollidingNames();
    var r;
    r, ids := BundleFiles(Colliding(), MAIN);
    b := r.value;
    IdsExact(Colliding(), MAIN, ids, b);
    CollidingKeys(ids, b);
  }

  // ---- What a collision does -----------------------------------------------

  // Modules that execute all their pieces and count the module objects made.
  const COUNTING: Meaning<nat> := Meaning((w, n) => w + 1, (w, n, text) => true, (w, n, text) => w,
    (w, n, text, got) => w, (w, n, text, name) => w)

  // The world counts the load order.
  ghost predicate Counts<K(!new)>(st: Loading<K, nat>) { st.world == |st.order| }

  lemma {:induction false} ImportCounts(p: Project, f: File, st: Loading<File, nat>)
    requires Counts(st)
    ensures Counts(Import(p, COUNTING, f, st))
    decreases |p.files.Keys - st.cache.Keys|, 0
  {
    if f !in st.cache && f in p.files {
      BeginShrinks(p.files.Keys, COUNTING, f, st);
      FileCounts(p, f, p.files[f], 0, |st.order|, Begin(COUNTING, f, st));
    }
  }

  lemma {:induction false} FileCounts(p: Project, f: File, items: seq<Item>, k: nat, n: nat, st: Loading<File, nat>)
    requires Counts(st) && k <= |items|
    ensures Counts(RunFile(p, COUNTING, f, items, k, n, st))
    decreases |p.files.Keys - st.cache.Keys|, 1 + |items| - k
  {
    if k < |items| {
      if items[k].Req? && !p.builtin(items[k].spec) {
        var g := p.resolve(f, items[k].spec);
        ImportCounts(p, g, st);
        FewerLeft(p.files.Keys, st.cache.Keys, Import(p, COUNTING, g, st).cache.Keys);
        FileCounts(p, f, items, k + 1, n, Import(p, COUNTING, g, st));
      } else {
        FileCounts(p, f, items, k + 1, n, st);
      }
    }
  }

  lemma {:induction false} RequireCounts(registry: map<Key, seq<Linked>>, key: Key, st: Loading<Key, nat>)
    requires Counts(st) && forall k :: k in st.order ==> k in registry
    ensures var r := Require(registry, COUNTING, key, st); Counts(r) && forall k :: k in r.order ==> k in registry
    decreases |registry.Keys - st.cache.Keys|, 0
  {
    if key !in st.cache && key in registry {
      BeginShrinks(registry.Keys, COUNTING, key, st);
      BodyCounts(registry, registry[key], 0, |st.order|, Begin(COUNTING, key, st));
    }
  }

  lemma {:induction false} BodyCounts(registry: map<Key, seq<Linked>>, body: seq<Linked>, k: nat, n: nat,
        st: Loading<Key, nat>)
    requires k <= |body| && Counts(st) && forall key :: key in st.order ==> key in registry
    ensures var r := RunBody(registry, COUNTING, body, k, n, st);
      Counts(r) && forall key :: key in r.order ==> key in registry
    decreases |registry.Keys - st.cache.Keys|, 1 + |body| - k
  {
    if k < |body| {
      match body[k]
      case Plain(_) => BodyCounts(registry, body, k + 1, n, st);
      case Load(text, _, key) =>
        RequireCounts(registry, key, st);
        var st1 := Require(registry, COUNTING, key, st);
        FewerLeft(registry.Keys, st.cache.Keys, st1.cache.Keys);
        assert Hand(COUNTING, n, text, key, st1) == st1.world;
        BodyCounts(registry, body, k + 1, n, st1);
    }
  }

  // ---- The files loader loads every reachable file -------------------------

  // Every import of f is in the cache.
  ghost predicate Served(p: Project, f: File, cache: set<File>) {
    forall g :: Imports(p, f, g) && g in p.files ==> g in cache
  }

  ghost predicate ServedNew(p: Project, before: set<File>, after: set<File>) {
    before <= after && forall g :: g in after && g !in before ==> Served(p, g, after)
  }

  lemma ServedBoth(p: Project, a: set<File>, b: set<File>, c: set<File>)
    requires ServedNew(p, a, b) && ServedNew(p, b, c)
    ensures ServedNew(p, a, c)
  {
    forall g | g in c && g !in a
      ensures Served(p, g, c)
    {
      if g in b { assert Served(p, g, b); }
    }
  }

  lemma {:induction false} ImportServes(p: Project, f: File, st: Loading<File, nat>)
    ensures var r := Import(p, COUNTING, f, st);
      ServedNew(p, st.cache.Keys, r.cache.Keys) && (f in p.files ==> f in r.cache)
    decreases |p.files.Keys - st.cache.Keys|, 0
  {
    if f !in st.cache && f in p.files {
      var begun := Begin(COUNTING, f, st);
      BeginShrinks(p.files.Keys, COUNTING, f, st);
      FileServes(p, f, p.files[f], 0, |st.order|, begun);
      var r := Import(p, COUNTING, f, st);
      assert Served(p, f, r.cache.Keys);
      forall g | g in r.cache && g !in st.cache
        ensures Served(p, g, r.cache.Keys)
      {
        if g != f { assert g !in begun.cache; }
      }
    }
  }

  // The files that the items from k on require.
  ghost predicate ServedFrom(p: Project, f: File, items: seq<Item>, k: nat, cache: set<File>) {
    forall i :: k <= i < |items| && items[i].Req? && !p.builtin(items[i].spec) && p.resolve(f, items[i].spec) in p.files
      ==> p.resolve(f, items[i].spec) in cache
  }

  // What one item does under COUNTING.
  function Serve(p: Project, f: File, item: Item, st: Loading<File, nat>): Loading<File, nat> {
    if item.Req? && !p.builtin(item.spec) then Import(p, COUNTING, p.resolve(f, item.spec), st) else st
  }

  lemma FileStep(p: Project, f: File, items: seq<Item>, k: nat, n: nat, st: Loading<File, nat>)
    requires k < |items|
    ensures RunFile(p, COUNTING, f, items, k, n, st)
      == RunFile(p, COUNTING, f, items, k + 1, n, Serve(p, f, items[k], st))
    ensures st.cache.Keys <= Serve(p, f, items[k], st).cache.Keys
  {
  }

  lemma ServedOneMore(p: Project, f: File, items: seq<Item>, k: nat, before: set<File>, after: set<File>)
    requires k < |items| && before <= after && ServedFrom(p, f, items, k + 1, after)
    requires items[k].Req? && !p.builtin(items[k].spec) && p.resolve(f, items[k].spec) in p.files ==>
      p.resolve(f, items[k].spec) in before
    ensures ServedFrom(p, f, items, k, after)
  {
  }

  lemma {:induction false} FileServes(p: Project, f: File, items: seq<Item>, k: nat, n: nat, st: Loading<File, nat>)
    requires k <= |items|
    ensures var r := RunFile(p, COUNTING, f, items, k, n, st);
      ServedNew(p, st.cache.Keys, r.cache.Keys) && ServedFrom(p, f, items, k, r.cache.Keys)
    decreases |p.files.Keys - st.cache.Keys|, 1 + |items| - k
  {
    if k < |items| {
      var st1 := Serve(p, f, items[k], st);
      if items[k].Req? && !p.builtin(items[k].spec) { ImportServes(p, p.resolve(f, items[k].spec), st); }
      FileStep(p, f, items, k, n, st);
      FewerLeft(p.files.Keys, st.cache.Keys, st1.cache.Keys);
      FileServes(p, f, items, k + 1, n, st1);
      var after := RunFile(p, COUNTING, f, items, k, n, st).cache.Keys;
      ServedBoth(p, st.cache.Keys, st1.cache.Keys, after);
      ServedOneMore(p, f, items, k, st1.cache.Keys, after);
    }
  }

  lemma ImportReachesAll(p: Project, entry: File)
    requires forall f :: Reachable(p, entry, f) ==> f in p.files
    ensures forall f :: Reachable(p, entry, f) ==> f in Import(p, COUNTING, entry, Cold(0)).cache
  {
    var cache := Import(p, COUNTING, entry, Cold(0)).cache.Keys;
    ImportServes(p, entry, Cold(0));
    EntryReachable(p, entry);
    forall f | Reachable(p, entry, f)
      ensures f in cache
    {
      var path :| ReachedBy(p, entry, f, path);
      ServedReaches(p, entry, cache, path);
    }
  }

  lemma {:induction false} ServedReaches(p: Project, entry: File, cache: set<File>, path: seq<File>)
    requires entry in cache && (forall f :: Reachable(p, entry, f) ==> f in p.files)
    requires forall g :: g in cache ==> Served(p, g, cache)
    requires path != [] && path[0] == entry && Chain(p, path)
    ensures path[|path| - 1] in cache
  {
    var last := |path| - 1;
    if last > 0 {
      ServedReaches(p, entry, cache, path[..last]);
      assert Imports(p, path[last - 1], path[last]);
      assert ReachedBy(p, entry, path[last], path);
      assert Reachable(p, entry, path[last]);
    }
  }

  // ---- Counting ------------------------------------------------------------

  // What is cached was loaded in order.
  ghost predicate Listed(st: Loading<File, nat>) { forall f :: f in st.cache ==> f in st.order }

  lemma {:induction false} ImportLists(p: Project, f: File, st: Loading<File, nat>)
    requires Listed(st)
    ensures Listed(Import(p, COUNTING, f, st))
    decreases |p.files.Keys - st.cache.Keys|, 0
  {
    if f !in st.cache && f in p.files {
      BeginShrinks(p.files.Keys, COUNTING, f, st);
      FileLists(p, f, p.files[f], 0, |st.order|, Begin(COUNTING, f, st));
    }
  }

  lemma {:induction false} FileLists(p: Project, f: File, items: seq<Item>, k: nat, n: nat, st: Loading<File, nat>)
    requires Listed(st) && k <= |items|
    ensures Listed(RunFile(p, COUNTING, f, items, k, n, st))
    decreases |p.files.Keys - st.cache.Keys|, 1 + |items| - k
  {
    hide Listed;
    if k < |items| {
      if items[k].Req? && !p.builtin(items[k].spec) {
        var g := p.resolve(f, items[k].spec);
        ImportLists(p, g, st);
        FewerLeft(p.files.Keys, st.cache.Keys, Import(p, COUNTING, g, st).cache.Keys);
        FileLists(p, f, items, k + 1, n, Import(p, COUNTING, g, st));
      } else {
        FileLists(p, f, items, k + 1, n, st);
      }
    }
  }

  lemma {:induction false} FewNames<T>(s: seq<T>, names: set<T>)
    requires forall x :: x in names ==> x in s
    ensures |names| <= |s|
  {
    if s == [] {
      assert names == {};
    } else {
      var last := s[|s| - 1];
      FewNames(s[..|s| - 1], names - {last});
      SubsetSize(names, (names - {last}) + {last});
    }
  }

  lemma {:induction false} NoRepeatsFit<T>(s: seq<T>, names: set<T>)
    requires (forall x :: x in s ==> x in names) && forall i, j :: 0 <= i < j < |s| ==> s[i] != s[j]
    ensures |s| <= |names|
  {
    if s != [] {
      var last := s[|s| - 1];
      assert last !in s[..|s| - 1];
      NoRepeatsFit(s[..|s| - 1], names - {last});
    }
  }

  lemma {:induction false} ValuesFit<K, V>(m: map<K, V>, values: set<V>)
    requires forall v :: v in values ==> exists k :: k in m && m[k] == v
    ensures |values| <= |m.Keys|
    decreases |values|
  {
    if values != {} {
      var v :| v in values;
      var k :| k in m && m[k] == v;
      var rest := m - {k};
      forall v' | v' in values - {v}
        ensures exists k' :: k' in rest && rest[k'] == v'
      {
        var k' :| k' in m && m[k'] == v';
        assert k' in rest;
      }
      ValuesFit(rest, values - {v});
      assert rest.Keys == m.Keys - {k};
    }
  }

  // Two keys with one value: without one of them the map has all its values.
  lemma OneTooMany<K, V>(m: map<K, V>, values: set<V>, f: K, g: K)
    requires f in m && g in m && f != g && m[f] == m[g] && forall v :: v in values ==> exists k :: k in m && m[k] == v
    ensures |values| < |m.Keys|
  {
    var rest := m - {g};
    forall v | v in values
      ensures exists k :: k in rest && rest[k] == v
    {
      var k :| k in m && m[k] == v;
      assert (if k == g then f else k) in rest;
    }
    ValuesFit(rest, values);
    assert rest.Keys == m.Keys - {g};
  }

  // Fewer modules than files, if two files share an id.
  lemma FewerKeys(p: Project, entry: File, ids: Ids, b: Bundle)
    requires Bundles(p, entry, ids, b) && !Injective(ids)
    ensures |b.registry.Keys| < |ids.Keys|
  {
    var f, g :| f in ids && g in ids && f != g && ids[f] == ids[g];
    OneTooMany(ids, b.registry.Keys, f, g);
  }

  // Modules that count what is loaded tell the bundle from the files whenever
  // two files share an id.
  lemma CollisionTold(p: Project, entry: File, ids: Ids, b: Bundle)
    requires Bundles(p, entry, ids, b) && !Injective(ids)
    ensures Require(b.registry, COUNTING, b.entryId, Cold(0)).world < Import(p, COUNTING, entry, Cold(0)).world
  {
    var files, bundled := Import(p, COUNTING, entry, Cold(0)), Require(b.registry, COUNTING, b.entryId, Cold(0));
    ImportCounts(p, entry, Cold(0));
    ImportLists(p, entry, Cold(0));
    ImportReachesAll(p, entry);
    FewNames(files.order, ids.Keys);
    RequireCounts(b.registry, b.entryId, Cold(0));
    RequireOnce(b.registry, COUNTING, b.entryId, Cold(0));
    NoRepeatsFit(bundled.order, b.registry.Keys);
    FewerKeys(p, entry, ids, b);
  }

  // ---- A project whose path breaks its quotes ------------------------------

  const QUOTING: File := "/w/it's/m.js"
  const QUOTED: File := "/w/it's/b.js"

  function Breaking(): Project {
    Project(map[QUOTING := [Req("require(", Single, "./b"), Code(")")], QUOTED := []], (f, spec) => QUOTED,
      s => false, "/w/")
  }

  lemma BreakingNames()
    ensures QUOTING != QUOTED && "/w/" <= QUOTING && "/w/" <= QUOTED
    ensures QUOTING[3..] == "it's/m.js" && QUOTED[3..] == "it's/b.js"
  {
    assert QUOTING[8] != QUOTED[8];
  }

  lemma BreakingReachable()
    ensures forall f :: Reachable(Breaking(), QUOTING, f) <==> f in Breaking().files
  {
    var p := Breaking();
    BreakingNames();
    EntryReachable(p, QUOTING);
    assert ImportsAt(p, QUOTING, 0, QUOTED);
    ReachableStep(p, QUOTING, QUOTING, QUOTED);
    forall f | Reachable(p, QUOTING, f)
      ensures f in p.files
    {
      var path :| ReachedBy(p, QUOTING, f, path);
      ClosedHoldsReached(p, QUOTING, p.files.Keys, path);
    }
  }

  lemma BreakingDistinct()
    ensures DistinctNames(Breaking(), QUOTING)
  {
    hide Reachable, Slashed;
    BreakingReachable();
    BreakingNames();
    SlashedIsSame("it's/m.js");
    SlashedIsSame("it's/b.js");
    assert "it's/m.js"[5] != "it's/b.js"[5];
  }

  lemma BreakingSource()
    ensures Breaking().files[QUOTING] == [Req("require(", Single, "./b"), Code(")")] && Breaking().files[QUOTED] == []
    ensures Readable(Single, "./b")
  {
    BreakingNames();
  }

  lemma BreakingParses()
    ensures SourcesParse(Breaking(), QUOTING)
  {
    hide Reachable, Readable;
    BreakingReachable();
    BreakingSource();
  }

  lemma BreakingBody(ids: Ids, b: Bundle)
    requires Bundles(Breaking(), QUOTING, ids, b) && Injective(ids)
    ensures b.entryId in b.registry
    ensures b.registry[b.entryId] == [Load("require(", Single, Rel("it's/b.js")), Plain(")")]
  {
    hide Reachable, WellAssigned, LinkItem;
    var p := Breaking();
    BreakingNames();
    BreakingSource();
    EntryReachable(p, QUOTING);
    var items, body := p.files[QUOTING], b.registry[b.entryId];
    assert LinkedAs(p, ids, QUOTING, items, body) && TargetsIn(p, QUOTING, items, ids);
    assert items[0].Req? && p.resolve(QUOTING, items[0].spec) == QUOTED;
    BreakingLinks(ids);
    assert body[0] == LinkItem(p, ids, QUOTING, items[0]) && body[1] == LinkItem(p, ids, QUOTING, items[1]);
  }

  lemma BreakingLinks(ids: Ids)
    requires WellAssigned(Breaking(), ids) && QUOTED in ids
    ensures LinkItem(Breaking(), ids, QUOTING, Req("require(", Single, "./b"))
      == Load("require(", Single, Rel("it's/b.js"))
    ensures LinkItem(Breaking(), ids, QUOTING, Code(")")) == Plain(")")
  {
    hide WellAssigned;
    BreakingNames();
    SlashedIsSame("it's/b.js");
    IdUnderBase(Breaking(), ids, QUOTED, "it's/b.js");
  }

  lemma BreakingText()
    ensures EmitText([Load("require(", Single, Rel("it's/b.js")), Plain(")")]) == "require('./it's/b.js')"
  {
    hide EmitPiece;
    var first := Load("require(", Single, Rel("it's/b.js"));
    assert [] + [first] == [first] && [first] + [Plain(")")] == [first, Plain(")")];
    EmitNext([], first);
    EmitNext([first], Plain(")"));
    BreakingPieces();
  }

  lemma BreakingPieces()
    ensures EmitPiece(Load("require(", Single, Rel("it's/b.js"))) == "require('./it's/b.js'"
    ensures EmitPiece(Plain(")")) == ")"
  {
  }

  lemma BreaksQuotes(registry: map<Key, seq<Linked>>, key: Key)
    requires key in registry && registry[key] == [Load("require(", Single, Rel("it's/b.js")), Plain(")")]
    ensures !Parses(registry)
  {
    assert Print(Rel("it's/b.js"))[4] == '\'';
    assert !LoadReadable(registry[key][0]);
    assert !BodyParses(registry[key]);
  }

  // Walking it makes a bundle that does not parse: a path closes the quotes it
  // is put in.
  method BreakingWalk() returns (b: Bundle, ghost ids: Ids)
    ensures Bundles(Breaking(), QUOTING, ids, b) && DistinctNames(Breaking(), QUOTING)
    ensures SourcesParse(Breaking(), QUOTING)
    ensures b.entryId in b.registry && EmitText(b.registry[b.entryId]) == "require('./it's/b.js')"
    ensures !Parses(b.registry)
  {
    hide Bundles, DistinctNames, SourcesParse, Reachable, Parses, EmitText, Injective;
    BreakingReachable();
    BreakingDistinct();
    BreakingParses();
    var r;
    r, ids := BundleFiles(Breaking(), QUOTING);
    b := r.value;
    IdsExact(Breaking(), QUOTING, ids, b);
    BreakingBody(ids, b);
    BreakingText();
    BreaksQuotes(b.registry, b.entryId);
  }

  // ---- Bundle and files ----------------------------------------------------

  // What running the bundle leaves of the world: nothing runs if it does not
  // parse.
  ghost function BundleRun<W>(b: Bundle, m: Meaning<W>, world: W): Option<W> {
    if Parses(b.registry) then Some(Require(b.registry, m, b.entryId, Cold(world)).world) else None
  }

  ghost predicate SameWorld<W(!new)>(p: Project, entry: File, b: Bundle, m: Meaning<W>, world: W) {
    BundleRun(b, m, world) == Some(Import(p, m, entry, Cold(world)).world)
  }

  // The bundle of a walk over files that parse behaves as the files do, for
  // every meaning of module code over a world that is a number, exactly when no
  // two needed files look alike and every file is required in quotes that can
  // hold its path; one direction holds over any world.
  lemma BehavesExactly(p: Project, entry: File, ids: Ids, b: Bundle)
    requires Bundles(p, entry, ids, b) && SourcesParse(p, entry)
    ensures (forall m: Meaning<nat>, world: nat :: SameWorld(p, entry, b, m, world))
       <==> DistinctNames(p, entry) && Quotable(p, entry)
  {
    hide Bundles, DistinctNames, SourcesParse, Quotable, Injective, Parses;
    IdsExact(p, entry, ids, b);
    if Injective(ids) {
      ParsesExact(p, entry, ids, b);
      if Quotable(p, entry) {
        forall m: Meaning<nat>, world: nat
          ensures SameWorld(p, entry, b, m, world)
        {
          BundleBehavesTheSame(p, entry, ids, b, m, world);
        }
      } else {
        assert !SameWorld(p, entry, b, COUNTING, 0);
      }
    } else {
      CollisionTold(p, entry, ids, b);
      assert !SameWorld(p, entry, b, COUNTING, 0);
    }
  }
}
