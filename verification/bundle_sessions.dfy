// The bundle while its program goes on running: requires made late, again, or
// from functions of modules long loaded (crates/bundler/src/lib.rs).
module BundleSessions {
  import opened Prelude
  import opened BundleGraph
  import opened BundleLoader
  import opened BundleText

  // What the program does next, which its whole state W decides: stop, go on by
  // itself, or call require at place k of the text of module object n.
  datatype Act<W> = Halt | Go(world: W) | Ask(n: nat, k: nat)

  // Any program over any state: it is told of a new module object, whose body
  // then is its to run, of one that was there, and of what the host gives.
  datatype Program<!W> = Program(next: W -> Act<W>, make: (W, nat) -> W, receive: (W, nat) -> W,
        receiveHost: (W, string) -> W)

  function Start<K, W>(prog: Program<W>, key: K, st: Loading<K, W>): Loading<K, W> {
    Loading(st.cache[key := |st.order|], st.order + [key], prog.make(st.world, |st.order|))
  }

  // ---- One step, bundled ---------------------------------------------------

  function Answer<W>(registry: map<Key, seq<Linked>>, prog: Program<W>, key: Key, st: Loading<Key, W>)
      : Loading<Key, W>
  {
    if key in st.cache then st.(world := prog.receive(st.world, st.cache[key]))
    else if key !in registry then st.(world := prog.receiveHost(st.world, if key.Builtin? then key.name else ""))
    else Start(prog, key, st)
  }

  function Step<W>(registry: map<Key, seq<Linked>>, prog: Program<W>, st: Loading<Key, W>): Loading<Key, W> {
    match prog.next(st.world)
    case Halt => st
    case Go(world) => st.(world := world)
    case Ask(n, k) =>
      if n < |st.order| && st.order[n] in registry && k < |registry[st.order[n]]| && registry[st.order[n]][k].Load?
      then Answer(registry, prog, registry[st.order[n]][k].key, st)
      else st
  }

  function Run<W>(registry: map<Key, seq<Linked>>, prog: Program<W>, st: Loading<Key, W>, steps: nat): Loading<Key, W> {
    if steps == 0 then st else Step(registry, prog, Run(registry, prog, st, steps - 1))
  }

  // ---- One step, from the files --------------------------------------------

  function AnswerFile<W>(p: Project, prog: Program<W>, f: File, spec: string, st: Loading<File, W>): Loading<File, W> {
    if p.builtin(spec) then st.(world := prog.receiveHost(st.world, spec))
    else
      var g := p.resolve(f, spec);
      if g in st.cache then st.(world := prog.receive(st.world, st.cache[g]))
      else if g !in p.files then st
      else Start(prog, g, st)
  }

  function StepFile<W>(p: Project, prog: Program<W>, st: Loading<File, W>): Loading<File, W> {
    match prog.next(st.world)
    case Halt => st
    case Go(world) => st.(world := world)
    case Ask(n, k) =>
      if n < |st.order| && st.order[n] in p.files && k < |p.files[st.order[n]]| && p.files[st.order[n]][k].Req?
      then AnswerFile(p, prog, st.order[n], p.files[st.order[n]][k].spec, st)
      else st
  }

  function RunFiles<W>(p: Project, prog: Program<W>, st: Loading<File, W>, steps: nat): Loading<File, W> {
    if steps == 0 then st else StepFile(p, prog, RunFiles(p, prog, st, steps - 1))
  }

  // ---- The same, step for step ---------------------------------------------

  lemma StartMatches<W(!new)>(ids: Ids, prog: Program<W>, f: File, u: Loading<File, W>, b: Loading<Key, W>)
    requires Matches(ids, u, b) && Injective(ids) && f in ids && !ids[f].Builtin?
    ensures Matches(ids, Start(prog, f, u), Start(prog, ids[f], b))
  {
    RenamedLength(ids, u.order);
    assert Start(prog, f, u).order[..|u.order|] == u.order;
  }

  lemma AnswerMatches<W(!new)>(p: Project, ids: Ids, registry: map<Key, seq<Linked>>, prog: Program<W>, f: File, k: nat,
        u: Loading<File, W>, b: Loading<Key, W>)
    requires Faithful(p, ids, registry) && Matches(ids, u, b) && f in ids && k < |p.files[f]| && p.files[f][k].Req?
    ensures k < |registry[ids[f]]| && registry[ids[f]][k].Load?
    ensures Matches(ids, AnswerFile(p, prog, f, p.files[f][k].spec, u),
      Answer(registry, prog, registry[ids[f]][k].key, b))
  {
    assert FaithfulAt(p, ids, registry, f);
    var spec := p.files[f][k].spec;
    assert registry[ids[f]][k] == LinkItem(p, ids, f, p.files[f][k]);
    if !p.builtin(spec) {
      var g := p.resolve(f, spec);
      assert g in ids && FaithfulAt(p, ids, registry, g);
      if g !in u.cache { StartMatches(ids, prog, g, u, b); }
    }
  }

  lemma StepMatches<W(!new)>(p: Project, ids: Ids, registry: map<Key, seq<Linked>>, prog: Program<W>,
        u: Loading<File, W>, b: Loading<Key, W>)
    requires Faithful(p, ids, registry) && Matches(ids, u, b)
    ensures Matches(ids, StepFile(p, prog, u), Step(registry, prog, b))
  {
    hide AnswerFile, Answer;
    RenamedLength(ids, u.order);
    match prog.next(u.world)
    case Halt =>
    case Go(world) => WorldMatches(ids, u, b, world);
    case Ask(n, k) =>
      if n < |u.order| {
        var f := u.order[n];
        assert FaithfulAt(p, ids, registry, f);
        if k < |p.files[f]| {
          assert registry[ids[f]][k] == LinkItem(p, ids, f, p.files[f][k]);
          if p.files[f][k].Req? { AnswerMatches(p, ids, registry, prog, f, k, u, b); }
        }
      }
  }

  lemma {:induction false} RunMatches<W(!new)>(p: Project, ids: Ids, registry: map<Key, seq<Linked>>, prog: Program<W>,
        u: Loading<File, W>, b: Loading<Key, W>, steps: nat)
    requires Faithful(p, ids, registry) && Matches(ids, u, b)
    ensures Matches(ids, RunFiles(p, prog, u, steps), Run(registry, prog, b, steps))
  {
    if steps > 0 {
      RunMatches(p, ids, registry, prog, u, b, steps - 1);
      StepMatches(p, ids, registry, prog, RunFiles(p, prog, u, steps - 1), Run(registry, prog, b, steps - 1));
    }
  }

  lemma StepOnce<W(!new)>(registry: map<Key, seq<Linked>>, prog: Program<W>, st: Loading<Key, W>)
    requires Once(st)
    ensures Once(Step(registry, prog, st)) && st.order <= Step(registry, prog, st).order
  {
    match prog.next(st.world)
    case Halt =>
    case Go(world) => OnceWorld(st, world);
    case Ask(n, k) =>
      if Step(registry, prog, st).order == st.order { OnceWorld(st, Step(registry, prog, st).world); }
  }

  lemma {:induction false} RunOnce<W(!new)>(registry: map<Key, seq<Linked>>, prog: Program<W>, st: Loading<Key, W>,
        steps: nat)
    requires Once(st)
    ensures Once(Run(registry, prog, st, steps))
  {
    if steps > 0 {
      RunOnce(registry, prog, st, steps - 1);
      StepOnce(registry, prog, Run(registry, prog, st, steps - 1));
    }
  }

  // A session in the bundle, and one over the files.
  function Bundled<W>(bundle: Bundle, prog: Program<W>, world: W, steps: nat): Loading<Key, W> {
    Run(bundle.registry, prog, Start(prog, bundle.entryId, Cold(world)), steps)
  }

  function Unbundled<W>(p: Project, entry: File, prog: Program<W>, world: W, steps: nat): Loading<File, W> {
    RunFiles(p, prog, Start(prog, entry, Cold(world)), steps)
  }

  lemma SessionMatches<W(!new)>(p: Project, entry: File, ids: Ids, bundle: Bundle, prog: Program<W>, world: W,
        steps: nat)
    requires Bundles(p, entry, ids, bundle) && Injective(ids)
    ensures Matches(ids, Unbundled(p, entry, prog, world, steps), Bundled(bundle, prog, world, steps))
  {
    var u0, b0 := Cold<File, W>(world), Cold<Key, W>(world);
    BundleFaithful(p, entry, ids, bundle);
    assert Matches(ids, u0, b0);
    StartMatches(ids, prog, entry, u0, b0);
    RunMatches(p, ids, bundle.registry, prog, Start(prog, entry, u0), Start(prog, ids[entry], b0), steps);
  }

  lemma SessionOnce<W(!new)>(bundle: Bundle, prog: Program<W>, world: W, steps: nat)
    ensures Once(Bundled(bundle, prog, world, steps))
  {
    RunOnce(bundle.registry, prog, Start(prog, bundle.entryId, Cold(world)), steps);
  }

  // However a program goes on requiring, for as long as it runs, it is in the
  // same state in the bundle as over the files after every step, with the same
  // modules begun in the same order, each once; and the bundle parses exactly
  // when every file is required in quotes that can hold its path.
  lemma SessionsAgree<W(!new)>(p: Project, entry: File, ids: Ids, bundle: Bundle, prog: Program<W>, world: W,
        steps: nat)
    requires Bundles(p, entry, ids, bundle) && Injective(ids)
    ensures var u, b := Unbundled(p, entry, prog, world, steps), Bundled(bundle, prog, world, steps);
      && b.world == u.world
      && (forall f :: f in u.order ==> f in ids && Reachable(p, entry, f))
      && b.order == Renamed(ids, u.order)
      && Once(b)
    ensures SourcesParse(p, entry) ==> (Parses(bundle.registry) <==> Quotable(p, entry))
  {
    if SourcesParse(p, entry) { ParsesExact(p, entry, ids, bundle); }
    SessionMatches(p, entry, ids, bundle, prog, world, steps);
    SessionOnce(bundle, prog, world, steps);
  }
}
