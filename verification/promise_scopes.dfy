// Deny scopes carried from where a promise is made to where its reactions run
// (crates/js/src/caller_scope.rs).
module PromiseScopes {
  import opened Prelude

  // ---- Tags: scopes as one text, a line each -------------------------------

  // Always at least one line.
  function SplitLines(t: string): (lines: seq<string>)
    ensures |lines| > 0
  {
    if t == "" then [""]
    else
      var before, c := SplitLines(t[..|t| - 1]), t[|t| - 1];
      if c == '\n' then before + [""] else Grow(before, c)
  }

  // With c at the end of the last line.
  function Grow(lines: seq<string>, c: char): (more: seq<string>)
    requires lines != []
    ensures |more| == |lines|
  {
    lines[..|lines| - 1] + [lines[|lines| - 1] + [c]]
  }

  function JoinLines(lines: seq<string>): string
    requires lines != []
  {
    if |lines| == 1 then lines[0] else JoinLines(lines[..|lines| - 1]) + ("\n" + lines[|lines| - 1])
  }

  function Elements(l: seq<string>): set<string> { set s | s in l }

  // The lines of all names: the names, unless one has a line break in it.
  function Pieces(names: seq<string>): set<string> {
    set s, line | s in names && line in SplitLines(s) :: line
  }

  predicate Precedes(a: string, b: string) {
    a == "" || (b != "" && (a[0] < b[0] || (a[0] == b[0] && Precedes(a[1..], b[1..]))))
  }

  function Insert(s: string, l: seq<string>): seq<string> {
    if l == [] || Precedes(s, l[0]) then [s] + l else [l[0]] + Insert(s, l[1..])
  }

  function Sort(l: seq<string>): seq<string> { if l == [] then [] else Insert(l[0], Sort(l[1..])) }

  // Without neighbours that are equal.
  function Dedup(l: seq<string>): seq<string> {
    if |l| < 2 then l else if l[0] == l[1] then Dedup(l[1..]) else [l[0]] + Dedup(l[1..])
  }

  // ---- What is known of a program ------------------------------------------

  // What package code is at work: the packages on the stack, and the scope that
  // require set last, if any.
  datatype Frames = Frames(stack: seq<string>, current: string)

  // What a moment lies in: the reaction of a promise, begun with or without
  // rules, or the call of a bound function.
  datatype Within = Reacting(promise: nat, active: bool) | Calling(bound: nat)

  // A moment of the program: whether there were rules, the frames, and what it
  // lay in, outermost first.
  datatype Moment = Moment(active: bool, frames: Frames, within: seq<Within>)

  // What was made, when, and for a promise from which parent.
  datatype Thing = Promise(at: Moment, parent: Option<nat>) | Bound(at: Moment)

  // Promises and bound functions are known by their numbers in order of
  // creation; when each was made is kept as history.
  datatype State = State(
    active: bool, // whether a package has rules
    inherited: seq<string>,
    saved: seq<seq<string>>,
    tags: map<nat, string>, // of promises
    bound: map<nat, string>, // what bind keeps for its functions
    things: seq<Thing>
  )

  // ---- The hooks -----------------------------------------------------------

  const ROOT: string := "."

  // The packages at work and those inherited.
  function PackageScopes(st: State, frames: Frames): seq<string> { Dedup(Sort(frames.stack + st.inherited)) }

  // The same and the scope that require set.
  function DenyScopes(st: State, frames: Frames): seq<string> {
    var scopes := PackageScopes(st, frames);
    if frames.current == "" || frames.current == ROOT || frames.current in scopes then scopes
    else scopes + [frames.current]
  }

  function ReadTag(st: State, p: nat): seq<string> {
    if p in st.tags then SplitLines(st.tags[p]) else []
  }

  function ReadParent(st: State, parent: Option<nat>): seq<string> {
    if parent.Some? then ReadTag(st, parent.value) else []
  }

  // A new promise.
  function Made(st: State, parent: Option<nat>, frames: Frames, within: seq<Within>): State {
    var scopes := Dedup(Sort(DenyScopes(st, frames) + ReadParent(st, parent)));
    var things := st.things + [Promise(Moment(st.active, frames, within), parent)];
    if !st.active || scopes == [] then st.(things := things)
    else st.(things := things, tags := st.tags[|st.things| := JoinLines(scopes)])
  }

  function Before(st: State, p: nat): State {
    if st.active then st.(inherited := ReadTag(st, p), saved := st.saved + [st.inherited]) else st
  }

  function After(st: State): State {
    if st.active && st.saved != [] then
      st.(inherited := st.saved[|st.saved| - 1], saved := st.saved[..|st.saved| - 1])
    else st
  }

  // A tag from bind may be empty.
  function Named(tag: string): seq<string> { NonEmpty(SplitLines(tag)) }

  function NonEmpty(l: seq<string>): seq<string> {
    if l == [] then [] else (if l[0] == "" then [] else [l[0]]) + NonEmpty(l[1..])
  }

  // What bind keeps for the calls of the bound function.
  function BindTag(st: State, frames: Frames): string {
    var scopes := DenyScopes(st, frames);
    if !st.active || scopes == [] then "" else JoinLines(scopes)
  }

  function BoundBy(st: State, frames: Frames, within: seq<Within>): State {
    st.(things := st.things + [Bound(Moment(st.active, frames, within))],
        bound := st.bound[|st.things| := BindTag(st, frames)])
  }

  function BoundTag(st: State, b: nat): string { if b in st.bound then st.bound[b] else "" }

  class Hooks {
    var active: bool
    var inherited: seq<string>
    var saved: seq<seq<string>>
    var tags: map<nat, string>
    var bound: map<nat, string>
    var made: nat
    ghost var things: seq<Thing>

    constructor ()
      ensures Now() == START && Numbered()
    {
      active, inherited, saved, tags, bound, made, things := false, [], [], map[], map[], 0, [];
    }

    ghost function Now(): State
      reads this
    {
      State(active, inherited, saved, tags, bound, things)
    }

    ghost predicate Numbered()
      reads this
    {
      made == |things|
    }

    // The previous value, so that the caller can put it back.
    method SetInherited(scopes: seq<string>) returns (prev: seq<string>)
      modifies this`inherited
      ensures inherited == scopes && prev == old(inherited)
    {
      prev := inherited;
      inherited := scopes;
    }

    method MarkActive()
      modifies this`active
      ensures Now() == old(Now()).(active := true)
    {
      active := true;
    }

    method DenyNow(frames: Frames) returns (scopes: seq<string>)
      ensures scopes == DenyScopes(Now(), frames)
    {
      scopes := Dedup(Sort(frames.stack + inherited));
      if frames.current != "" && frames.current != ROOT && frames.current !in scopes {
        scopes := scopes + [frames.current];
      }
    }

    method InitHook(parent: Option<nat>, frames: Frames, ghost within: seq<Within>)
      requires Numbered()
      modifies this
      ensures Now() == Made(old(Now()), parent, frames, within) && Numbered()
    {
      var p := made;
      var scopes := DenyNow(frames);
      made := made + 1;
      things := things + [Promise(Moment(active, frames, within), parent)];
      if !active { return; }
      if parent.Some? && parent.value in tags {
        scopes := scopes + SplitLines(tags[parent.value]);
      } else {
        assert scopes + [] == scopes;
      }
      scopes := Dedup(Sort(scopes));
      if scopes != [] {
        tags := tags[p := JoinLines(scopes)];
      }
    }

    method BeforeHook(p: nat)
      modifies this
      ensures Now() == Before(old(Now()), p)
    {
      if !active { return; }
      var prev := SetInherited(if p in tags then SplitLines(tags[p]) else []);
      saved := saved + [prev];
    }

    method AfterHook()
      modifies this
      ensures Now() == After(old(Now()))
    {
      if !active { return; }
      if saved != [] {
        var prev := saved[|saved| - 1];
        saved := saved[..|saved| - 1];
        var _ := SetInherited(prev);
      }
    }

    // What bind asks for, and keeps.
    method Bind(frames: Frames, ghost within: seq<Within>) returns (tag: string)
      requires Numbered()
      modifies this
      ensures Now() == BoundBy(old(Now()), frames, within) && Numbered() && tag == bound[|things| - 1]
    {
      var scopes := DenyNow(frames);
      tag := if !active || scopes == [] then "" else JoinLines(scopes);
      bound := bound[made := tag];
      made := made + 1;
      things := things + [Bound(Moment(active, frames, within))];
    }

    // Both ends of __runWithScopes.
    method EnterRunWith(tag: string) returns (prev: seq<string>)
      modifies this
      ensures prev == old(inherited) && Now() == old(Now()).(inherited := old(inherited) + Named(tag))
    {
      prev := SetInherited([]);
      var _ := SetInherited(prev + Named(tag));
    }

    method LeaveRunWith(prev: seq<string>)
      modifies this
      ensures Now() == old(Now()).(inherited := prev)
    {
      var _ := SetInherited(prev);
    }
  }

  // A program starts with no rules, no promises and nothing inherited.
  const START := State(false, [], [], map[], map[], [])

  // ---- Runs ----------------------------------------------------------------

  // What a program does, well nested: a reaction and a bound function's call
  // end before what they run in ends. Nothing reacts or is called before it is
  // made.
  datatype Act =
    | Make(parent: Option<nat>, frames: Frames)
    | Bind(frames: Frames)
    | React(promise: nat, body: seq<Act>)
    | Call(bound: nat, body: seq<Act>)
    | Activate

  function Run(acts: seq<Act>, st: State, within: seq<Within>): State {
    if acts == [] then st else Run(acts[1..], Step(acts[0], st, within), within)
  }

  function Step(a: Act, st: State, within: seq<Within>): State {
    match a
    case Make(parent, frames) => Made(st, parent, frames, within)
    case Bind(frames) => BoundBy(st, frames, within)
    case React(p, body) =>
      if p < |st.things| then After(Run(body, Before(st, p), within + [Reacting(p, st.active)])) else st
    case Call(b, body) =>
      if b < |st.things| then Run(body, Entered(st, b), within + [Calling(b)]).(inherited := st.inherited) else st
    case Activate => st.(active := true)
  }

  function Entered(st: State, b: nat): State { st.(inherited := st.inherited + Named(BoundTag(st, b))) }

  // Nothing was saved or tagged before there were rules.
  ghost predicate Quiet(st: State) { !st.active ==> st.saved == [] && st.tags == map[] }

  // A run leaves the inherited and the saved scopes as it found them, even if
  // the rules come into being inside a reaction.
  lemma {:induction false} RunRestores(acts: seq<Act>, st: State, within: seq<Within>)
    requires Quiet(st)
    ensures var end := Run(acts, st, within);
      end.inherited == st.inherited && end.saved == st.saved && Quiet(end) && (st.active ==> end.active)
  {
    if acts != [] {
      StepRestores(acts[0], st, within);
      RunRestores(acts[1..], Step(acts[0], st, within), within);
    }
  }

  lemma {:induction false} StepRestores(a: Act, st: State, within: seq<Within>)
    requires Quiet(st)
    ensures var end := Step(a, st, within);
      end.inherited == st.inherited && end.saved == st.saved && Quiet(end) && (st.active ==> end.active)
  {
    match a
    case Make(_, _) =>
    case Bind(_) =>
    case React(p, body) => RunRestores(body, Before(st, p), within + [Reacting(p, st.active)]);
    case Call(b, body) => RunRestores(body, Entered(st, b), within + [Calling(b)]);
    case Activate =>
  }

  // ---- What a tag says -----------------------------------------------------

  lemma {:induction false} SplitBoth(a: string, b: string)
    ensures SplitLines(a + ("\n" + b)) == SplitLines(a) + SplitLines(b)
  {
    LastOf(a, b);
    if b != "" {
      SplitBoth(a, b[..|b| - 1]);
      GrowBoth(SplitLines(a), SplitLines(b[..|b| - 1]), b[|b| - 1]);
    }
  }

  lemma GrowBoth(x: seq<string>, y: seq<string>, c: char)
    requires y != []
    ensures Grow(x + y, c) == x + Grow(y, c) && (x + y) + [""] == x + (y + [""])
  {
  }

  lemma LastOf(a: string, b: string)
    ensures var t := a + ("\n" + b);
      if b == "" then t[..|t| - 1] == a && t[|t| - 1] == '\n'
      else t[..|t| - 1] == a + ("\n" + b[..|b| - 1]) && t[|t| - 1] == b[|b| - 1]
  {
  }

  // Reading a tag gives the pieces of the names it was made from.
  lemma {:induction false} JoinReads(names: seq<string>)
    requires names != []
    ensures Elements(SplitLines(JoinLines(names))) == Pieces(names)
  {
    hide Elements, Pieces, SplitLines;
    if |names| > 1 {
      var before, last := names[..|names| - 1], names[|names| - 1];
      JoinReads(before);
      SplitBoth(JoinLines(before), last);
      PiecesBoth(before, [last]);
      assert names == before + [last];
      ElementsBoth(SplitLines(JoinLines(before)), SplitLines(last));
      PiecesOne(last);
    } else {
      assert names == [names[0]];
      PiecesOne(names[0]);
    }
  }

  lemma ElementsBoth(a: seq<string>, b: seq<string>)
    ensures Elements(a + b) == Elements(a) + Elements(b)
  {
  }

  lemma PiecesBoth(a: seq<string>, b: seq<string>)
    ensures Pieces(a + b) == Pieces(a) + Pieces(b)
  {
  }

  lemma PiecesOne(s: string)
    ensures Pieces([s]) == Elements(SplitLines(s))
  {
  }

  lemma PiecesSame(a: seq<string>, b: seq<string>)
    requires Elements(a) == Elements(b)
    ensures Pieces(a) == Pieces(b)
  {
    assert forall s :: s in a <==> s in Elements(a);
    assert forall s :: s in b <==> s in Elements(b);
  }

  predicate OneLine(s: string) { forall i :: 0 <= i < |s| ==> s[i] != '\n' }

  lemma {:induction false} OneLineSplits(s: string)
    requires OneLine(s)
    ensures SplitLines(s) == [s]
  {
    if s != "" {
      OneLineSplits(s[..|s| - 1]);
      assert s == s[..|s| - 1] + [s[|s| - 1]];
    }
  }

  lemma {:induction false} LinesAreLines(t: string)
    ensures forall k :: 0 <= k < |SplitLines(t)| ==> OneLine(SplitLines(t)[k])
  {
    if t != "" { LinesAreLines(t[..|t| - 1]); }
  }

  lemma PiecesOfLines(lines: seq<string>)
    requires forall k :: 0 <= k < |lines| ==> OneLine(lines[k])
    ensures Pieces(lines) == Elements(lines)
  {
    forall s | s in lines
      ensures SplitLines(s) == [s]
    {
      OneLineSplits(s);
    }
    forall s | s in lines
      ensures s in Pieces(lines)
    {
      assert s in SplitLines(s);
    }
  }

  // A tag keeps its names exactly when none of them has a line break.
  lemma NamesKeptExact(names: seq<string>)
    requires names != []
    ensures Elements(SplitLines(JoinLines(names))) == Elements(names) <==>
      forall k :: 0 <= k < |names| ==> OneLine(names[k])
  {
    JoinReads(names);
    if forall k :: 0 <= k < |names| ==> OneLine(names[k]) {
      PiecesOfLines(names);
    } else {
      var k :| 0 <= k < |names| && !OneLine(names[k]);
      LinesAreLines(JoinLines(names));
      assert names[k] in Elements(names);
    }
  }

  lemma {:induction false} SortKeeps(l: seq<string>)
    ensures Elements(Sort(l)) == Elements(l)
  {
    if l != [] {
      SortKeeps(l[1..]);
      InsertKeeps(l[0], Sort(l[1..]));
      assert l == [l[0]] + l[1..];
    }
  }

  lemma {:induction false} InsertKeeps(s: string, l: seq<string>)
    ensures Elements(Insert(s, l)) == Elements(l) + {s}
  {
    if l != [] && !Precedes(s, l[0]) {
      InsertKeeps(s, l[1..]);
      assert l == [l[0]] + l[1..];
      ElementsBoth([l[0]], Insert(s, l[1..]));
      ElementsBoth([l[0]], l[1..]);
    }
  }

  lemma {:induction false} DedupKeeps(l: seq<string>)
    ensures Elements(Dedup(l)) == Elements(l)
  {
    if |l| >= 2 {
      DedupKeeps(l[1..]);
      assert l == [l[0]] + l[1..];
      ElementsBoth([l[0]], l[1..]);
      if l[0] == l[1] { assert l[0] in l[1..]; } else { ElementsBoth([l[0]], Dedup(l[1..])); }
    }
  }

  // ---- What is live --------------------------------------------------------

  // The scope that require set; the root is none.
  function Required(current: string): seq<string> { if current in {"", "."} then [] else [current] }

  // Whose rules apply at a moment: of the packages on the stack, of the one
  // require set, and of those the moment inherits. Only what was made before
  // thing n can matter.
  function LiveAt(things: seq<Thing>, n: nat, m: Moment): set<string>
    decreases n, |m.within| + 1
  {
    if m.active then Pieces(m.frames.stack) + Pieces(Required(m.frames.current)) + Inherited(things, n, m.within)
      else {}
  }

  // A reaction inherits what its promise stands for and nothing else; a bound
  // call adds what was live when its function was bound.
  function Inherited(things: seq<Thing>, n: nat, within: seq<Within>): set<string>
    decreases n, |within|
  {
    if within == [] then {}
    else
      var outer, last := within[..|within| - 1], within[|within| - 1];
      match last
      case Reacting(p, active) =>
        if !active then Inherited(things, n, outer) else if p < n then StandsFor(things, p) else {}
      case Calling(b) =>
        Inherited(things, n, outer)
        + if b < n && b < |things| && things[b].Bound? then LiveAt(things, b, things[b].at) - {""} else {}
  }

  // A promise stands for all that was live when it, its parent, its parent's
  // parent, ... was made.
  function StandsFor(things: seq<Thing>, p: nat): set<string>
    decreases p, if p < |things| then |things[p].at.within| + 2 else 0
  {
    if p < |things| && things[p].Promise? then
      var parent := things[p].parent;
      LiveAt(things, p, things[p].at)
      + if parent.Some? && parent.value < p then StandsFor(things, parent.value) else {}
    else {}
  }

  // ---- It does not change as more is made ----------------------------------

  ghost predicate Refers(within: seq<Within>, n: nat) {
    forall k :: 0 <= k < |within| ==> (if within[k].Reacting? then within[k].promise else within[k].bound) < n
  }

  lemma {:induction false} InheritedStays(things: seq<Thing>, more: seq<Thing>, n: nat, n': nat, within: seq<Within>)
    requires things <= more && n <= |things| && (n' == n || (n < n' && Refers(within, n)))
    ensures Inherited(more, n', within) == Inherited(things, n, within)
    decreases n, |within|
  {
    if within != [] {
      var outer, last := within[..|within| - 1], within[|within| - 1];
      InheritedStays(things, more, n, n', outer);
      match last
      case Reacting(p, active) => if p < n { StandsStays(things, more, p); }
      case Calling(b) => if b < n { LiveStays(things, more, b, things[b].at); }
    }
  }

  lemma {:induction false} LiveStays(things: seq<Thing>, more: seq<Thing>, n: nat, m: Moment)
    requires things <= more && n <= |things|
    ensures LiveAt(more, n, m) == LiveAt(things, n, m)
    decreases n, |m.within| + 1
  {
    InheritedStays(things, more, n, n, m.within);
  }

  lemma {:induction false} StandsStays(things: seq<Thing>, more: seq<Thing>, p: nat)
    requires things <= more && p < |things|
    ensures StandsFor(more, p) == StandsFor(things, p)
    decreases p, |things[p].at.within| + 2
  {
    LiveStays(things, more, p, things[p].at);
    if things[p].Promise? {
      var parent := things[p].parent;
      if parent.Some? && parent.value < p { StandsStays(things, more, parent.value); }
    }
  }

  // ---- What the state says of it -------------------------------------------

  ghost predicate TagTells(st: State, p: nat) { Elements(ReadTag(st, p)) == StandsFor(st.things, p) }

  ghost predicate BoundTells(st: State, b: nat) {
    Elements(Named(BoundTag(st, b)))
    == if b < |st.things| && st.things[b].Bound? then LiveAt(st.things, b, st.things[b].at) - {""} else {}
  }

  // Each tag says what its promise stands for, each bound function's what was
  // live when it was bound.
  ghost predicate Truthful(st: State) {
    && Quiet(st)
    && (forall p :: p in st.tags || p in st.bound ==> p < |st.things|)
    && (forall p {:trigger TagTells(st, p)} :: 0 <= p < |st.things| ==> TagTells(st, p))
    && (forall b {:trigger BoundTells(st, b)} :: 0 <= b < |st.things| ==> BoundTells(st, b))
  }

  // What is inherited is what should be.
  ghost predicate Inherits(st: State, within: seq<Within>) {
    && Elements(st.inherited) == Inherited(st.things, |st.things|, within)
    && (forall k :: 0 <= k < |st.inherited| ==> OneLine(st.inherited[k]))
    && Refers(within, |st.things|)
  }

  lemma DenyIs(st: State, frames: Frames)
    ensures Elements(DenyScopes(st, frames))
      == Elements(frames.stack) + Elements(st.inherited) + Elements(Required(frames.current))
  {
    var all := frames.stack + st.inherited;
    SortKeeps(all);
    DedupKeeps(Sort(all));
    ElementsBoth(frames.stack, st.inherited);
    var scopes := Dedup(Sort(all));
    ElementsBoth(scopes, [frames.current]);
    assert frames.current in scopes ==> frames.current in Elements(scopes);
  }

  // What deny_scopes returns is what is live.
  lemma DenyIsLive(st: State, frames: Frames, within: seq<Within>)
    requires Inherits(st, within)
    ensures Pieces(DenyScopes(st, frames)) == LiveAt(st.things, |st.things|, Moment(true, frames, within))
  {
    hide Inherited, Elements, Pieces, DenyScopes;
    var required := Required(frames.current);
    DenyIs(st, frames);
    ElementsBoth(frames.stack, st.inherited);
    ElementsBoth(frames.stack + st.inherited, required);
    PiecesSame(DenyScopes(st, frames), frames.stack + st.inherited + required);
    PiecesBoth(frames.stack + st.inherited, required);
    PiecesBoth(frames.stack, st.inherited);
    PiecesOfLines(st.inherited);
  }

  lemma ParentTells(st: State, parent: Option<nat>)
    requires Truthful(st)
    ensures Elements(ReadParent(st, parent))
      == if parent.Some? && parent.value < |st.things| then StandsFor(st.things, parent.value) else {}
    ensures Pieces(ReadParent(st, parent)) == Elements(ReadParent(st, parent))
  {
    hide StandsFor;
    if parent.Some? && parent.value < |st.things| { assert TagTells(st, parent.value); }
    if parent.Some? && parent.value in st.tags { LinesAreLines(st.tags[parent.value]); }
    PiecesOfLines(ReadParent(st, parent));
  }

  lemma NewTag(names: seq<string>)
    ensures var scopes := Dedup(Sort(names));
      if scopes == [] then Pieces(names) == {} else Elements(SplitLines(JoinLines(scopes))) == Pieces(names)
  {
    SortKeeps(names);
    DedupKeeps(Sort(names));
    PiecesSame(Dedup(Sort(names)), names);
    if Dedup(Sort(names)) != [] { JoinReads(Dedup(Sort(names))); }
  }

  lemma MadeTells(st: State, parent: Option<nat>, frames: Frames, within: seq<Within>)
    requires Truthful(st) && Inherits(st, within)
    ensures TagTells(Made(st, parent, frames, within), |st.things|)
  {
    hide LiveAt, DenyScopes, Sort, Dedup, JoinLines, SplitLines, Pieces, Elements;
    var live, above := DenyScopes(st, frames), ReadParent(st, parent);
    var after, p := Made(st, parent, frames, within), |st.things|;
    ParentTells(st, parent);
    DenyIsLive(st, frames, within);
    PiecesBoth(live, above);
    NewTag(live + above);
    NewStandsFor(st.things, after.things[p]);
    if !st.active { NoneLive(st.things, p, after.things[p].at); }
    NothingRead();
  }

  lemma NothingRead()
    ensures Elements([]) == {}
  {
  }

  lemma NoneLive(things: seq<Thing>, n: nat, m: Moment)
    requires !m.active
    ensures LiveAt(things, n, m) == {}
  {
  }

  lemma NewStandsFor(things: seq<Thing>, t: Thing)
    requires t.Promise?
    ensures StandsFor(things + [t], |things|) == LiveAt(things, |things|, t.at)
      + if t.parent.Some? && t.parent.value < |things| then StandsFor(things, t.parent.value) else {}
  {
    LiveStays(things, things + [t], |things|, t.at);
    if t.parent.Some? && t.parent.value < |things| { StandsStays(things, things + [t], t.parent.value); }
  }

  // What was said stays said as more is made.
  lemma OldTells(st: State, after: State, p: nat)
    requires st.things <= after.things && p < |st.things|
    requires TagTells(st, p) && ReadTag(after, p) == ReadTag(st, p)
    requires BoundTells(st, p) && BoundTag(after, p) == BoundTag(st, p)
    ensures TagTells(after, p) && BoundTells(after, p)
  {
    hide LiveAt, StandsFor;
    StandsStays(st.things, after.things, p);
    LiveStays(st.things, after.things, p, st.things[p].at);
  }

  lemma OldTell(st: State, after: State)
    requires Truthful(st) && st.things <= after.things
    requires forall p {:trigger ReadTag(after, p)} :: 0 <= p < |st.things| ==>
      ReadTag(after, p) == ReadTag(st, p) && BoundTag(after, p) == BoundTag(st, p)
    ensures forall p {:trigger TagTells(after, p)} :: 0 <= p < |st.things| ==> TagTells(after, p)
    ensures forall p {:trigger BoundTells(after, p)} :: 0 <= p < |st.things| ==> BoundTells(after, p)
  {
    hide ReadTag, BoundTag;
    forall p | 0 <= p < |st.things|
      ensures TagTells(after, p) && BoundTells(after, p)
    {
      assert TagTells(st, p) && BoundTells(st, p);
      assert ReadTag(after, p) == ReadTag(st, p);
      OldTells(st, after, p);
    }
  }

  lemma StillInherits(st: State, after: State, within: seq<Within>)
    requires Inherits(st, within) && st.things <= after.things && after.inherited == st.inherited
    ensures Inherits(after, within)
  {
    InheritedStays(st.things, after.things, |st.things|, |after.things|, within);
  }

  // Making a promise keeps all tags true, and so does binding a function.
  lemma MadeKeeps(st: State, parent: Option<nat>, frames: Frames, within: seq<Within>)
    requires Truthful(st) && Inherits(st, within)
    ensures var after := Made(st, parent, frames, within); Truthful(after) && Inherits(after, within)
  {
    hide TagTells, BoundTells, Inherits, DenyScopes, Dedup, Sort, JoinLines, SplitLines;
    var after := Made(st, parent, frames, within);
    MadeTells(st, parent, frames, within);
    NoTag(after, |st.things|);
    forall p | 0 <= p < |st.things|
      ensures ReadTag(after, p) == ReadTag(st, p) && BoundTag(after, p) == BoundTag(st, p)
    {
    }
    OldTell(st, after);
    StillInherits(st, after, within);
  }

  lemma NoTag(st: State, p: nat)
    requires p < |st.things| && st.things[p].Promise? && p !in st.bound
    ensures BoundTells(st, p)
  {
    assert SplitLines("") == [""];
  }

  lemma {:induction false} NonEmptyKeeps(l: seq<string>)
    ensures Elements(NonEmpty(l)) == Elements(l) - {""}
  {
    if l != [] {
      NonEmptyKeeps(l[1..]);
      assert l == [l[0]] + l[1..];
      ElementsBoth([l[0]], l[1..]);
      ElementsBoth(if l[0] == "" then [] else [l[0]], NonEmpty(l[1..]));
    }
  }

  // A bound function carries what was live when it was bound.
  lemma BindCarries(st: State, frames: Frames, within: seq<Within>)
    requires Inherits(st, within)
    ensures Elements(Named(BindTag(st, frames)))
      == LiveAt(st.things, |st.things|, Moment(st.active, frames, within)) - {""}
  {
    hide Inherits, Inherited, DenyScopes;
    var scopes, tag := DenyScopes(st, frames), BindTag(st, frames);
    DenyIsLive(st, frames, within);
    NonEmptyKeeps(SplitLines(tag));
    if st.active && scopes != [] { JoinReads(scopes); }
    assert SplitLines("") == [""];
  }

  lemma BoundKeeps(st: State, frames: Frames, within: seq<Within>)
    requires Truthful(st) && Inherits(st, within)
    ensures var after := BoundBy(st, frames, within); Truthful(after) && Inherits(after, within)
  {
    hide TagTells, Inherits, BindTag, SplitLines, LiveAt, Named, Elements;
    var after, b := BoundBy(st, frames, within), |st.things|;
    BindCarries(st, frames, within);
    LiveStays(st.things, after.things, b, after.things[b].at);
    forall p | 0 <= p < |st.things|
      ensures ReadTag(after, p) == ReadTag(st, p) && BoundTag(after, p) == BoundTag(st, p)
    {
    }
    OldTell(st, after);
    NoPromise(after, b);
    StillInherits(st, after, within);
  }

  lemma NoPromise(st: State, p: nat)
    requires p < |st.things| && st.things[p].Bound? && p !in st.tags
    ensures TagTells(st, p)
  {
  }

  // ---- Every run -----------------------------------------------------------

  // Whatever runs inherits just what it should: a reaction under rules, what its
  // promise stands for; a bound function's call, what was live where it was
  // bound as well.
  ghost predicate RunTells(acts: seq<Act>, st: State, within: seq<Within>) {
    acts == [] || (StepTells(acts[0], st, within) && RunTells(acts[1..], Step(acts[0], st, within), within))
  }

  ghost predicate StepTells(a: Act, st: State, within: seq<Within>) {
    match a
    case Make(parent, frames) =>
      Step(a, st, within).things == st.things + [Promise(Moment(st.active, frames, within), parent)]
    case Bind(frames) => Step(a, st, within).things == st.things + [Bound(Moment(st.active, frames, within))]
    case React(p, body) =>
      p < |st.things| ==>
        var inside, in_ := Before(st, p), within + [Reacting(p, st.active)];
        && Elements(inside.inherited) == Inherited(st.things, |st.things|, in_)
        && (st.active ==> Elements(inside.inherited) == StandsFor(st.things, p))
        && RunTells(body, inside, in_)
    case Call(b, body) =>
      b < |st.things| ==>
        var inside, in_ := Entered(st, b), within + [Calling(b)];
        Elements(inside.inherited) == Inherited(st.things, |st.things|, in_) && RunTells(body, inside, in_)
    case Activate => Step(a, st, within).active && Step(a, st, within).things == st.things
  }

  lemma {:induction false} EveryRunTells(acts: seq<Act>, st: State, within: seq<Within>)
    requires Truthful(st) && Inherits(st, within)
    ensures RunTells(acts, st, within)
    ensures var end := Run(acts, st, within);
      Truthful(end) && Inherits(end, within) && st.things <= end.things && end.inherited == st.inherited
    decreases acts
  {
    hide Truthful, Inherits;
    if acts != [] {
      EveryStepTells(acts[0], st, within);
      EveryRunTells(acts[1..], Step(acts[0], st, within), within);
    }
  }

  lemma {:induction false} EveryStepTells(a: Act, st: State, within: seq<Within>)
    requires Truthful(st) && Inherits(st, within)
    ensures StepTells(a, st, within)
    ensures var after := Step(a, st, within);
      Truthful(after) && Inherits(after, within) && st.things <= after.things && after.inherited == st.inherited
    decreases a, 1
  {
    hide Truthful, Inherits;
    match a
    case Make(parent, frames) => MadeKeeps(st, parent, frames, within);
    case Bind(frames) => BoundKeeps(st, frames, within);
    case React(p, body) => if p < |st.things| { ReactTells(p, body, st, within); }
    case Call(b, body) => if b < |st.things| { CallTells(b, body, st, within); }
    case Activate => ActiveTells(st, within);
  }

  lemma ActiveTells(st: State, within: seq<Within>)
    requires Truthful(st) && Inherits(st, within)
    ensures Truthful(st.(active := true)) && Inherits(st.(active := true), within)
  {
    SameTags(st, st.(active := true));
  }

  lemma SameTags(a: State, b: State)
    requires Truthful(a) && b.tags == a.tags && b.bound == a.bound && b.things == a.things && Quiet(b)
    ensures Truthful(b)
  {
    forall p | 0 <= p < |b.things|
      ensures TagTells(b, p) && BoundTells(b, p)
    {
      assert TagTells(a, p) && BoundTells(a, p);
    }
  }

  // One thing more to lie in.
  lemma InMore(things: seq<Thing>, within: seq<Within>, last: Within)
    requires Refers(within, |things|)
    requires (if last.Reacting? then last.promise else last.bound) < |things|
    ensures Refers(within + [last], |things|)
    ensures last.Reacting? ==>
      Inherited(things, |things|, within + [last])
      == if last.active then StandsFor(things, last.promise) else Inherited(things, |things|, within)
    ensures last.Calling? ==>
      Inherited(things, |things|, within + [last])
      == Inherited(things, |things|, within)
        + if things[last.bound].Bound? then LiveAt(things, last.bound, things[last.bound].at) - {""} else {}
  {
    hide LiveAt, StandsFor;
    var more := within + [last];
    assert more[..|more| - 1] == within;
  }

  // What a tag is said to tell, spelled out.
  lemma TellsOf(st: State, p: nat)
    requires TagTells(st, p) && BoundTells(st, p) && p < |st.things|
    ensures Elements(ReadTag(st, p)) == StandsFor(st.things, p)
    ensures Elements(Named(BoundTag(st, p)))
      == if st.things[p].Bound? then LiveAt(st.things, p, st.things[p].at) - {""} else {}
  {
    hide LiveAt, StandsFor, Elements, Named;
  }

  // Inside a reaction.
  lemma BeforeInherits(p: nat, st: State, within: seq<Within>)
    requires Truthful(st) && Inherits(st, within) && p < |st.things|
    ensures Truthful(Before(st, p)) && Inherits(Before(st, p), within + [Reacting(p, st.active)])
    ensures st.active ==> Elements(Before(st, p).inherited) == StandsFor(st.things, p)
  {
    hide StandsFor, Elements, SplitLines, Inherited, TagTells, BoundTells;
    var inside, in_ := Before(st, p), within + [Reacting(p, st.active)];
    hide OneLine, Refers, Pieces;
    assert TagTells(st, p) && BoundTells(st, p);
    TellsOf(st, p);
    if p in st.tags { LinesAreLines(st.tags[p]); }
    InMore(st.things, within, Reacting(p, st.active));
    SameTags(st, inside);
  }

  // Inside a bound function's call.
  lemma EnteredInherits(b: nat, st: State, within: seq<Within>)
    requires Truthful(st) && Inherits(st, within) && b < |st.things|
    ensures Truthful(Entered(st, b)) && Inherits(Entered(st, b), within + [Calling(b)])
  {
    hide LiveAt, Elements, SplitLines, Named, Inherited, BoundTells, TagTells;
    var inside, in_ := Entered(st, b), within + [Calling(b)];
    hide OneLine, Refers, Pieces;
    assert TagTells(st, b) && BoundTells(st, b);
    TellsOf(st, b);
    InMore(st.things, within, Calling(b));
    ElementsBoth(st.inherited, Named(BoundTag(st, b)));
    NamedLines(BoundTag(st, b));
    SameTags(st, inside);
  }

  lemma NamedLines(tag: string)
    ensures forall k :: 0 <= k < |Named(tag)| ==> OneLine(Named(tag)[k])
  {
    LinesAreLines(tag);
    NonEmptyLines(SplitLines(tag));
  }

  lemma {:induction false} NonEmptyLines(l: seq<string>)
    requires forall k :: 0 <= k < |l| ==> OneLine(l[k])
    ensures forall k :: 0 <= k < |NonEmpty(l)| ==> OneLine(NonEmpty(l)[k])
  {
    if l != [] { NonEmptyLines(l[1..]); }
  }

  lemma {:induction false} ReactTells(p: nat, body: seq<Act>, st: State, within: seq<Within>)
    requires Truthful(st) && Inherits(st, within) && p < |st.things|
    ensures StepTells(React(p, body), st, within)
    ensures var after := Step(React(p, body), st, within);
      Truthful(after) && Inherits(after, within) && st.things <= after.things && after.inherited == st.inherited
    decreases React(p, body), 0
  {
    hide Inherited, StandsFor, Elements, TagTells, BoundTells;
    var inside, in_ := Before(st, p), within + [Reacting(p, st.active)];
    BeforeInherits(p, st, within);
    EveryRunTells(body, inside, in_);
    RunRestores(body, inside, in_);
    var after := Step(React(p, body), st, within);
    SameTags(Run(body, inside, in_), after);
    StillInherits(st, after, within);
  }

  lemma {:induction false} CallTells(b: nat, body: seq<Act>, st: State, within: seq<Within>)
    requires Truthful(st) && Inherits(st, within) && b < |st.things|
    ensures StepTells(Call(b, body), st, within)
    ensures var after := Step(Call(b, body), st, within);
      Truthful(after) && Inherits(after, within) && st.things <= after.things && after.inherited == st.inherited
    decreases Call(b, body), 0
  {
    hide Inherited, StandsFor, Elements, TagTells, BoundTells;
    var inside, in_ := Entered(st, b), within + [Calling(b)];
    EnteredInherits(b, st, within);
    EveryRunTells(body, inside, in_);
    RunRestores(body, inside, in_);
    var after := Step(Call(b, body), st, within);
    SameTags(Run(body, inside, in_), after);
    StillInherits(st, after, within);
  }

  lemma StartTells(acts: seq<Act>)
    ensures RunTells(acts, START, []) && Run(acts, START, []).inherited == [] && Run(acts, START, []).saved == []
  {
    EveryRunTells(acts, START, []);
    RunRestores(acts, START, []);
  }
}
