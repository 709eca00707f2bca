// The six passes do what one scan would that looks for all patterns at once:
// no pass sees what another put, and each byte of the source keeps its mode.
module ImportMetaOnce {
  import opened Prelude
  import opened ImportMeta
  import opened ImportMetaBound

  // ---- One scan for the first n rules --------------------------------------

  // The first rule whose text stands at i.
  function Found(text: string, i: nat, rules: seq<Rule>, n: nat): (r: Option<nat>)
    requires n <= |rules|
    ensures r.Some? ==> r.value < n && StandsAt(text, i, rules[r.value].from)
    ensures r.Some? ==> forall k :: 0 <= k < r.value ==> !StandsAt(text, i, rules[k].from)
    ensures r.None? ==> forall k :: 0 <= k < n ==> !StandsAt(text, i, rules[k].from)
  {
    if n == 0 then None
    else
      var before := Found(text, i, rules, n - 1);
      if before.Some? then before else if StandsAt(text, i, rules[n - 1].from) then Some(n - 1) else None
  }

  ghost predicate Proper(rules: seq<Rule>) { forall k :: 0 <= k < |rules| ==> rules[k].from != "" }

  function ScanAll(text: string, rules: seq<Rule>, n: nat, i: nat, mode: Mode): (m: Move)
    requires n <= |rules| && i < |text|
    ensures m.Two? ==> i + 1 < |text|
    ensures m.Hit? ==> Found(text, i, rules, n).Some?
  {
    Scan(text, Found(text, i, rules, n).Some?, i, mode)
  }

  function RunAll(text: string, rules: seq<Rule>, n: nat, i: nat, mode: Mode, out: string): string
    requires Proper(rules) && n <= |rules|
    decreases |text| - i
  {
    if i >= |text| then out
    else match ScanAll(text, rules, n, i, mode)
      case Hit(m) =>
        var rule := rules[Found(text, i, rules, n).value];
        RunAll(text, rules, n, i + |rule.from|, m, out + rule.to)
      case One(m) => RunAll(text, rules, n, i + 1, m, out + [text[i]])
      case Two(m) => RunAll(text, rules, n, i + 2, m, out + [text[i]] + [text[i + 1]])
  }

  function Together(text: string, rules: seq<Rule>, n: nat): string
    requires Proper(rules) && n <= |rules|
  {
    RunAll(text, rules, n, 0, Code, "")
  }

  // ---- What the rules must be like -----------------------------------------

  // Code that leaves the scanner where it is.
  predicate IsBland(c: char) {
    c != '/' && c != '*' && c != '{' && c != '}'
      && c != '"' && c != '\'' && c != '`' && c != '$' && c != '\\' && c != '\n'
  }

  ghost predicate Bland(t: string) { forall o :: 0 <= o < |t| ==> IsBland(t[o]) }

  // In code, or in an interpolation with open braces.
  predicate IsCode(mode: Mode) { mode.Code? || (mode.Interpolation? && mode.depth >= 1) }

  // No text can have b begin inside a.
  ghost predicate NoneInside(a: string, b: string) {
    |b| >= 2 && forall d :: 0 < d < |a| && a[d] == b[0] ==> d + 1 < |a| && a[d + 1] != b[1]
  }

  ghost predicate Differ(a: string, b: string) { exists d :: 0 <= d < |a| && d < |b| && a[d] != b[d] }

  // Wherever a text to put stands in code, scanning it is neither here nor there.
  ghost predicate Neutral(to: string) {
    forall text: string, i: nat, mode: Mode {:trigger SkimsTo(text, i, mode, to)} ::
      IsCode(mode) && StandsAt(text, i, to) ==> SkimsTo(text, i, mode, to)
  }

  ghost predicate SkimsTo(text: string, i: nat, mode: Mode, to: string) { Skims(text, i, mode, i + |to|, mode) }

  // Copying, the scanner gets from i in mode a to j in mode b.
  ghost predicate Skims(text: string, i: nat, a: Mode, j: nat, b: Mode)
    decreases j - i
  {
    if i >= j then i == j && a == b
    else i < |text| && match Scan(text, false, i, a)
      case Hit(_) => false
      case One(m) => Skims(text, i + 1, m, j, b)
      case Two(m) => i + 2 <= j && Skims(text, i + 2, m, j, b)
  }

  ghost predicate RuleTame(rule: Rule) {
    && |rule.from| >= 2 && Bland(rule.from)
    && |rule.to| >= 2 && rule.to[0] != '/' && rule.to[0] != '*' && rule.to[0] != '{'
    && Neutral(rule.to)
  }

  ghost predicate PairTame(j: nat, k: nat, rules: seq<Rule>)
    requires j < |rules| && k < |rules|
  {
    && NoneInside(rules[j].from, rules[k].from)
    && (j != k ==> Differ(rules[j].from, rules[k].from))
    && (j < k ==> Apart(rules[k].from, rules[j].to))
  }

  ghost predicate Tame(rules: seq<Rule>) {
    && (forall k {:trigger RuleTame(rules[k])} :: 0 <= k < |rules| ==> RuleTame(rules[k]))
    && (forall j, k {:trigger PairTame(j, k, rules)} :: 0 <= j < |rules| && 0 <= k < |rules| ==> PairTame(j, k, rules))
  }

  lemma TameProper(rules: seq<Rule>)
    requires Tame(rules)
    ensures Proper(rules)
  {
    forall k | 0 <= k < |rules|
      ensures rules[k].from != ""
    {
      assert RuleTame(rules[k]);
    }
  }

  // ---- Reading a pattern ---------------------------------------------------

  ghost predicate Reads(text: string, i: nat, from: string, d: nat) {
    d <= |from| && i + d <= |text| && forall e :: 0 <= e < d ==> text[i + e] == from[e]
  }

  lemma AtReads(text: string, i: nat, from: string)
    ensures StandsAt(text, i, from) <==> Reads(text, i, from, |from|)
  {
    if StandsAt(text, i, from) {
      forall e | 0 <= e < |from|
        ensures text[i + e] == from[e]
      {
        Letter(text, i, |from|, e);
      }
    }
    if Reads(text, i, from, |from|) { assert text[i..i + |from|] == from; }
  }

  // Two patterns never stand at one place, or one inside the other.
  lemma OneAtATime(text: string, rules: seq<Rule>, i: nat, j: nat, d: nat, k: nat)
    requires Tame(rules) && j < |rules| && k < |rules| && d < |rules[j].from| && (d == 0 ==> j != k)
    requires StandsAt(text, i, rules[j].from)
    ensures !StandsAt(text, i + d, rules[k].from)
  {
    assert PairTame(j, k, rules);
    AtReads(text, i, rules[j].from);
    AtReads(text, i + d, rules[k].from);
    if d == 0 {
      var e :| 0 <= e < |rules[j].from| && e < |rules[k].from| && rules[j].from[e] != rules[k].from[e];
      assert text[i + e] == rules[j].from[e];
    } else {
      assert text[i + d] == rules[j].from[d];
      if d + 1 < |rules[j].from| { assert text[i + d + 1] == rules[j].from[d + 1]; }
    }
  }

  // A bland byte in code is copied, or starts a match.
  lemma BlandScan(text: string, hit: bool, i: nat, mode: Mode)
    requires i < |text| && IsBland(text[i]) && IsCode(mode)
    ensures Scan(text, hit, i, mode) == if hit then Hit(mode) else One(mode)
  {
  }

  // Matches are in code, where nothing else is done.
  lemma HitInCode(text: string, i: nat, mode: Mode, from: string)
    requires i < |text| && StandsAt(text, i, from) && |from| >= 2 && Bland(from) && Scan(text, true, i, mode).Hit?
    requires DeepMode(mode)
    ensures IsCode(mode) && Scan(text, true, i, mode) == Hit(mode)
  {
    AtReads(text, i, from);
    assert IsBland(text[i]);
  }

  // Open braces are counted from one up, in the mode and in those around it.
  predicate DeepMode(mode: Mode) {
    match mode
    case Str(_, outer) => DeepMode(outer)
    case Interpolation(depth) => depth >= 1
    case _ => true
  }

  lemma ScanDeep(text: string, hit: bool, i: nat, mode: Mode)
    requires i < |text| && DeepMode(mode)
    ensures DeepMode(Scan(text, hit, i, mode).mode)
  {
  }

  // ---- The text that a scan makes ------------------------------------------

  lemma {:induction false} RunAllExtends(source: string, rules: seq<Rule>, n: nat, i: nat, mode: Mode, done: string)
    requires Proper(rules) && n <= |rules|
    ensures done <= RunAll(source, rules, n, i, mode, done)
    decreases |source| - i
  {
    hide Found, Scan;
    if i < |source| {
      match ScanAll(source, rules, n, i, mode)
      case Hit(m) =>
        var rule := rules[Found(source, i, rules, n).value];
        RunAllExtends(source, rules, n, i + |rule.from|, m, done + rule.to);
        StillExtends(done, rule.to, RunAll(source, rules, n, i, mode, done));
      case One(m) =>
        RunAllExtends(source, rules, n, i + 1, m, done + [source[i]]);
        StillExtends(done, [source[i]], RunAll(source, rules, n, i, mode, done));
      case Two(m) =>
        RunAllExtends(source, rules, n, i + 2, m, done + [source[i]] + [source[i + 1]]);
        StillExtends(done + [source[i]], [source[i + 1]], RunAll(source, rules, n, i, mode, done));
        StillExtends(done, [source[i]], RunAll(source, rules, n, i, mode, done));
    }
  }

  lemma StillExtends(done: string, more: string, text: string)
    requires done + more <= text
    ensures done <= text && (more != "" ==> |done| < |text| && text[|done|] == more[0])
  {
    assert (done + more)[..|done|] == done;
    if more != "" { assert (done + more)[|done|] == more[0]; }
  }

  // What comes next in it: a text that is put, or the next byte of the source.
  ghost predicate NextByte(source: string, rules: seq<Rule>, n: nat, i: nat, mode: Mode, text: string, j: nat)
    requires n <= |rules|
  {
    if i >= |source| then j == |text|
    else if j >= |text| then false
    else if ScanAll(source, rules, n, i, mode).Hit? then StandsAt(text, j, rules[Found(source, i, rules, n).value].to)
    else text[j] == source[i]
  }

  lemma NextComes(source: string, rules: seq<Rule>, n: nat, i: nat, mode: Mode, done: string)
    requires Tame(rules) && Proper(rules) && n <= |rules| && i <= |source|
    ensures NextByte(source, rules, n, i, mode, RunAll(source, rules, n, i, mode, done), |done|)
  {
    hide Scan, Neutral, Bland;
    var text := RunAll(source, rules, n, i, mode, done);
    if i < |source| {
      match ScanAll(source, rules, n, i, mode)
      case Hit(m) =>
        var k := Found(source, i, rules, n).value;
        RunAllExtends(source, rules, n, i + |rules[k].from|, m, done + rules[k].to);
        assert RuleTame(rules[k]);
        PutStands(text, done, rules[k].to);
      case One(m) =>
        RunAllExtends(source, rules, n, i + 1, m, done + [source[i]]);
        StillExtends(done, [source[i]], text);
      case Two(m) =>
        RunAllExtends(source, rules, n, i + 2, m, done + [source[i]] + [source[i + 1]]);
        StillExtends(done + [source[i]], [source[i + 1]], text);
        StillExtends(done, [source[i]], text);
    }
  }

  lemma PutStands(text: string, done: string, to: string)
    requires done + to <= text && to != ""
    ensures StandsAt(text, |done|, to) && |done| < |text|
  {
    assert text[..|done + to|] == done + to;
    assert text[|done|..|done| + |to|] == text[..|done + to|][|done|..];
  }

  // The scanner, which looks one byte ahead, sees in the text what it sees in
  // the source.
  lemma LooksSame(source: string, text: string, hit: bool, i: nat, j: nat, mode: Mode)
    requires i < |source| && j < |text| && text[j] == source[i]
    requires i + 1 < |source| <==> j + 1 < |text|
    requires i + 1 < |source| ==> text[j + 1] == source[i + 1] || (IsAhead(text[j + 1]) && IsAhead(source[i + 1]))
    ensures Scan(text, hit, j, mode) == Scan(source, hit, i, mode)
  {
  }

  predicate IsAhead(c: char) { c != '/' && c != '*' && c != '{' }

  lemma NextLooksSame(source: string, rules: seq<Rule>, n: nat, i: nat, mode: Mode, text: string, j: nat)
    requires Tame(rules) && n <= |rules| && i <= |source| && j <= |text| && NextByte(source, rules, n, i, mode, text, j)
    ensures i < |source| <==> j < |text|
    ensures i < |source| ==> text[j] == source[i] || (IsAhead(text[j]) && IsAhead(source[i]))
  {
    if i < |source| && ScanAll(source, rules, n, i, mode).Hit? {
      var k := Found(source, i, rules, n).value;
      assert RuleTame(rules[k]);
      AtReads(source, i, rules[k].from);
      AtReads(text, j, rules[k].to);
      assert IsBland(rules[k].from[0]);
    }
  }

  // ---- One more rule -------------------------------------------------------

  // None of the first n rules stands in the d bytes from i on.
  ghost predicate AllClear(source: string, rules: seq<Rule>, n: nat, i: nat, d: nat)
    requires n <= |rules|
  {
    d == 0 || (AllClear(source, rules, n, i, d - 1) && Found(source, i + (d - 1), rules, n).None?)
  }

  // They leave a bland stretch alone.
  lemma {:induction false} StretchCopied(source: string, rules: seq<Rule>, n: nat, i: nat, mode: Mode, done: string,
        from: string, d: nat)
    requires Proper(rules) && n <= |rules| && IsCode(mode) && Bland(from) && Reads(source, i, from, d)
    requires AllClear(source, rules, n, i, d)
    ensures RunAll(source, rules, n, i, mode, done) == RunAll(source, rules, n, i + d, mode, done + Sub(from, 0, d))
  {
    hide RunAll, Found, Sub;
    if d == 0 {
      SubNone(from, done);
    } else {
      StretchCopied(source, rules, n, i, mode, done, from, d - 1);
      assert source[i + (d - 1)] == from[d - 1];
      OneCopied(source, rules, n, i + (d - 1), mode, done + Sub(from, 0, d - 1));
      SubNext(from, d, done);
    }
  }

  lemma OneCopied(source: string, rules: seq<Rule>, n: nat, here: nat, mode: Mode, done: string)
    requires Proper(rules) && n <= |rules| && IsCode(mode) && here < |source| && IsBland(source[here])
    requires Found(source, here, rules, n).None?
    ensures RunAll(source, rules, n, here, mode, done)
      == RunAll(source, rules, n, here + 1, mode, done + [source[here]])
  {
    BlandScan(source, false, here, mode);
  }

  lemma SubNone(t: string, done: string)
    ensures done + Sub(t, 0, 0) == done
  {
  }

  lemma SubNext(t: string, d: nat, done: string)
    requires 0 < d <= |t|
    ensures done + Sub(t, 0, d) == done + Sub(t, 0, d - 1) + [t[d - 1]]
  {
  }

  // The text that the first n rules make of the source, seen from (i, done).
  ghost function Made(source: string, rules: seq<Rule>, n: nat, i: nat, mode: Mode, done: string): string
    requires Proper(rules) && n <= |rules|
  {
    RunAll(source, rules, n, i, mode, done)
  }

  lemma {:induction false} PatternClear(source: string, rules: seq<Rule>, n: nat, i: nat, d: nat)
    requires Tame(rules) && n < |rules| && StandsAt(source, i, rules[n].from) && d <= |rules[n].from|
    ensures AllClear(source, rules, n, i, d)
  {
    if d > 0 {
      PatternClear(source, rules, n, i, d - 1);
      var found := Found(source, i + (d - 1), rules, n);
      if found.Some? { OneAtATime(source, rules, i, n, d - 1, found.value); }
    }
  }

  // Where the next rule's pattern stands in the source, it stands in the text.
  lemma PatternCopied(source: string, rules: seq<Rule>, n: nat, i: nat, mode: Mode, done: string)
    requires Tame(rules) && Proper(rules) && n < |rules| && IsCode(mode) && StandsAt(source, i, rules[n].from)
    ensures var from := rules[n].from;
      Made(source, rules, n, i, mode, done) == Made(source, rules, n, i + |from|, mode, done + from)
  {
    hide RunAll, Sub, StandsAt, Neutral;
    var from := rules[n].from;
    assert RuleTame(rules[n]);
    AtReads(source, i, from);
    PatternClear(source, rules, n, i, |from|);
    StretchCopied(source, rules, n, i, mode, done, from, |from|);
    SubWhole(from);
  }

  lemma PatternStays(source: string, rules: seq<Rule>, n: nat, i: nat, mode: Mode, done: string)
    requires Tame(rules) && Proper(rules) && n < |rules| && IsCode(mode) && StandsAt(source, i, rules[n].from)
    ensures StandsAt(Made(source, rules, n, i, mode, done), |done|, rules[n].from)
  {
    var from := rules[n].from;
    PatternCopied(source, rules, n, i, mode, done);
    MadeExtends(source, rules, n, i + |from|, mode, done, from);
  }

  lemma MadeExtends(source: string, rules: seq<Rule>, n: nat, i: nat, mode: Mode, done: string, more: string)
    requires Proper(rules) && n <= |rules| && more != ""
    ensures StandsAt(Made(source, rules, n, i, mode, done + more), |done|, more)
  {
    RunAllExtends(source, rules, n, i, mode, done + more);
    PutStands(Made(source, rules, n, i, mode, done + more), done, more);
  }

  lemma SubWhole(t: string)
    ensures Sub(t, 0, |t|) == t
  {
    SubIs(t, 0, |t|);
  }

  // And the other way round, byte by byte: what stands in the text was copied.
  lemma {:induction false} PatternWasThere(source: string, rules: seq<Rule>, n: nat, i: nat, mode: Mode, done: string,
        d: nat)
    requires Tame(rules) && Proper(rules) && n < |rules| && IsCode(mode) && i <= |source| && d <= |rules[n].from|
    requires StandsAt(Made(source, rules, n, i, mode, done), |done|, rules[n].from)
    ensures Reads(source, i, rules[n].from, d) && AllClear(source, rules, n, i, d)
  {
    if d > 0 {
      PatternWasThere(source, rules, n, i, mode, done, d - 1);
      NextWasThere(source, rules, n, i, mode, done, d - 1);
    }
  }

  lemma NextWasThere(source: string, rules: seq<Rule>, n: nat, i: nat, mode: Mode, done: string, e: nat)
    requires Tame(rules) && Proper(rules) && n < |rules| && IsCode(mode) && i <= |source| && e < |rules[n].from|
    requires StandsAt(Made(source, rules, n, i, mode, done), |done|, rules[n].from)
    requires Reads(source, i, rules[n].from, e) && AllClear(source, rules, n, i, e)
    ensures i + e < |source| && source[i + e] == rules[n].from[e] && Found(source, i + e, rules, n).None?
  {
    hide StandsAt, Neutral, RunAll, Scan, Sub;
    NextAfter(source, rules, n, i, mode, done, e);
    ByteWasThere(source, rules, n, i + e, mode, Made(source, rules, n, i, mode, done), |done|, e);
  }

  // What comes behind a stretch that was copied.
  lemma NextAfter(source: string, rules: seq<Rule>, n: nat, i: nat, mode: Mode, done: string, e: nat)
    requires Tame(rules) && Proper(rules) && n < |rules| && IsCode(mode) && e < |rules[n].from|
    requires Reads(source, i, rules[n].from, e) && AllClear(source, rules, n, i, e)
    ensures NextByte(source, rules, n, i + e, mode, Made(source, rules, n, i, mode, done), |done| + e)
  {
    hide StandsAt, Neutral, Sub, Scan, RunAll;
    var from := rules[n].from;
    assert RuleTame(rules[n]);
    StretchCopied(source, rules, n, i, mode, done, from, e);
    SubLength(from, e);
    NextComes(source, rules, n, i + e, mode, done + Sub(from, 0, e));
  }

  lemma SubLength(t: string, d: nat)
    requires d <= |t|
    ensures |Sub(t, 0, d)| == d
  {
    SubIs(t, 0, d);
  }

  lemma ByteWasThere(source: string, rules: seq<Rule>, n: nat, here: nat, mode: Mode, text: string, j: nat, e: nat)
    requires Tame(rules) && n < |rules| && IsCode(mode) && e < |rules[n].from|
    requires StandsAt(text, j, rules[n].from) && NextByte(source, rules, n, here, mode, text, j + e)
    ensures here < |source| && source[here] == rules[n].from[e]
    ensures Found(source, here, rules, n).None?
  {
    var from := rules[n].from;
    assert RuleTame(rules[n]);
    AtReads(text, j, from);
    if ScanAll(source, rules, n, here, mode).Hit? {
      PutNotRead(text, rules, n, j, e, Found(source, here, rules, n).value);
    } else {
      BlandScan(source, Found(source, here, rules, n).Some?, here, mode);
    }
  }

  // A pattern does not go over into a text that is put.
  lemma PutNotRead(text: string, rules: seq<Rule>, n: nat, j: nat, e: nat, k: nat)
    requires Tame(rules) && k < n < |rules| && e < |rules[n].from| && StandsAt(text, j, rules[n].from)
    ensures !StandsAt(text, j + e, rules[k].to)
  {
    var from, to := rules[n].from, rules[k].to;
    assert PairTame(k, n, rules);
    AtReads(text, j, from);
    AtReads(text, j + e, to);
    assert text[j + e] == from[e];
    if e + 1 < |from| { assert text[j + e + 1] == from[e + 1]; }
  }

  // Nor does one begin in it.
  lemma PutNotEntered(text: string, rules: seq<Rule>, n: nat, j: nat, o: nat, k: nat)
    requires Tame(rules) && k < n < |rules| && o < |rules[k].to| && StandsAt(text, j, rules[k].to)
    ensures !StandsAt(text, j + o, rules[n].from)
  {
    var from, to := rules[n].from, rules[k].to;
    assert PairTame(k, n, rules);
    AtReads(text, j, to);
    AtReads(text, j + o, from);
    assert text[j + o] == to[o];
    if o + 1 < |to| { assert text[j + o + 1] == to[o + 1]; }
  }

  // ---- The two scans, step for step ----------------------------------------

  // A pass for one rule over a text, from (j, mode, out) on.
  ghost function PassFrom(text: string, rule: Rule, j: nat, mode: Mode, out: string): string
    requires rule.from != ""
  {
    Run(text, rule.from, text, rule.to, j, mode, out)
  }

  lemma {:induction false} SkimRun(text: string, rule: Rule, i: nat, a: Mode, j: nat, b: Mode, out: string)
    requires rule.from != "" && Skims(text, i, a, j, b) && i <= j <= |text|
    requires forall x {:trigger StandsAt(text, x, rule.from)} :: i <= x < j ==> !StandsAt(text, x, rule.from)
    ensures PassFrom(text, rule, i, a, out) == PassFrom(text, rule, j, b, out + Sub(text, i, j))
    decreases j - i
  {
    if i == j {
      assert out + Sub(text, i, i) == out;
    } else {
      assert !StandsAt(text, i, rule.from);
      match Scan(text, false, i, a)
      case One(m) =>
        SkimRun(text, rule, i + 1, m, j, b, out + [text[i]]);
        CopyFirst(text, i, j, out);
      case Two(m) =>
        SkimRun(text, rule, i + 2, m, j, b, out + [text[i]] + [text[i + 1]]);
        CopyFirst(text, i, j, out);
        CopyFirst(text, i + 1, j, out + [text[i]]);
    }
  }

  // The next pass goes over a text that is put, and copies it.
  lemma PutSkipped(text: string, rules: seq<Rule>, n: nat, j: nat, k: nat, mode: Mode, out: string)
    requires Tame(rules) && Proper(rules) && k < n < |rules| && StandsAt(text, j, rules[k].to) && IsCode(mode)
    ensures PassFrom(text, rules[n], j, mode, out)
      == PassFrom(text, rules[n], j + |rules[k].to|, mode, out + rules[k].to)
  {
    var to := rules[k].to;
    assert RuleTame(rules[k]);
    assert SkimsTo(text, j, mode, to);
    forall x {:trigger StandsAt(text, x, rules[n].from)} | j <= x < j + |to|
      ensures !StandsAt(text, x, rules[n].from)
    {
      PutNotEntered(text, rules, n, j, x - j, k);
    }
    SkimRun(text, rules[n], j, mode, j + |to|, mode, out);
    SubIs(text, j, j + |to|);
  }

  // What is to be shown: the pass for rule n over the text of the first n rules
  // goes on as the scan for n + 1 rules does over the source.
  ghost predicate Agree(source: string, rules: seq<Rule>, n: nat, i: nat, mode: Mode, done: string, out: string)
    requires Proper(rules) && n < |rules|
  {
    PassFrom(Made(source, rules, n, i, mode, done), rules[n], |done|, mode, out)
      == RunAll(source, rules, n + 1, i, mode, out)
  }

  // One of the first n rules puts its text.
  lemma AgreePut(source: string, rules: seq<Rule>, n: nat, i: nat, mode: Mode, done: string, out: string)
    requires Tame(rules) && Proper(rules) && n < |rules| && i < |source| && DeepMode(mode)
    requires ScanAll(source, rules, n, i, mode).Hit?
    requires var rule := rules[Found(source, i, rules, n).value];
      Agree(source, rules, n, i + |rule.from|, mode, done + rule.to, out + rule.to)
    ensures Agree(source, rules, n, i, mode, done, out)
  {
    hide Scan, Run, Neutral, StandsAt, Bland;
    var k := Found(source, i, rules, n).value;
    assert RuleTame(rules[k]);
    HitInCode(source, i, mode, rules[k].from);
    assert Found(source, i, rules, n + 1) == Some(k);
    MadeExtends(source, rules, n, i + |rules[k].from|, mode, done, rules[k].to);
    PutSkipped(Made(source, rules, n, i, mode, done), rules, n, |done|, k, mode, out);
  }

  // Rule n matches.
  lemma AgreeMatch(source: string, rules: seq<Rule>, n: nat, i: nat, mode: Mode, done: string, out: string)
    requires Tame(rules) && Proper(rules) && n < |rules| && i < |source| && DeepMode(mode)
    requires !ScanAll(source, rules, n, i, mode).Hit? && ScanAll(source, rules, n + 1, i, mode).Hit?
    requires Agree(source, rules, n, i + |rules[n].from|, mode, done + rules[n].from, out + rules[n].to)
    ensures Agree(source, rules, n, i, mode, done, out)
  {
    hide StandsAt, Neutral, Differ;
    var from, text := rules[n].from, Made(source, rules, n, i, mode, done);
    assert RuleTame(rules[n]);
    assert Found(source, i, rules, n + 1) == Some(n);
    HitInCode(source, i, mode, from);
    PatternCopied(source, rules, n, i, mode, done);
    PatternStays(source, rules, n, i, mode, done);
    AtReads(text, |done|, from);
    BlandScan(text, true, |done|, mode);
  }

  // Without a match it does not matter whether one was looked for.
  lemma NotFree(text: string, i: nat, mode: Mode)
    requires i < |text| && !Scan(text, true, i, mode).Hit?
    ensures Scan(text, false, i, mode) == Scan(text, true, i, mode)
  {
  }

  // No rule matches: the pass does at the text what the scan does at the source.
  lemma SameMove(source: string, rules: seq<Rule>, n: nat, i: nat, mode: Mode, done: string)
    requires Tame(rules) && Proper(rules) && n < |rules| && i < |source| && DeepMode(mode)
    requires !ScanAll(source, rules, n, i, mode).Hit? && !ScanAll(source, rules, n + 1, i, mode).Hit?
    ensures var text := Made(source, rules, n, i, mode, done);
      && |done| < |text|
      && Next(text, rules[n].from, |done|, mode) == ScanAll(source, rules, n + 1, i, mode)
         == ScanAll(source, rules, n, i, mode)
  {
    var text, from := Made(source, rules, n, i, mode, done), rules[n].from;
    AheadSame(source, rules, n, i, mode, done);
    LooksSame(source, text, true, i, |done|, mode);
    LooksSame(source, text, false, i, |done|, mode);
    if Scan(source, true, i, mode).Hit? {
      NoNewMatch(source, rules, n, i, mode, done);
    } else {
      NotFree(source, i, mode);
    }
  }

  lemma NoNewMatch(source: string, rules: seq<Rule>, n: nat, i: nat, mode: Mode, done: string)
    requires Tame(rules) && Proper(rules) && n < |rules| && i < |source| && DeepMode(mode)
    requires Scan(source, true, i, mode).Hit? && !ScanAll(source, rules, n + 1, i, mode).Hit?
    requires |done| < |Made(source, rules, n, i, mode, done)|
    requires Scan(Made(source, rules, n, i, mode, done), true, |done|, mode).Hit?
    ensures !StandsAt(Made(source, rules, n, i, mode, done), |done|, rules[n].from)
    ensures Found(source, i, rules, n + 1).None? && Found(source, i, rules, n).None?
  {
    var text, from := Made(source, rules, n, i, mode, done), rules[n].from;
    if StandsAt(text, |done|, from) {
      assert RuleTame(rules[n]);
      HitInCode(text, |done|, mode, from);
      PatternWasThere(source, rules, n, i, mode, done, |from|);
      AtReads(source, i, from);
    }
  }

  // The byte at `done` is that of the source, and the next looks like its.
  lemma AheadSame(source: string, rules: seq<Rule>, n: nat, i: nat, mode: Mode, done: string)
    requires Tame(rules) && Proper(rules) && n < |rules| && i < |source| && !ScanAll(source, rules, n, i, mode).Hit?
    ensures var text, j := Made(source, rules, n, i, mode, done), |done|;
      && j < |text| && text[j] == source[i]
      && (i + 1 < |source| <==> j + 1 < |text|)
      && (i + 1 < |source| ==> text[j + 1] == source[i + 1] || (IsAhead(text[j + 1]) && IsAhead(source[i + 1])))
  {
    NextComes(source, rules, n, i, mode, done);
    match ScanAll(source, rules, n, i, mode)
    case One(m) =>
      NextComes(source, rules, n, i + 1, m, done + [source[i]]);
      NextLooksSame(source, rules, n, i + 1, m, Made(source, rules, n, i, mode, done), |done| + 1);
    case Two(m) => TwoStand(source, rules, n, i, mode, done);
  }

  lemma TwoStand(source: string, rules: seq<Rule>, n: nat, i: nat, mode: Mode, done: string)
    requires Proper(rules) && n < |rules| && i < |source| && ScanAll(source, rules, n, i, mode).Two?
    ensures var text := Made(source, rules, n, i, mode, done); |done| + 1 < |text| && text[|done| + 1] == source[i + 1]
  {
    var m := ScanAll(source, rules, n, i, mode).mode;
    RunAllExtends(source, rules, n, i + 2, m, done + [source[i]] + [source[i + 1]]);
    StillExtends(done + [source[i]], [source[i + 1]], Made(source, rules, n, i, mode, done));
  }

  lemma AgreeOne(source: string, rules: seq<Rule>, n: nat, i: nat, mode: Mode, done: string, out: string, m: Mode)
    requires Tame(rules) && Proper(rules) && n < |rules| && i < |source| && DeepMode(mode)
    requires ScanAll(source, rules, n, i, mode) == One(m) == ScanAll(source, rules, n + 1, i, mode)
    requires Agree(source, rules, n, i + 1, m, done + [source[i]], out + [source[i]])
    ensures Agree(source, rules, n, i, mode, done, out)
  {
    SameMove(source, rules, n, i, mode, done);
    AheadSame(source, rules, n, i, mode, done);
  }

  lemma AgreeTwo(source: string, rules: seq<Rule>, n: nat, i: nat, mode: Mode, done: string, out: string, m: Mode)
    requires Tame(rules) && Proper(rules) && n < |rules| && i < |source| && DeepMode(mode)
    requires ScanAll(source, rules, n, i, mode) == Two(m) == ScanAll(source, rules, n + 1, i, mode)
    requires Agree(source, rules, n, i + 2, m, done + [source[i]] + [source[i + 1]],
      out + [source[i]] + [source[i + 1]])
    ensures Agree(source, rules, n, i, mode, done, out)
  {
    SameMove(source, rules, n, i, mode, done);
    AheadSame(source, rules, n, i, mode, done);
    TwoStand(source, rules, n, i, mode, done);
  }

  lemma AgreeEnd(source: string, rules: seq<Rule>, n: nat, mode: Mode, done: string, out: string)
    requires Proper(rules) && n < |rules|
    ensures Agree(source, rules, n, |source|, mode, done, out)
  {
  }

  lemma {:induction false} AgreeAll(source: string, rules: seq<Rule>, n: nat, i: nat, mode: Mode, done: string,
        out: string)
    requires Tame(rules) && Proper(rules) && n < |rules| && i <= |source| && DeepMode(mode)
    ensures Agree(source, rules, n, i, mode, done, out)
    decreases |source| - i
  {
    hide Agree, Found;
    if i == |source| {
      AgreeEnd(source, rules, n, mode, done, out);
    } else {
      var one, two := ScanAll(source, rules, n, i, mode), ScanAll(source, rules, n + 1, i, mode);
      if one.Hit? {
        var rule := rules[Found(source, i, rules, n).value];
        AgreeAll(source, rules, n, i + |rule.from|, mode, done + rule.to, out + rule.to);
        AgreePut(source, rules, n, i, mode, done, out);
      } else if two.Hit? {
        AgreeAll(source, rules, n, i + |rules[n].from|, mode, done + rules[n].from, out + rules[n].to);
        AgreeMatch(source, rules, n, i, mode, done, out);
      } else {
        SameMove(source, rules, n, i, mode, done);
        ScanDeep(source, Found(source, i, rules, n).Some?, i, mode);
        if one.One? {
          AgreeAll(source, rules, n, i + 1, one.mode, done + [source[i]], out + [source[i]]);
          AgreeOne(source, rules, n, i, mode, done, out, one.mode);
        } else {
          AgreeAll(source, rules, n, i + 2, one.mode, done + [source[i]] + [source[i + 1]],
            out + [source[i]] + [source[i + 1]]);
          AgreeTwo(source, rules, n, i, mode, done, out, one.mode);
        }
      }
    }
  }

  lemma {:induction false} NothingToDo(source: string, rules: seq<Rule>, i: nat, mode: Mode, out: string)
    requires Proper(rules) && i <= |source|
    ensures RunAll(source, rules, 0, i, mode, out) == out + Sub(source, i, |source|)
    decreases |source| - i
  {
    if i < |source| {
      match ScanAll(source, rules, 0, i, mode)
      case One(m) =>
        NothingToDo(source, rules, i + 1, m, out + [source[i]]);
        CopyFirst(source, i, |source|, out);
      case Two(m) =>
        NothingToDo(source, rules, i + 2, m, out + [source[i]] + [source[i + 1]]);
        CopyFirst(source, i, |source|, out);
        CopyFirst(source, i + 1, |source|, out + [source[i]]);
    } else {
      assert out + Sub(source, i, |source|) == out;
    }
  }

  // The passes one after the other do what one scan for all patterns does.
  lemma {:induction false} PassesAreOneScan(source: string, rules: seq<Rule>, n: nat)
    requires Tame(rules) && Proper(rules) && n <= |rules|
    ensures Passes(source, rules[..n]) == Together(source, rules, n)
  {
    if n == 0 {
      NothingToDo(source, rules, 0, Code, "");
      SubWhole(source);
    } else {
      PassesAreOneScan(source, rules, n - 1);
      assert rules[..n][..n - 1] == rules[..n - 1];
      AgreeAll(source, rules, n - 1, 0, Code, "", "");
    }
  }

  // ---- The texts to put leave the scanner where it is ----------------------

  lemma {:induction false} SkimsBoth(text: string, i: nat, a: Mode, j: nat, b: Mode, k: nat, c: Mode)
    requires i <= j <= k && Skims(text, i, a, j, b) && Skims(text, j, b, k, c)
    ensures Skims(text, i, a, k, c)
    decreases j - i
  {
    if i < j {
      match Scan(text, false, i, a)
      case One(m) => SkimsBoth(text, i + 1, m, j, b, k, c);
      case Two(m) => SkimsBoth(text, i + 2, m, j, b, k, c);
    }
  }

  lemma AtBoth(text: string, i: nat, a: string, b: string)
    requires StandsAt(text, i, a + b)
    ensures StandsAt(text, i, a) && StandsAt(text, i + |a|, b)
  {
    AtReads(text, i, a + b);
    AtReads(text, i, a);
    AtReads(text, i + |a|, b);
    forall e | 0 <= e < |b|
      ensures text[i + |a| + e] == b[e]
    {
      assert (a + b)[|a| + e] == b[e];
    }
  }

  lemma NeutralBoth(a: string, b: string)
    requires Neutral(a) && Neutral(b)
    ensures Neutral(a + b)
  {
    forall text: string, i: nat, mode: Mode {:trigger SkimsTo(text, i, mode, a + b)} |
      IsCode(mode) && StandsAt(text, i, a + b)
      ensures SkimsTo(text, i, mode, a + b)
    {
      AtBoth(text, i, a, b);
      assert SkimsTo(text, i, mode, a) && SkimsTo(text, i + |a|, mode, b);
      SkimsBoth(text, i, mode, i + |a|, mode, i + |a| + |b|, mode);
    }
  }

  // The same byte for byte in code, or in a string of other quotes.
  predicate Stays(mode: Mode) { IsCode(mode) || (mode.Str? && IsQuote(mode.quote)) }

  lemma {:induction false} BlandSkims(text: string, i: nat, mode: Mode, t: string, d: nat)
    requires Bland(t) && d <= |t| && Reads(text, i, t, |t|) && Stays(mode)
    ensures Skims(text, i + d, mode, i + |t|, mode)
    decreases |t| - d
  {
    if d < |t| {
      assert text[i + d] == t[d] && IsBland(t[d]);
      BlandSkims(text, i, mode, t, d + 1);
    }
  }

  lemma BlandNeutral(t: string)
    requires Bland(t)
    ensures Neutral(t)
  {
    forall text: string, i: nat, mode: Mode {:trigger SkimsTo(text, i, mode, t)} | IsCode(mode) && StandsAt(text, i, t)
      ensures SkimsTo(text, i, mode, t)
    {
      AtReads(text, i, t);
      BlandSkims(text, i, mode, t, 0);
    }
  }

  lemma QuotedNeutral(t: string)
    requires Bland(t)
    ensures Neutral("'" + t + "'")
  {
    forall text: string, i: nat, mode: Mode {:trigger SkimsTo(text, i, mode, "'" + t + "'")} |
      IsCode(mode) && StandsAt(text, i, "'" + t + "'")
      ensures SkimsTo(text, i, mode, "'" + t + "'")
    {
      QuotedSkims(text, i, mode, t);
    }
  }

  lemma QuotedSkims(text: string, i: nat, mode: Mode, t: string)
    requires Bland(t) && IsCode(mode) && StandsAt(text, i, "'" + t + "'")
    ensures Skims(text, i, mode, i + |t| + 2, mode)
  {
    AtBoth(text, i, "'" + t, "'");
    AtBoth(text, i, "'", t);
    AtReads(text, i, "'");
    AtReads(text, i + 1 + |t|, "'");
    AtReads(text, i + 1, t);
    var inside := Str('\'', mode);
    BlandSkims(text, i + 1, inside, t, 0);
    assert text[i] == '\'' && text[i + 1 + |t|] == '\'';
    StepSkims(text, i + 1 + |t|, inside, mode);
    StepSkims(text, i, mode, inside);
    SkimsBoth(text, i + 1, inside, i + 1 + |t|, inside, i + 2 + |t|, mode);
    SkimsBoth(text, i, mode, i + 1, inside, i + 2 + |t|, mode);
  }

  lemma StepSkims(text: string, i: nat, a: Mode, b: Mode)
    requires i < |text| && Scan(text, false, i, a) == One(b)
    ensures Skims(text, i, a, i + 1, b)
  {
  }

  lemma BracesNeutral()
    ensures Neutral("{}")
  {
    forall text: string, i: nat, mode: Mode {:trigger SkimsTo(text, i, mode, "{}")} |
      IsCode(mode) && StandsAt(text, i, "{}")
      ensures SkimsTo(text, i, mode, "{}")
    {
      AtReads(text, i, "{}");
      assert text[i] == "{}"[0] == '{' && text[i + 1] == "{}"[1] == '}';
      var inside := if mode.Code? then Code else Interpolation(mode.depth + 1);
      StepSkims(text, i, mode, inside);
      StepSkims(text, i + 1, inside, mode);
      SkimsBoth(text, i, mode, i + 1, inside, i + 2, mode);
    }
  }

  lemma BlandBoth(a: string, b: string)
    requires Bland(a) && Bland(b)
    ensures Bland(a + b)
  {
  }

  const QUOTED := "'" + UNDEFINED + "'"
  const TEST := "(typeof " + META_ENV + " !== "
  const ELSE := " ? " + META_ENV + " : (typeof process !== "
  const LAST := " ? process.env : "

  lemma EnvPieces()
    ensures ENV == TEST + (QUOTED + (ELSE + (QUOTED + (LAST + ("{}" + "))")))))
  {
    var a, b, c, d := "(typeof ", " !== ", " ? ", " : (typeof process !== ";
    assert " !== '" == b + "'" && "' ? " == "'" + c && " : (typeof process !== '" == d + "'";
    assert "' ? process.env : {}))" == "'" + (LAST + ("{}" + "))"));
    JoinPieces(a, META_ENV, b, "'", UNDEFINED, c, d, LAST + ("{}" + "))"));
  }

  lemma JoinPieces(a: string, m: string, b: string, q: string, u: string, c: string, d: string, e: string)
    ensures a + m + (b + q) + u + (q + c) + m + (d + q) + u + (q + e)
      == (a + m + b) + ((q + u + q) + ((c + m + d) + ((q + u + q) + e)))
  {
  }

  lemma EnvNeutral()
    ensures Neutral(ENV)
  {
    EnvPieces();
    PiecesBland();
    BlandNeutral(TEST);
    BlandNeutral(ELSE);
    BlandNeutral(LAST);
    BlandNeutral("))");
    QuotedNeutral(UNDEFINED);
    BracesNeutral();
    NeutralBoth("{}", "))");
    NeutralBoth(LAST, "{}" + "))");
    NeutralBoth(QUOTED, LAST + ("{}" + "))"));
    NeutralBoth(ELSE, QUOTED + (LAST + ("{}" + "))")));
    NeutralBoth(QUOTED, ELSE + (QUOTED + (LAST + ("{}" + "))"))));
    NeutralBoth(TEST, QUOTED + (ELSE + (QUOTED + (LAST + ("{}" + "))")))));
  }

  lemma PiecesBland()
    ensures Bland(TEST) && Bland(ELSE) && Bland(LAST) && Bland("))") && Bland(UNDEFINED)
  {
    BlandBoth("(typeof ", META_ENV);
    BlandBoth("(typeof " + META_ENV, " !== ");
    BlandBoth(" ? ", META_ENV);
    BlandBoth(" ? " + META_ENV, " : (typeof process !== ");
  }

  // ---- The six patterns ----------------------------------------------------

  // An 'i' begins the pattern, and another one comes before no 'm'.
  ghost predicate BeginsOnce(t: string) {
    && |t| > 12 && t[0] == 'i' && t[1] == 'm' && Bland(t)
    && forall d :: 0 < d < |t| && t[d] == 'i' ==> d + 1 < |t| && t[d + 1] != 'm'
  }

  lemma ResolveBegins()
    ensures BeginsOnce("import.meta.resolve(") && "import.meta.resolve("[12] == 'r'
  {
  }

  lemma GlobBegins()
    ensures BeginsOnce("import.meta.glob(") && "import.meta.glob("[12] == 'g'
  {
  }

  lemma HotBegins()
    ensures BeginsOnce("import.meta.hot") && "import.meta.hot"[12] == 'h'
  {
  }

  lemma VitestBegins()
    ensures BeginsOnce("import.meta.vitest") && "import.meta.vitest"[12] == 'v'
  {
  }

  lemma EnvBegins()
    ensures BeginsOnce("import.meta.env") && "import.meta.env"[12] == 'e'
  {
  }

  lemma UrlBegins()
    ensures BeginsOnce("import.meta.url") && "import.meta.url"[12] == 'u'
  {
  }

  lemma PatternsBegin(k: nat)
    requires k < |META_PATTERNS|
    ensures BeginsOnce(META_PATTERNS[k].from)
    ensures META_PATTERNS[k].from[12] == ['r', 'g', 'h', 'v', 'e', 'u'][k]
  {
    if k == 0 { ResolveBegins(); } else if k == 1 { GlobBegins(); } else if k == 2 { HotBegins(); }
    else if k == 3 { VitestBegins(); } else if k == 4 { EnvBegins(); } else { UrlBegins(); }
  }

  ghost predicate GoodTo(to: string) { |to| >= 2 && IsAhead(to[0]) && Neutral(to) }

  lemma ResolveTo()
    ensures GoodTo("__vvva_meta_resolve__(")
  {
    BlandNeutral("__vvva_meta_resolve__(");
  }

  lemma GlobTo()
    ensures GoodTo("__vvva_meta_glob__(")
  {
    BlandNeutral("__vvva_meta_glob__(");
  }

  lemma UndefinedTo()
    ensures GoodTo(UNDEFINED)
  {
    BlandNeutral(UNDEFINED);
  }

  lemma EnvTo()
    ensures GoodTo(ENV)
  {
    EnvShape();
    EnvNeutral();
  }

  lemma UrlTo()
    ensures GoodTo("__vvva_meta_url__")
  {
    BlandNeutral("__vvva_meta_url__");
  }

  lemma PatternsPut(k: nat)
    requires k < |META_PATTERNS|
    ensures GoodTo(META_PATTERNS[k].to)
  {
    if k == 0 { ResolveTo(); } else if k == 1 { GlobTo(); } else if k == 2 || k == 3 { UndefinedTo(); }
    else if k == 4 { EnvTo(); } else { UrlTo(); }
  }

  lemma PairIsTame(rules: seq<Rule>, j: nat, k: nat)
    requires j < |rules| && k < |rules| && BeginsOnce(rules[j].from) && BeginsOnce(rules[k].from)
    requires (j != k ==> rules[j].from[12] != rules[k].from[12]) && (j < k ==> Apart(rules[k].from, rules[j].to))
    ensures PairTame(j, k, rules)
  {
  }

  lemma PatternsTame()
    ensures Tame(META_PATTERNS) && Proper(META_PATTERNS)
  {
    forall k | 0 <= k < |META_PATTERNS|
      ensures RuleTame(META_PATTERNS[k])
    {
      PatternsBegin(k);
      PatternsPut(k);
    }
    forall j, k | 0 <= j < |META_PATTERNS| && 0 <= k < |META_PATTERNS|
      ensures PairTame(j, k, META_PATTERNS)
    {
      PatternsBegin(j);
      PatternsBegin(k);
      if j < k { PatternsApart(j, k); }
      PairIsTame(META_PATTERNS, j, k);
    }
    TameProper(META_PATTERNS);
  }

  // The six passes are one scan of the source.
  lemma ReplacesInOneScan(source: string)
    ensures Proper(META_PATTERNS) && Passes(source, META_PATTERNS) == Together(source, META_PATTERNS, 6)
  {
    PatternsTame();
    PassesAreOneScan(source, META_PATTERNS, 6);
    assert META_PATTERNS[..6] == META_PATTERNS;
  }

  // ---- What no pass replaces -----------------------------------------------

  // Strings, comments and template texts, but for a block comment's last byte
  // where the text ends in it.
  predicate IsText(mode: Mode) { mode.Line? || mode.Block? || mode.Str? || mode.Template? }

  // One scan never replaces there, and one is what the passes come to.
  lemma TextNotReplaced(source: string, rules: seq<Rule>, n: nat, i: nat, mode: Mode)
    requires Tame(rules) && n <= |rules| && i < |source| && DeepMode(mode) && ScanAll(source, rules, n, i, mode).Hit?
    ensures !IsText(mode)
  {
    var k := Found(source, i, rules, n).value;
    assert RuleTame(rules[k]);
    HitInCode(source, i, mode, rules[k].from);
  }

  // A whole string, escapes and all, is copied by the passes together.
  lemma {:induction false} StringKept(source: string, rules: seq<Rule>, n: nat, j: nat, close: nat, quote: char,
        outer: Mode, out: string)
    requires Proper(rules) && n <= |rules| && Closes(source, j, quote, close)
    ensures RunAll(source, rules, n, j, Str(quote, outer), out)
      == RunAll(source, rules, n, close + 1, outer, out + Sub(source, j, close + 1))
    decreases close - j
  {
    hide Found, Sub;
    if j == close {
      CopyOne(source, j, out);
    } else if source[j] == '\\' {
      StringKept(source, rules, n, j + 2, close, quote, outer, out + [source[j]] + [source[j + 1]]);
      CopyTwo(source, j, close + 1, out);
    } else {
      StringKept(source, rules, n, j + 1, close, quote, outer, out + [source[j]]);
      CopyFirst(source, j, close + 1, out);
    }
  }

  // Code in which no pattern begins is copied.
  lemma {:induction false} QuietKept(source: string, rules: seq<Rule>, n: nat, i: nat, end: nat, out: string)
    requires Proper(rules) && n <= |rules| && i <= end <= |source|
    requires forall k :: 0 <= k < n ==> rules[k].from[0] == 'i'
    requires forall x :: i <= x < end ==> IsBland(source[x]) && source[x] != 'i'
    ensures RunAll(source, rules, n, i, Code, out) == RunAll(source, rules, n, end, Code, out + Sub(source, i, end))
    decreases end - i
  {
    if i == end {
      assert out + Sub(source, i, i) == out;
    } else {
      var found := Found(source, i, rules, n);
      if found.Some? { AtReads(source, i, rules[found.value].from); }
      BlandScan(source, false, i, Code);
      QuietKept(source, rules, n, i + 1, end, out + [source[i]]);
      CopyFirst(source, i, end, out);
    }
  }

  // A string in quiet code: whatever stands in it, the passes change nothing.
  lemma QuotedKept(source: string, open: nat, close: nat)
    requires open < close < |source| && IsQuote(source[open]) && Closes(source, open + 1, source[open], close)
    requires forall x :: 0 <= x < |source| && (x < open || x > close) ==> IsBland(source[x]) && source[x] != 'i'
    ensures (forall k :: 0 <= k < |META_PATTERNS| ==> META_PATTERNS[k].from != "")
    ensures Passes(source, META_PATTERNS) == source
  {
    var rules := META_PATTERNS;
    ReplacesInOneScan(source);
    forall k | 0 <= k < 6
      ensures rules[k].from[0] == 'i'
    {
      PatternsBegin(k);
    }
    QuotedRuns(source, rules, open, close);
    SubWhole(source);
  }

  lemma RunAllEnd(source: string, rules: seq<Rule>, n: nat, mode: Mode, out: string)
    requires Proper(rules) && n <= |rules|
    ensures RunAll(source, rules, n, |source|, mode, out) == out
  {
  }

  lemma QuoteOpens(source: string, rules: seq<Rule>, n: nat, i: nat, out: string)
    requires Proper(rules) && n <= |rules| && i < |source| && IsQuote(source[i])
    ensures RunAll(source, rules, n, i, Code, out)
      == RunAll(source, rules, n, i + 1, Str(source[i], Code), out + [source[i]])
  {
  }

  lemma QuotedRuns(source: string, rules: seq<Rule>, open: nat, close: nat)
    requires Proper(rules) && |rules| == 6 && (forall k :: 0 <= k < 6 ==> rules[k].from[0] == 'i')
    requires open < close < |source| && IsQuote(source[open]) && Closes(source, open + 1, source[open], close)
    requires forall x :: 0 <= x < |source| && (x < open || x > close) ==> IsBland(source[x]) && source[x] != 'i'
    ensures Together(source, rules, 6) == Sub(source, 0, |source|)
  {
    hide RunAll, Sub, Closes, Found;
    var a, b, c := Sub(source, 0, open), Sub(source, open + 1, close + 1), Sub(source, close + 1, |source|);
    QuietKept(source, rules, 6, 0, open, "");
    assert "" + a == a;
    QuoteOpens(source, rules, 6, open, a);
    StringKept(source, rules, 6, open + 1, close, source[open], Code, a + [source[open]]);
    QuietKept(source, rules, 6, close + 1, |source|, a + [source[open]] + b);
    RunAllEnd(source, rules, 6, Code, a + [source[open]] + b + c);
    CopyFirst(source, open, close + 1, a);
    Join(source, 0, open, close + 1);
    Join(source, 0, close + 1, |source|);
  }
}
