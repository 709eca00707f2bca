// What the six passes make of a text, by its tokens
// (fuzz/fuzz_targets/fuzz_js_import_meta.rs, after crates/js/src/transpiler.rs).
module ImportMetaTokens {
  import opened Prelude
  import opened ImportMeta
  import opened ImportMetaOnce

  // What is looked for, and what is put there.
  const FROM: seq<string> := [
    "import.meta.resolve(", "import.meta.glob(", "import.meta.hot", "import.meta.vitest", "import.meta.env",
    "import.meta.url"
  ]

  const TO: seq<string> := [
    "__vvva_meta_resolve__(", "__vvva_meta_glob__(", "undefined", "undefined",
    "(typeof " + "__vvva_meta_env__" + " !== '" + "undefined" + "' ? " + "__vvva_meta_env__"
      + " : (typeof process !== '" + "undefined" + "' ? process.env : {}))",
    "__vvva_meta_url__"
  ]

  // ---- Tokens --------------------------------------------------------------

  datatype Unit = Char(c: char) | Escaped(c: char)

  // Code between the braces of a template: its own braces nest, and it has
  // strings, but neither comments nor templates of its own.
  datatype Inner = Plain(c: char) | Meta(k: nat) | Text(mark: char, units: seq<Unit>) | Braces(inside: seq<Inner>)

  datatype Part = Raw(unit: Unit) | Inserted(inside: seq<Inner>)

  datatype Token =
    | Byte(c: char)
    | Pattern(k: nat)
    | LineComment(body: string)
    | BlockComment(body: string)
    | Quoted(mark: char, units: seq<Unit>)
    | Backticked(parts: seq<Part>)

  function SpellUnit(u: Unit): string { match u case Char(c) => [c] case Escaped(c) => ['\\', c] }

  function SpellUnits(us: seq<Unit>): string { if us == [] then "" else SpellUnit(us[0]) + SpellUnits(us[1..]) }

  // The text with these in place of the patterns.
  function WriteInner(p: Inner, names: seq<string>): string {
    match p
    case Plain(c) => [c]
    case Meta(k) => if k < |names| then names[k] else ""
    case Text(mark, units) => [mark] + SpellUnits(units) + [mark]
    case Braces(inside) => "{" + WriteInners(inside, names) + "}"
  }

  function WriteInners(ps: seq<Inner>, names: seq<string>): string {
    if ps == [] then "" else WriteInner(ps[0], names) + WriteInners(ps[1..], names)
  }

  function WritePart(p: Part, names: seq<string>): string {
    match p
    case Raw(u) => SpellUnit(u)
    case Inserted(inside) => "${" + WriteInners(inside, names) + "}"
  }

  function WriteParts(ps: seq<Part>, names: seq<string>): string {
    if ps == [] then "" else WritePart(ps[0], names) + WriteParts(ps[1..], names)
  }

  function WriteToken(t: Token, names: seq<string>): string {
    match t
    case Byte(c) => [c]
    case Pattern(k) => if k < |names| then names[k] else ""
    case LineComment(body) => "//" + body
    case BlockComment(body) => "/*" + body + "*/"
    case Quoted(mark, units) => [mark] + SpellUnits(units) + [mark]
    case Backticked(parts) => "`" + WriteParts(parts, names) + "`"
  }

  function Write(ts: seq<Token>, names: seq<string>): string {
    if ts == [] then "" else WriteToken(ts[0], names) + Write(ts[1..], names)
  }

  // ---- What makes a text of tokens -----------------------------------------

  predicate NoneStarts(text: string) { forall k :: 0 <= k < 6 ==> !(FROM[k] <= text) }

  predicate ProperUnits(mark: char, us: seq<Unit>) {
    forall k :: 0 <= k < |us| && us[k].Char? ==> us[k].c != mark && us[k].c != '\\'
  }

  // Each with the text behind it.
  predicate ProperInner(p: Inner, rest: string) {
    match p
    case Plain(c) => c !in {'{', '}', '"', '\''} && NoneStarts([c] + rest)
    case Meta(k) => k < 6
    case Text(mark, units) => mark in {'"', '\''} && ProperUnits(mark, units)
    case Braces(inside) => ProperInners(inside, "}" + rest)
  }

  predicate ProperInners(ps: seq<Inner>, rest: string) {
    ps == [] || (ProperInner(ps[0], WriteInners(ps[1..], FROM) + rest) && ProperInners(ps[1..], rest))
  }

  predicate ProperPart(p: Part, rest: string) {
    match p
    case Raw(u) => u.Char? ==> u.c != '`' && u.c != '\\' && (u.c == '$' ==> !("{" <= rest))
    case Inserted(inside) => ProperInners(inside, "}" + rest)
  }

  predicate ProperParts(ps: seq<Part>, rest: string) {
    ps == [] || (ProperPart(ps[0], WriteParts(ps[1..], FROM) + rest) && ProperParts(ps[1..], rest))
  }

  predicate ProperToken(t: Token, rest: string) {
    match t
    case Byte(c) =>
      && c !in {'"', '\'', '`'} && NoneStarts([c] + rest)
      && (c == '/' ==> !("/" <= rest) && !("*" <= rest))
    case Pattern(k) => k < 6
    case LineComment(body) => '\n' !in body && (rest == "" || rest[0] == '\n')
    case BlockComment(body) => forall k :: 0 <= k < |body| ==> !("*/" <= (body + "*/")[k..])
    case Quoted(mark, units) => mark in {'"', '\''} && ProperUnits(mark, units)
    case Backticked(parts) => ProperParts(parts, "`" + rest)
  }

  predicate ProperAll(ts: seq<Token>, rest: string) {
    ts == [] || (ProperToken(ts[0], Write(ts[1..], FROM) + rest) && ProperAll(ts[1..], rest))
  }

  // ---- The scan, token by token --------------------------------------------

  lemma Patterns(k: nat)
    requires k < 6
    ensures META_PATTERNS[k] == Rule(FROM[k], TO[k]) && FROM[k] != ""
  {
    if k == 4 { assert META_PATTERNS[4] == Rule("import.meta.env", ENV) && TO[4] == ENV; }
  }

  // The rest of the one scan.
  ghost function Go(source: string, i: nat, mode: Mode, out: string): string {
    PatternsTame();
    TameProper(META_PATTERNS);
    RunAll(source, META_PATTERNS, 6, i, mode, out)
  }

  // From i on the text reads t and then rest.
  ghost predicate At(source: string, i: nat, t: string, rest: string) {
    i <= |source| && source[i..] == t + rest
  }

  lemma AtEnd(source: string, i: nat, t: string, rest: string)
    requires At(source, i, t, rest)
    ensures At(source, i + |t|, "", rest) && i + |t| <= |source|
    ensures forall k :: 0 <= k < |t| ==> source[i + k] == t[k]
  {
    assert source[i..][|t|..] == rest;
    assert source[i + |t|..] == source[i..][|t|..];
    assert forall k :: 0 <= k < |t| ==> source[i + k] == source[i..][k];
    assert "" + rest == rest;
  }

  lemma AtSplit(source: string, i: nat, a: string, b: string, rest: string)
    requires At(source, i, a + b, rest)
    ensures At(source, i, a, b + rest) && At(source, i + |a|, b, rest)
  {
    assert a + b + rest == a + (b + rest);
    AtEnd(source, i, a, b + rest);
    assert "" + (b + rest) == b + rest;
  }

  // A text between two others.
  lemma AtAround(source: string, i: nat, a: string, t: string, b: string, rest: string)
    requires At(source, i, a + t + b, rest)
    ensures At(source, i, a, t + b + rest) && At(source, i + |a|, t, b + rest) && At(source, i + |a| + |t|, b, rest)
  {
    hide At;
    AtSplit(source, i, a + t, b, rest);
    AtSplit(source, i, a, t, b + rest);
    assert t + (b + rest) == t + b + rest;
  }

  lemma CatAround(out: string, a: string, t: string, b: string)
    ensures out + a + t + b == out + (a + t + b)
  {
  }

  lemma Cat(out: string, a: string, b: string)
    ensures out + a + b == out + (a + b)
  {
  }

  lemma StandsIs(source: string, i: nat, from: string)
    requires i <= |source|
    ensures StandsAt(source, i, from) <==> from <= source[i..]
  {
    if i + |from| <= |source| { assert source[i..][..|from|] == source[i..i + |from|]; }
  }

  lemma NoneFound(source: string, i: nat)
    requires i <= |source| && NoneStarts(source[i..])
    ensures ImportMetaOnce.Found(source, i, META_PATTERNS, 6) == None
  {
    var f := ImportMetaOnce.Found(source, i, META_PATTERNS, 6);
    if f.Some? {
      Patterns(f.value);
      StandsIs(source, i, FROM[f.value]);
    }
  }

  // The patterns differ behind "import.meta.".
  lemma Letters(k: nat)
    requires k < 6
    ensures |FROM[k]| > 12 && FROM[k][12] == "rghveu"[k]
  {
  }

  lemma PatternFound(source: string, i: nat, k: nat)
    requires i <= |source| && k < 6 && FROM[k] <= source[i..]
    ensures ImportMetaOnce.Found(source, i, META_PATTERNS, 6) == Some(k)
  {
    hide ImportMetaOnce.Found;
    var f := ImportMetaOnce.Found(source, i, META_PATTERNS, 6);
    Patterns(k);
    StandsIs(source, i, FROM[k]);
    assert f.Some?;
    Patterns(f.value);
    StandsIs(source, i, FROM[f.value]);
    OneOnly(source[i..], k, f.value);
  }

  lemma OneOnly(text: string, j: nat, k: nat)
    requires j < 6 && k < 6 && FROM[j] <= text && FROM[k] <= text
    ensures j == k
  {
    Letters(j);
    Letters(k);
    assert text[12] == FROM[j][12] == FROM[k][12];
    LettersDiffer(j, k);
  }

  lemma LettersDiffer(j: nat, k: nat)
    requires j < 6 && k < 6 && "rghveu"[j] == "rghveu"[k]
    ensures j == k
  {
  }

  // ---- Strings -------------------------------------------------------------

  lemma GoString(source: string, i: nat, quote: char, outer: Mode, out: string)
    requires i < |source|
    ensures source[i] != '\\' ==>
      Go(source, i, Str(quote, outer), out)
      == Go(source, i + 1, if source[i] == quote then outer else Str(quote, outer), out + [source[i]])
    ensures source[i] == '\\' && i + 1 < |source| ==>
      Go(source, i, Str(quote, outer), out) == Go(source, i + 2, Str(quote, outer), out + [source[i]] + [source[i + 1]])
  {
  }

  lemma {:induction false} UnitsRun(source: string, i: nat, us: seq<Unit>, mark: char, rest: string, outer: Mode,
        out: string)
    requires At(source, i, SpellUnits(us), [mark] + rest) && ProperUnits(mark, us) && mark in {'"', '\''}
    ensures Go(source, i, Str(mark, outer), out)
      == Go(source, i + |SpellUnits(us)| + 1, outer, out + SpellUnits(us) + [mark])
    decreases |us|
  {
    hide Go;
    if us == [] {
      AtEnd(source, i, [mark], rest) by { assert "" + ([mark] + rest) == [mark] + rest; }
      GoString(source, i, mark, outer, out);
      assert out + "" == out;
    } else {
      var u, more := SpellUnit(us[0]), SpellUnits(us[1..]);
      AtSplit(source, i, u, more, [mark] + rest);
      UnitRuns(source, i, us[0], mark, more + ([mark] + rest), outer, out);
      UnitsRun(source, i + |u|, us[1..], mark, rest, outer, out + u);
      assert out + u + more == out + (u + more);
    }
  }

  lemma UnitRuns(source: string, i: nat, u: Unit, mark: char, rest: string, outer: Mode, out: string)
    requires At(source, i, SpellUnit(u), rest) && (u.Char? ==> u.c != mark && u.c != '\\')
    ensures Go(source, i, Str(mark, outer), out) == Go(source, i + |SpellUnit(u)|, Str(mark, outer), out + SpellUnit(u))
  {
    hide Go;
    AtEnd(source, i, SpellUnit(u), rest);
    GoString(source, i, mark, outer, out);
    assert u.Escaped? ==> out + ['\\'] + [u.c] == out + ['\\', u.c];
  }

  // ---- Interpolations ------------------------------------------------------

  lemma GoInner(source: string, i: nat, depth: int, out: string)
    requires i < |source|
    ensures source[i] == '{' ==>
      Go(source, i, Interpolation(depth), out) == Go(source, i + 1, Interpolation(depth + 1), out + [source[i]])
    ensures source[i] == '}' ==>
      Go(source, i, Interpolation(depth), out)
      == Go(source, i + 1, if depth == 1 then Template else Interpolation(depth - 1), out + [source[i]])
    ensures source[i] in {'"', '\''} ==>
      Go(source, i, Interpolation(depth), out)
      == Go(source, i + 1, Str(source[i], Interpolation(depth)), out + [source[i]])
    ensures source[i] !in {'{', '}', '"', '\''} && NoneStarts(source[i..]) ==>
      Go(source, i, Interpolation(depth), out) == Go(source, i + 1, Interpolation(depth), out + [source[i]])
  {
    hide ImportMetaOnce.Found, NoneStarts;
    if NoneStarts(source[i..]) { NoneFound(source, i); }
  }

  // A pattern begins like code, and is found wherever it stands in code.
  lemma GoPattern(source: string, i: nat, k: nat, mode: Mode, out: string)
    requires i < |source| && k < 6 && FROM[k] <= source[i..] && (mode.Code? || mode.Interpolation?)
    ensures Go(source, i, mode, out) == Go(source, i + |FROM[k]|, mode, out + TO[k])
  {
    hide ImportMetaOnce.Found;
    PatternFound(source, i, k);
    Patterns(k);
    FirstLetter(source[i..], k);
  }

  lemma FirstLetter(text: string, k: nat)
    requires k < 6 && FROM[k] <= text
    ensures text[0] == 'i'
  {
    assert FROM[k][0] == 'i';
  }

  lemma AtFirst(source: string, i: nat, c: char, rest: string)
    requires At(source, i, [c], rest)
    ensures i < |source| && source[i] == c && source[i..] == [c] + rest && At(source, i + 1, "", rest)
  {
    AtEnd(source, i, [c], rest);
  }

  lemma AtNow(source: string, i: nat, t: string)
    ensures At(source, i, "", t) <==> At(source, i, t, "")
  {
    assert "" + t == t == t + "";
  }

  lemma AtOf(source: string, i: nat, a: string, b: string)
    requires At(source, i, "", a + b)
    ensures At(source, i, a, b)
  {
    assert "" + (a + b) == a + b;
  }

  lemma {:induction false} InnerRuns(source: string, i: nat, p: Inner, rest: string, depth: nat, out: string)
    requires At(source, i, WriteInner(p, FROM), rest) && ProperInner(p, rest) && depth >= 1
    ensures Go(source, i, Interpolation(depth), out)
      == Go(source, i + |WriteInner(p, FROM)|, Interpolation(depth), out + WriteInner(p, TO))
    decreases p, 0
  {
    hide Go, NoneStarts;
    match p
    case Plain(c) =>
      AtFirst(source, i, c, rest);
      GoInner(source, i, depth, out);
    case Meta(k) =>
      assert FROM[k] <= source[i..];
      Patterns(k);
      GoPattern(source, i, k, Interpolation(depth), out);
    case Text(mark, units) => TextRuns(source, i, mark, units, rest, Interpolation(depth), out);
    case Braces(inside) => BracesRun(source, i, inside, rest, depth, out);
  }

  // A string, in code or between braces.
  lemma TextRuns(source: string, i: nat, mark: char, us: seq<Unit>, rest: string, outer: Mode, out: string)
    requires At(source, i, [mark] + SpellUnits(us) + [mark], rest)
    requires ProperUnits(mark, us) && mark in {'"', '\''} && (outer.Code? || outer.Interpolation?)
    ensures Go(source, i, outer, out)
      == Go(source, i + |SpellUnits(us)| + 2, outer, out + ([mark] + SpellUnits(us) + [mark]))
  {
    hide Go, At, SpellUnits;
    var t := SpellUnits(us);
    AtAround(source, i, [mark], t, [mark], rest);
    AtFirst(source, i, mark, t + [mark] + rest);
    GoQuote(source, i, outer, out);
    UnitsRun(source, i + 1, us, mark, rest, outer, out + [mark]);
    CatAround(out, [mark], t, [mark]);
  }

  lemma GoQuote(source: string, i: nat, outer: Mode, out: string)
    requires i < |source| && source[i] in {'"', '\''} && (outer.Code? || outer.Interpolation?)
    ensures Go(source, i, outer, out) == Go(source, i + 1, Str(source[i], outer), out + [source[i]])
  {
  }

  lemma {:induction false} BracesRun(source: string, i: nat, inside: seq<Inner>, rest: string, depth: nat, out: string)
    requires At(source, i, "{" + WriteInners(inside, FROM) + "}", rest) && ProperInners(inside, "}" + rest)
    requires depth >= 1
    ensures Go(source, i, Interpolation(depth), out)
      == Go(source, i + |WriteInners(inside, FROM)| + 2, Interpolation(depth),
        out + ("{" + WriteInners(inside, TO) + "}"))
    decreases inside, 2
  {
    hide Go, NoneStarts, At, WriteInners, ProperInners;
    var t, u := WriteInners(inside, FROM), WriteInners(inside, TO);
    AtAround(source, i, "{", t, "}", rest);
    AtFirst(source, i, '{', t + "}" + rest);
    GoInner(source, i, depth, out);
    InnersRun(source, i + 1, inside, "}" + rest, depth + 1, out + "{");
    AtFirst(source, i + 1 + |t|, '}', rest);
    GoInner(source, i + 1 + |t|, depth + 1, out + "{" + u);
    CatAround(out, "{", u, "}");
  }

  lemma {:induction false} InnersRun(source: string, i: nat, ps: seq<Inner>, rest: string, depth: nat, out: string)
    requires At(source, i, WriteInners(ps, FROM), rest) && ProperInners(ps, rest) && depth >= 1
    ensures Go(source, i, Interpolation(depth), out)
      == Go(source, i + |WriteInners(ps, FROM)|, Interpolation(depth), out + WriteInners(ps, TO))
    decreases ps, 1
  {
    hide Go, At, WriteInners, WriteInner, ProperInners, ProperInner, NoneStarts;
    if ps == [] {
      NothingWritten();
      assert out + "" == out;
    } else {
      var t, more := WriteInner(ps[0], FROM), WriteInners(ps[1..], FROM);
      InnersOf(ps, rest);
      AtSplit(source, i, t, more, rest);
      InnerRuns(source, i, ps[0], more + rest, depth, out);
      InnersRun(source, i + |t|, ps[1..], rest, depth, out + WriteInner(ps[0], TO));
      Cat(out, WriteInner(ps[0], TO), WriteInners(ps[1..], TO));
    }
  }

  lemma NothingWritten()
    ensures WriteInners([], FROM) == WriteInners([], TO) == ""
    ensures WriteParts([], FROM) == WriteParts([], TO) == ""
    ensures Write([], FROM) == Write([], TO) == ""
  {
  }

  lemma PartsOf(ps: seq<Part>, rest: string)
    requires ps != []
    ensures WriteParts(ps, FROM) == WritePart(ps[0], FROM) + WriteParts(ps[1..], FROM)
    ensures WriteParts(ps, TO) == WritePart(ps[0], TO) + WriteParts(ps[1..], TO)
    ensures ProperParts(ps, rest) <==>
      ProperPart(ps[0], WriteParts(ps[1..], FROM) + rest) && ProperParts(ps[1..], rest)
  {
    hide WritePart, ProperPart;
  }

  lemma InnersOf(ps: seq<Inner>, rest: string)
    requires ps != []
    ensures WriteInners(ps, FROM) == WriteInner(ps[0], FROM) + WriteInners(ps[1..], FROM)
    ensures WriteInners(ps, TO) == WriteInner(ps[0], TO) + WriteInners(ps[1..], TO)
    ensures ProperInners(ps, rest) <==>
      ProperInner(ps[0], WriteInners(ps[1..], FROM) + rest) && ProperInners(ps[1..], rest)
  {
    hide WriteInner, ProperInner;
  }

  // ---- Templates -----------------------------------------------------------

  lemma GoTemplate(source: string, i: nat, out: string)
    requires i < |source|
    ensures source[i] == '\\' && i + 1 < |source| ==>
      Go(source, i, Template, out) == Go(source, i + 2, Template, out + [source[i]] + [source[i + 1]])
    ensures source[i] == '`' ==> Go(source, i, Template, out) == Go(source, i + 1, Code, out + [source[i]])
    ensures source[i] == '$' && i + 1 < |source| && source[i + 1] == '{' ==>
      Go(source, i, Template, out) == Go(source, i + 2, Interpolation(1), out + [source[i]] + [source[i + 1]])
    ensures source[i] !in {'\\', '`'} && !(source[i] == '$' && i + 1 < |source| && source[i + 1] == '{') ==>
      Go(source, i, Template, out) == Go(source, i + 1, Template, out + [source[i]])
  {
  }

  lemma PartRuns(source: string, i: nat, p: Part, rest: string, out: string)
    requires At(source, i, WritePart(p, FROM), rest) && ProperPart(p, rest)
    ensures Go(source, i, Template, out) == Go(source, i + |WritePart(p, FROM)|, Template, out + WritePart(p, TO))
  {
    hide Go, NoneStarts;
    match p
    case Raw(u) => RawRuns(source, i, u, rest, out);
    case Inserted(inside) => InsertedRuns(source, i, inside, rest, out);
  }

  lemma InsertedRuns(source: string, i: nat, inside: seq<Inner>, rest: string, out: string)
    requires At(source, i, "${" + WriteInners(inside, FROM) + "}", rest) && ProperInners(inside, "}" + rest)
    ensures Go(source, i, Template, out)
      == Go(source, i + |WriteInners(inside, FROM)| + 3, Template, out + ("${" + WriteInners(inside, TO) + "}"))
  {
    hide Go, NoneStarts, At, WriteInners, ProperInners;
    var t, v := WriteInners(inside, FROM), WriteInners(inside, TO);
    AtAround(source, i, "${", t, "}", rest);
    AtEnd(source, i, "${", t + "}" + rest);
    AtEnd(source, i + 2, t, "}" + rest);
    assert source[i + 0] == "${"[0] && source[i + 1] == "${"[1];
    GoTemplate(source, i, out);
    assert out + ['$'] + ['{'] == out + "${";
    InnersRun(source, i + 2, inside, "}" + rest, 1, out + "${");
    AtFirst(source, i + 2 + |t|, '}', rest);
    GoInner(source, i + 2 + |t|, 1, out + "${" + v);
    assert out + "${" + v + ['}'] == out + "${" + v + "}";
    CatAround(out, "${", v, "}");
  }

  lemma RawRuns(source: string, i: nat, u: Unit, rest: string, out: string)
    requires At(source, i, SpellUnit(u), rest)
    requires u.Char? ==> u.c != '`' && u.c != '\\' && (u.c == '$' ==> !("{" <= rest))
    ensures Go(source, i, Template, out) == Go(source, i + |SpellUnit(u)|, Template, out + SpellUnit(u))
  {
    hide Go;
    AtEnd(source, i, SpellUnit(u), rest);
    assert u.Escaped? ==> out + ['\\'] + [u.c] == out + ['\\', u.c];
    if u.Char? && i + 1 < |source| { assert source[i + 1] == (""  + rest)[0]; }
    GoTemplate(source, i, out);
  }

  lemma {:induction false} PartsRun(source: string, i: nat, ps: seq<Part>, rest: string, out: string)
    requires At(source, i, WriteParts(ps, FROM), rest) && ProperParts(ps, rest)
    ensures Go(source, i, Template, out) == Go(source, i + |WriteParts(ps, FROM)|, Template, out + WriteParts(ps, TO))
    decreases |ps|
  {
    hide Go, At, WriteParts, WritePart, ProperParts, ProperPart, NoneStarts;
    if ps == [] {
      NothingWritten();
      assert out + "" == out;
    } else {
      var t, more := WritePart(ps[0], FROM), WriteParts(ps[1..], FROM);
      PartsOf(ps, rest);
      AtSplit(source, i, t, more, rest);
      PartRuns(source, i, ps[0], more + rest, out);
      PartsRun(source, i + |t|, ps[1..], rest, out + WritePart(ps[0], TO));
      Cat(out, WritePart(ps[0], TO), WriteParts(ps[1..], TO));
    }
  }

  // ---- Comments and code ---------------------------------------------------

  lemma GoComment(source: string, i: nat, out: string)
    requires i + 1 < |source| && source[i] == '/'
    ensures source[i + 1] == '/' ==> Go(source, i, Code, out) == Go(source, i + 2, Line, out + "//")
    ensures source[i + 1] == '*' ==> Go(source, i, Code, out) == Go(source, i + 2, Block, out + "/*")
  {
    assert out + ['/'] + ['/'] == out + "//" && out + ['/'] + ['*'] == out + "/*";
    if source[i + 1] == '/' { GoLine(source, i + 1, out + ['/']); }
  }

  lemma GoLine(source: string, i: nat, out: string)
    requires i < |source|
    ensures source[i] != '\n' ==> Go(source, i, Line, out) == Go(source, i + 1, Line, out + [source[i]])
    ensures source[i] == '\n' ==> Go(source, i, Line, out) == Go(source, i, Code, out)
  {
  }

  lemma {:induction false} LineRuns(source: string, i: nat, body: string, rest: string, out: string)
    requires At(source, i, body, rest) && '\n' !in body && (rest == "" || rest[0] == '\n')
    ensures Go(source, i, Line, out) == Go(source, i + |body|, Code, out + body)
    decreases |body|
  {
    hide Go;
    if body == "" {
      assert out + "" == out && source[i..] == rest;
      if rest == "" { GoEnd(source, i, out); } else { GoLine(source, i, out); }
    } else {
      assert body == [body[0]] + body[1..];
      AtSplit(source, i, [body[0]], body[1..], rest);
      AtFirst(source, i, body[0], body[1..] + rest);
      GoLine(source, i, out);
      LineRuns(source, i + 1, body[1..], rest, out + [body[0]]);
      Cat(out, [body[0]], body[1..]);
    }
  }

  lemma GoEnd(source: string, i: nat, out: string)
    requires i == |source|
    ensures Go(source, i, Line, out) == out && Go(source, i, Code, out) == out
  {
  }

  lemma GoBlock(source: string, i: nat, out: string)
    requires i + 1 < |source|
    ensures source[i] == '*' && source[i + 1] == '/' ==>
      Go(source, i, Block, out) == Go(source, i + 2, Code, out + "*/")
    ensures !(source[i] == '*' && source[i + 1] == '/') ==>
      Go(source, i, Block, out) == Go(source, i + 1, Block, out + [source[i]])
  {
    assert out + ['*'] + ['/'] == out + "*/";
  }

  lemma {:induction false} BlockRuns(source: string, i: nat, body: string, rest: string, out: string)
    requires At(source, i, body + "*/", rest) && forall k :: 0 <= k < |body| ==> !("*/" <= (body + "*/")[k..])
    ensures Go(source, i, Block, out) == Go(source, i + |body| + 2, Code, out + (body + "*/"))
    decreases |body|
  {
    hide Go;
    AtEnd(source, i, body + "*/", rest);
    if body == "" {
      assert "" + "*/" == "*/";
      GoBlock(source, i, out);
    } else {
      var more := body[1..];
      assert body + "*/" == [body[0]] + (more + "*/");
      AtSplit(source, i, [body[0]], more + "*/", rest);
      forall k | 0 <= k < |more|
        ensures !("*/" <= (more + "*/")[k..])
      {
        assert (body + "*/")[k + 1..] == (more + "*/")[k..];
      }
      assert (body + "*/")[0..] == body + "*/";
      GoBlock(source, i, out);
      BlockRuns(source, i + 1, more, rest, out + [body[0]]);
      Cat(out, [body[0]], more + "*/");
    }
  }

  lemma GoCode(source: string, i: nat, out: string)
    requires i < |source|
    ensures source[i] == '`' ==> Go(source, i, Code, out) == Go(source, i + 1, Template, out + [source[i]])
    ensures var comment := source[i] == '/' && i + 1 < |source| && source[i + 1] in {'/', '*'};
      source[i] !in {'"', '\'', '`'} && NoneStarts(source[i..]) && !comment ==>
      Go(source, i, Code, out) == Go(source, i + 1, Code, out + [source[i]])
  {
    hide ImportMetaOnce.Found, NoneStarts;
    if NoneStarts(source[i..]) { NoneFound(source, i); }
  }

  lemma ByteRuns(source: string, i: nat, c: char, rest: string, out: string)
    requires At(source, i, [c], rest) && ProperToken(Byte(c), rest)
    ensures Go(source, i, Code, out) == Go(source, i + 1, Code, out + [c])
  {
    hide Go, NoneStarts;
    AtFirst(source, i, c, rest);
    assert source[i + 1..] == rest by { assert "" + rest == rest; }
    if i + 1 < |source| { assert source[i + 1] == rest[0]; }
    GoCode(source, i, out);
  }

  lemma TokenRuns(source: string, i: nat, t: Token, rest: string, out: string)
    requires At(source, i, WriteToken(t, FROM), rest) && ProperToken(t, rest)
    ensures Go(source, i, Code, out) == Go(source, i + |WriteToken(t, FROM)|, Code, out + WriteToken(t, TO))
  {
    hide Go, NoneStarts, WriteParts, SpellUnits;
    match t
    case Byte(c) => ByteRuns(source, i, c, rest, out);
    case Pattern(k) =>
      assert FROM[k] <= source[i..];
      Patterns(k);
      GoPattern(source, i, k, Code, out);
    case LineComment(body) =>
      AtSplit(source, i, "//", body, rest);
      AtEnd(source, i, "//", body + rest);
      GoComment(source, i, out);
      LineRuns(source, i + 2, body, rest, out + "//");
      Cat(out, "//", body);
    case BlockComment(body) => BlockCommentRuns(source, i, body, rest, out);
    case Quoted(mark, units) => TextRuns(source, i, mark, units, rest, Code, out);
    case Backticked(parts) => BackticksRun(source, i, parts, rest, out);
  }

  lemma BlockCommentRuns(source: string, i: nat, body: string, rest: string, out: string)
    requires At(source, i, "/*" + body + "*/", rest) && forall k :: 0 <= k < |body| ==> !("*/" <= (body + "*/")[k..])
    ensures Go(source, i, Code, out) == Go(source, i + |body| + 4, Code, out + ("/*" + body + "*/"))
  {
    hide Go;
    assert "/*" + body + "*/" == "/*" + (body + "*/");
    AtSplit(source, i, "/*", body + "*/", rest);
    AtEnd(source, i, "/*", body + "*/" + rest);
    GoComment(source, i, out);
    BlockRuns(source, i + 2, body, rest, out + "/*");
    Cat(out, "/*", body + "*/");
  }

  lemma BackticksRun(source: string, i: nat, parts: seq<Part>, rest: string, out: string)
    requires At(source, i, "`" + WriteParts(parts, FROM) + "`", rest) && ProperParts(parts, "`" + rest)
    ensures Go(source, i, Code, out)
      == Go(source, i + |WriteParts(parts, FROM)| + 2, Code, out + ("`" + WriteParts(parts, TO) + "`"))
  {
    hide Go, At, WriteParts, ProperParts;
    var t, v := WriteParts(parts, FROM), WriteParts(parts, TO);
    AtAround(source, i, "`", t, "`", rest);
    AtFirst(source, i, '`', t + "`" + rest);
    GoCode(source, i, out);
    PartsRun(source, i + 1, parts, "`" + rest, out + "`");
    AtFirst(source, i + 1 + |t|, '`', rest);
    GoTemplate(source, i + 1 + |t|, out + "`" + v);
    CatAround(out, "`", v, "`");
  }

  lemma {:induction false} TokensRun(source: string, i: nat, ts: seq<Token>, rest: string, out: string)
    requires At(source, i, Write(ts, FROM), rest) && ProperAll(ts, rest)
    ensures Go(source, i, Code, out) == Go(source, i + |Write(ts, FROM)|, Code, out + Write(ts, TO))
    decreases |ts|
  {
    hide Go, At, Write, WriteToken, ProperAll, ProperToken, NoneStarts;
    if ts == [] {
      NothingWritten();
      assert out + "" == out;
    } else {
      var t, more := WriteToken(ts[0], FROM), Write(ts[1..], FROM);
      TokensOf(ts, rest);
      AtSplit(source, i, t, more, rest);
      TokenRuns(source, i, ts[0], more + rest, out);
      TokensRun(source, i + |t|, ts[1..], rest, out + WriteToken(ts[0], TO));
      Cat(out, WriteToken(ts[0], TO), Write(ts[1..], TO));
    }
  }

  lemma TokensOf(ts: seq<Token>, rest: string)
    requires ts != []
    ensures Write(ts, FROM) == WriteToken(ts[0], FROM) + Write(ts[1..], FROM)
    ensures Write(ts, TO) == WriteToken(ts[0], TO) + Write(ts[1..], TO)
    ensures ProperAll(ts, rest) <==>
      ProperToken(ts[0], Write(ts[1..], FROM) + rest) && ProperAll(ts[1..], rest)
  {
    hide WriteToken, ProperToken;
  }

  // The six passes replace each pattern in code, and in the code that templates
  // insert, by its own text, and nothing in comments, strings and templates.
  lemma TokensReplaced(ts: seq<Token>)
    requires ProperAll(ts, "")
    ensures (forall k :: 0 <= k < |META_PATTERNS| ==> META_PATTERNS[k].from != "")
    ensures Passes(Write(ts, FROM), META_PATTERNS) == Write(ts, TO)
  {
    hide Write, ProperAll, RunAll;
    var source := Write(ts, FROM);
    ReplacesInOneScan(source);
    assert source[0..] == source + "" && "" + Write(ts, TO) == Write(ts, TO);
    TokensRun(source, 0, ts, "", "");
    GoEnd(source, |source|, Write(ts, TO));
    assert Together(source, META_PATTERNS, 6) == Go(source, 0, Code, "");
  }
}
