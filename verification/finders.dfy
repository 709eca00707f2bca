// What the two specifier rewriters find, said of the text alone
// (crates/bundler/src/lib.rs, crates/cli/src/main.rs).
module Finders {
  import opened Prelude
  import opened Specifiers

  // The code points with the White_Space property.
  const WHITE: set<int> := {
    9, 10, 11, 12, 13, 32, 133, 160, 5760, 8192, 8193, 8194, 8195, 8196, 8197, 8198, 8199, 8200, 8201, 8202, 8232, 8233,
    8239, 8287, 12288
  }

  predicate White(space: string) { forall k :: 0 <= k < |space| ==> space[k] as int in WHITE }

  // ASCII letters and digits, and the two signs that names may hold.
  predicate Naming(c: char) {
    48 <= c as int <= 57 || 65 <= c as int <= 90 || 97 <= c as int <= 122 || c as int in {36, 95}
  }

  // The text ends inside a name.
  predicate EndsInName(before: string) { before != "" && Naming(before[|before| - 1]) }

  predicate IsQuote(c: char) { c == '"' || c == '\'' }

  // The text so far, a marker, white space, and a quoted string up to the next
  // equal quote.
  ghost predicate Reads(
        text: string, before: string, marker: string, space: string, quote: char, spec: string, rest: string) {
    && text == before + marker + space + [quote] + spec + [quote] + rest
    && !EndsInName(before) && White(space) && IsQuote(quote) && quote !in spec
  }

  // The quotes of such a string.
  function QuotesBehind(before: string, marker: string, space: string, spec: string): Span {
    var open := |before| + |marker| + |space|;
    Span(open, open + 1 + |spec|)
  }

  lemma SpaceIsWhite(c: char)
    ensures IsSpace(c) <==> c as int in WHITE
  {
  }

  lemma IdentIsNaming(c: char)
    ensures IsIdent(c) <==> Naming(c)
  {
  }

  // ---- Scanning for the parts ----------------------------------------------

  lemma {:induction false} SkipsWhite(text: string, i: nat, s: nat)
    requires i <= s <= |text| && (forall k :: i <= k < s ==> text[k] as int in WHITE)
    requires s < |text| ==> text[s] as int !in WHITE
    ensures SkipSpace(text, i) == s
    decreases s - i
  {
    if i < |text| { SpaceIsWhite(text[i]); }
    if i < s { SkipsWhite(text, i + 1, s); }
  }

  lemma {:induction false} SkipIsWhite(text: string, i: nat)
    requires i <= |text|
    ensures forall k :: i <= k < SkipSpace(text, i) ==> text[k] as int in WHITE
    ensures SkipSpace(text, i) < |text| ==> text[SkipSpace(text, i)] as int !in WHITE
    decreases |text| - i
  {
    hide WHITE;
    if i < |text| {
      SpaceIsWhite(text[i]);
      if IsSpace(text[i]) { SkipIsWhite(text, i + 1); }
    }
  }

  lemma {:induction false} FindsFirst(text: string, i: nat, c: char)
    requires i <= |text|
    ensures match FindChar(text, i, c)
      case None => forall k :: i <= k < |text| ==> text[k] != c
      case Some(r) => forall k :: i <= k < r ==> text[k] != c
    decreases |text| - i
  {
    if i < |text| && text[i] != c { FindsFirst(text, i + 1, c); }
  }

  // A quoted string at s, by its parts.
  ghost predicate QuotedParts(text: string, s: nat, sp: Span) {
    && sp.open == s < sp.close < |text|
    && IsQuote(text[s]) && text[sp.close] == text[s] && forall k :: s < k < sp.close ==> text[k] != text[s]
  }

  lemma QuotedExact(text: string, s: nat, sp: Span)
    requires s <= |text|
    ensures QuotedAt(text, s) == Some(sp) <==> QuotedParts(text, s, sp)
  {
    if s < |text| && IsQuote(text[s]) { FindsFirst(text, s + 1, text[s]); }
  }

  // ---- The parts, joined ---------------------------------------------------

  ghost predicate Starts(text: string, x: string) { |x| <= |text| && text[..|x|] == x }

  lemma LastPart(text: string, x: string, y: string)
    requires Starts(text, x + y)
    ensures Starts(text, x) && StandsAt(text, |x|, y)
    ensures forall k :: |x| <= k < |x| + |y| ==> text[k] == y[k - |x|]
  {
    assert (x + y)[..|x|] == x && (x + y)[|x|..] == y;
    assert text[..|x|] == text[..|x + y|][..|x|];
    assert text[|x|..|x| + |y|] == text[..|x + y|][|x|..];
    assert forall k :: |x| <= k < |x| + |y| ==> text[k] == text[..|x + y|][k];
  }

  lemma PartsJoin(text: string, before: string, marker: string, space: string, quote: char, spec: string, rest: string)
    requires text == before + marker + space + [quote] + spec + [quote] + rest
    requires White(space) && IsQuote(quote) && quote !in spec
    ensures StandsAt(text, |before|, marker) && text[..|before|] == before
    ensures var i := |before| + |marker|;
      && i + |space| < |text| && (forall k :: i <= k < i + |space| ==> text[k] as int in WHITE)
      && text[i + |space|] == quote
      && QuotedParts(text, i + |space|, QuotesBehind(before, marker, space, spec))
  {
    hide WHITE, StandsAt, Starts;
    StartsWith(text, before + marker + space + [quote] + spec + [quote], rest);
    LastPart(text, before + marker + space + [quote] + spec, [quote]);
    LastPart(text, before + marker + space + [quote], spec);
    LastPart(text, before + marker + space, [quote]);
    LastPart(text, before + marker, space);
    LastPart(text, before, marker);
    StartsIs(text, before);
  }

  lemma StartsWith(text: string, x: string, rest: string)
    requires text == x + rest
    ensures Starts(text, x)
  {
  }

  lemma StartsIs(text: string, x: string)
    requires Starts(text, x)
    ensures text[..|x|] == x
  {
  }

  lemma PartsSplit(text: string, i: nat, marker: string, s: nat, sp: Span)
    requires StandsAt(text, i, marker) && i + |marker| <= s && QuotedParts(text, s, sp)
    requires forall k :: i + |marker| <= k < s ==> text[k] as int in WHITE
    ensures var before, space, spec := text[..i], text[i + |marker|..s], text[s + 1..sp.close];
      && text == before + marker + space + [text[s]] + spec + [text[s]] + text[sp.close + 1..]
      && White(space) && text[s] !in spec && QuotesBehind(before, marker, space, spec) == sp
  {
    hide WHITE;
  }

  // ---- What is found -------------------------------------------------------

  // At i the marker stands, then white space, then a string in these quotes.
  ghost predicate ReadsAs(
        text: string, i: nat, marker: string, space: string, quote: char, spec: string, rest: string, sp: Span)
    requires i <= |text|
  {
    Reads(text, text[..i], marker, space, quote, spec, rest) && QuotesBehind(text[..i], marker, space, spec) == sp
  }

  ghost predicate Marked(text: string, i: nat, marker: string, sp: Span) {
    i <= |text| && exists space: string, quote: char, spec: string, rest: string ::
      ReadsAs(text, i, marker, space, quote, spec, rest, sp)
  }

  // The same with nothing between the marker and the string.
  ghost predicate MarkedDirectly(text: string, i: nat, marker: string, sp: Span) {
    i <= |text| && exists quote: char, spec: string, rest: string ::
      ReadsAs(text, i, marker, "", quote, spec, rest, sp)
  }

  lemma AfterIdentIs(text: string, i: nat)
    requires i <= |text|
    ensures AfterIdent(text, i) <==> EndsInName(text[..i])
  {
    if i > 0 { IdentIsNaming(text[i - 1]); }
  }

  lemma QuoteNotWhite(c: char)
    requires IsQuote(c)
    ensures c as int !in WHITE
  {
  }

  lemma ReadsParts(
        text: string, i: nat, marker: string, space: string, quote: char, spec: string, rest: string, sp: Span)
    requires i <= |text| && ReadsAs(text, i, marker, space, quote, spec, rest, sp)
    ensures StandsAt(text, i, marker) && !AfterIdent(text, i)
    ensures sp.open == i + |marker| + |space| && QuotedParts(text, sp.open, sp)
    ensures forall k :: i + |marker| <= k < sp.open ==> text[k] as int in WHITE
  {
    hide WHITE, White, StandsAt, AfterIdent, EndsInName, QuotedParts;
    PartsJoin(text, text[..i], marker, space, quote, spec, rest);
    AfterIdentIs(text, i);
  }

  lemma MarkedFound(text: string, i: nat, marker: string, sp: Span)
    requires Marked(text, i, marker, sp)
    ensures StandsAt(text, i, marker) && !AfterIdent(text, i)
    ensures QuotedAt(text, SkipSpace(text, i + |marker|)) == Some(sp)
  {
    hide WHITE, QuotedAt, SkipSpace, AfterIdent, ReadsAs;
    var space, quote, spec, rest :| ReadsAs(text, i, marker, space, quote, spec, rest, sp);
    ReadsParts(text, i, marker, space, quote, spec, rest, sp);
    QuoteNotWhite(text[sp.open]);
    SkipsWhite(text, i + |marker|, sp.open);
    QuotedExact(text, sp.open, sp);
  }

  lemma FoundMarked(text: string, i: nat, marker: string, sp: Span)
    requires i <= |text| && StandsAt(text, i, marker) && !AfterIdent(text, i)
    requires QuotedAt(text, SkipSpace(text, i + |marker|)) == Some(sp)
    ensures Marked(text, i, marker, sp)
  {
    hide WHITE, QuotedAt, White;
    var s := SkipSpace(text, i + |marker|);
    SkipIsWhite(text, i + |marker|);
    AfterIdentIs(text, i);
    QuotedExact(text, s, sp);
    PartsSplit(text, i, marker, s, sp);
    assert ReadsAs(text, i, marker, text[i + |marker|..s], text[s], text[s + 1..sp.close], text[sp.close + 1..], sp);
  }

  lemma DirectFound(text: string, i: nat, marker: string, sp: Span)
    requires MarkedDirectly(text, i, marker, sp)
    ensures StandsAt(text, i, marker) && !AfterIdent(text, i) && QuotedAt(text, i + |marker|) == Some(sp)
  {
    hide WHITE, QuotedAt, White;
    var quote, spec, rest :| ReadsAs(text, i, marker, "", quote, spec, rest, sp);
    PartsJoin(text, text[..i], marker, "", quote, spec, rest);
    AfterIdentIs(text, i);
    QuotedExact(text, i + |marker|, sp);
  }

  lemma FoundDirect(text: string, i: nat, marker: string, sp: Span)
    requires i <= |text| && StandsAt(text, i, marker) && !AfterIdent(text, i)
    requires QuotedAt(text, i + |marker|) == Some(sp)
    ensures MarkedDirectly(text, i, marker, sp)
  {
    hide WHITE, QuotedAt, White;
    var s := i + |marker|;
    AfterIdentIs(text, i);
    QuotedExact(text, s, sp);
    PartsSplit(text, i, marker, s, sp);
    assert text[s..s] == "";
    assert ReadsAs(text, i, marker, "", text[s], text[s + 1..sp.close], text[sp.close + 1..], sp);
  }

  // A require is found at i exactly where `require(` stands there, not within a
  // name, and white space and a quoted string behind it; its specifier is the
  // text up to the next equal quote.
  lemma RequireFindsExact(text: string, i: nat, sp: Span)
    ensures RequireAt(text, i) == Some(sp) <==> Marked(text, i, "require(", sp)
  {
    hide Marked, QuotedAt, SkipSpace, AfterIdent, StandsAt;
    if Marked(text, i, "require(", sp) {
      MarkedFound(text, i, "require(", sp);
      MarkedWithin(text, i, "require(", sp);
    }
    if RequireAt(text, i) == Some(sp) { FoundMarked(text, i, "require(", sp); }
  }

  lemma MarkedWithin(text: string, i: nat, marker: string, sp: Span)
    requires Marked(text, i, marker, sp)
    ensures i <= |text|
  {
  }

  // An import is found at i exactly where, not within a name, `from ` or
  // `import` stands there and white space and a quoted string behind it, or
  // `import(` and a quoted string right behind that.
  lemma ImportFindsExact(text: string, i: nat, sp: Span)
    ensures ImportAt(text, i) == Some(sp) <==>
      Marked(text, i, "from ", sp) || Marked(text, i, "import", sp) || MarkedDirectly(text, i, "import(", sp)
  {
    hide Marked, MarkedDirectly, QuotedAt, SkipSpace, AfterIdent;
    if Marked(text, i, "from ", sp) {
      MarkedWithin(text, i, "from ", sp);
      MarkedFound(text, i, "from ", sp);
    }
    if Marked(text, i, "import", sp) {
      MarkedWithin(text, i, "import", sp);
      MarkedFound(text, i, "import", sp);
      MarkersApart(text, i);
      NoneAtParen(text, i, sp);
    }
    if MarkedDirectly(text, i, "import(", sp) {
      DirectWithin(text, i, "import(", sp);
      DirectFound(text, i, "import(", sp);
      MarkersApart(text, i);
    }
    if ImportAt(text, i) == Some(sp) { ImportMarked(text, i, sp); }
  }

  lemma DirectWithin(text: string, i: nat, marker: string, sp: Span)
    requires MarkedDirectly(text, i, marker, sp)
    ensures i <= |text|
  {
  }

  lemma MarkersApart(text: string, i: nat)
    ensures !(StandsAt(text, i, "from ") && StandsAt(text, i, "import"))
    ensures StandsAt(text, i, "import(") <==> StandsAt(text, i, "import") && i + 6 < |text| && text[i + 6] == '('
  {
    hide StandsAt;
    if StandsAt(text, i, "from ") { StandsFirst(text, i, "from "); }
    if StandsAt(text, i, "import") { StandsFirst(text, i, "import"); }
    assert "import(" == "import" + ['('];
    StandsOneMore(text, i, "import", '(');
  }

  lemma StandsFirst(text: string, i: nat, t: string)
    requires StandsAt(text, i, t) && t != ""
    ensures i < |text| && text[i] == t[0]
  {
    assert text[i..i + |t|][0] == text[i];
  }

  lemma StandsOneMore(text: string, i: nat, t: string, c: char)
    ensures StandsAt(text, i, t + [c]) <==> StandsAt(text, i, t) && i + |t| < |text| && text[i + |t|] == c
  {
    var n := |t|;
    if i + n < |text| {
      assert text[i..i + n + 1] == text[i..i + n] + [text[i + n]];
      assert (t + [c])[..n] == t && (t + [c])[n] == c;
    }
  }

  // Where `import` is followed by a parenthesis, no string follows it over
  // white space.
  lemma NoneAtParen(text: string, i: nat, sp: Span)
    requires StandsAt(text, i, "import") && QuotedAt(text, SkipSpace(text, i + 6)) == Some(sp)
    ensures !(i + 6 < |text| && text[i + 6] == '(')
  {
  }

  lemma ImportMarked(text: string, i: nat, sp: Span)
    requires ImportAt(text, i) == Some(sp)
    ensures Marked(text, i, "from ", sp) || Marked(text, i, "import", sp) || MarkedDirectly(text, i, "import(", sp)
  {
    hide Marked, MarkedDirectly, QuotedAt, SkipSpace, AfterIdent;
    MarkersApart(text, i);
    if StandsAt(text, i, FROM) {
      FoundMarked(text, i, "from ", sp);
    } else if i + 6 < |text| && text[i + 6] == '(' {
      FoundDirect(text, i, "import(", sp);
    } else {
      FoundMarked(text, i, "import", sp);
    }
  }

  // ---- What a scan takes ---------------------------------------------------

  lemma ScanEnds(find: Finder, text: string, i: nat)
    ensures i >= |text| ==> Spans(find, text, i) == []
  {
  }

  // A scan takes only what is found, and misses nothing but what starts inside
  // something it took before, marker and string.
  lemma {:induction false} ScanTakes(find: Finder, text: string, i: nat, k: nat)
    requires FindsQuoted(find) && k < |Spans(find, text, i)|
    ensures exists p: nat :: i <= p < |text| && find(text, p) == Some(Spans(find, text, i)[k])
    decreases |text| - i
  {
    hide Spans, FindsQuoted;
    ScanEnds(find, text, i);
    ScanStep(find, text, i);
    match find(text, i)
    case Some(sp) =>
      if k == 0 {
        assert find(text, i) == Some(Spans(find, text, i)[k]);
      } else {
        ScanTakes(find, text, sp.close + 1, k - 1);
        assert Spans(find, text, i)[k] == Spans(find, text, sp.close + 1)[k - 1];
      }
    case None => ScanTakes(find, text, i + 1, k);
  }

  ghost predicate TakenOver(find: Finder, text: string, i: nat, q: nat, p: nat) {
    && i <= q < p && find(text, q).Some? && p <= find(text, q).value.close
    && find(text, q).value in Spans(find, text, i)
  }

  lemma ScanStep(find: Finder, text: string, i: nat)
    requires FindsQuoted(find) && i < |text|
    ensures match find(text, i)
      case None => Spans(find, text, i) == Spans(find, text, i + 1)
      case Some(sp) => IsQuoted(text, i + 1, sp) && Spans(find, text, i) == [sp] + Spans(find, text, sp.close + 1)
  {
  }

  lemma {:induction false} ScanMisses(find: Finder, text: string, i: nat, p: nat)
    requires FindsQuoted(find) && i <= p < |text| && find(text, p).Some?
    ensures find(text, p).value in Spans(find, text, i) || exists q: nat :: TakenOver(find, text, i, q, p)
    decreases |text| - i
  {
    hide Spans, FindsQuoted;
    ScanStep(find, text, i);
    match find(text, i)
    case Some(sp) =>
      if i < p {
        if p <= sp.close {
          assert TakenOver(find, text, i, i, p);
        } else {
          ScanMisses(find, text, sp.close + 1, p);
          StillTaken(find, text, sp.close + 1, i, p);
        }
      }
    case None =>
      ScanMisses(find, text, i + 1, p);
      StillTaken(find, text, i + 1, i, p);
  }

  lemma StillTaken(find: Finder, text: string, j: nat, i: nat, p: nat)
    requires i <= j && forall sp :: sp in Spans(find, text, j) ==> sp in Spans(find, text, i)
    ensures (exists q: nat :: TakenOver(find, text, j, q, p)) ==> exists q: nat :: TakenOver(find, text, i, q, p)
  {
    if q: nat :| TakenOver(find, text, j, q, p) {
      assert TakenOver(find, text, i, q, p);
    }
  }
}
