// The two specifier rewriters: `require("...")` in a bundle, `import`/`from`
// in the dev server (crates/bundler/src/lib.rs, crates/cli/src/main.rs).
module Specifiers {
  import opened Prelude

  // The quotes around a specifier: text[open] and text[close].
  datatype Span = Span(open: nat, close: nat)

  predicate IsIdent(c: char) {
    'a' <= c <= 'z' || 'A' <= c <= 'Z' || '0' <= c <= '9' || c == '_' || c == '$'
  }

  // The White_Space characters, which trim_start removes.
  predicate IsSpace(c: char) {
    '\t' <= c <= '\r' || c == ' ' || c == 0x85 as char || c == 0xA0 as char || c == 0x1680 as char
    || 0x2000 as char <= c <= 0x200A as char || c == 0x2028 as char || c == 0x2029 as char
    || c == 0x202F as char || c == 0x205F as char || c == 0x3000 as char
  }

  predicate AfterIdent(text: string, i: nat)
    requires i <= |text|
  {
    i > 0 && IsIdent(text[i - 1])
  }

  function SkipSpace(text: string, i: nat): (s: nat)
    requires i <= |text|
    ensures i <= s <= |text|
    decreases |text| - i
  {
    if i < |text| && IsSpace(text[i]) then SkipSpace(text, i + 1) else i
  }

  function FindChar(text: string, i: nat, c: char): (r: Option<nat>)
    requires i <= |text|
    ensures r.Some? ==> i <= r.value < |text| && text[r.value] == c
    decreases |text| - i
  {
    if i == |text| then None
    else if text[i] == c then Some(i)
    else FindChar(text, i + 1, c)
  }

  // The quoted string that starts at s, if one does.
  function QuotedAt(text: string, s: nat): (r: Option<Span>)
    requires s <= |text|
    ensures r.Some? ==> IsQuoted(text, s, r.value)
  {
    if s < |text| && (text[s] == '"' || text[s] == '\'') then
      match FindChar(text, s + 1, text[s]) case Some(e) => Some(Span(s, e)) case None => None
    else None
  }

  // From `from` on, inside the text, and between a quote and the same quote.
  predicate IsQuoted(text: string, from: nat, sp: Span) {
    from <= sp.open < sp.close < |text| && SameQuotes(text, sp)
  }

  predicate SameQuotes(text: string, sp: Span)
    requires sp.open < sp.close < |text|
  {
    (text[sp.open] == '"' || text[sp.open] == '\'') && text[sp.close] == text[sp.open]
  }

  const REQUIRE: string := "require("
  const FROM: string := "from "
  const IMPORT: string := "import"

  // Where a rewriter finds a specifier at position i, if it does.
  function RequireAt(text: string, i: nat): Option<Span> {
    if i <= |text| && StandsAt(text, i, REQUIRE) && !AfterIdent(text, i) then
      QuotedAt(text, SkipSpace(text, i + |REQUIRE|))
    else None
  }

  function ImportAt(text: string, i: nat): Option<Span> {
    if i > |text| || AfterIdent(text, i) then None
    else if StandsAt(text, i, FROM) then QuotedAt(text, SkipSpace(text, i + |FROM|))
    else if StandsAt(text, i, IMPORT) then
      var a := i + |IMPORT|;
      if a < |text| && text[a] == '(' then QuotedAt(text, a + 1) else QuotedAt(text, SkipSpace(text, a))
    else None
  }

  // Finding is the only thing the two rewriters differ in.
  type Finder = (string, nat) -> Option<Span>

  // It finds quoted strings, behind where it is asked.
  ghost predicate FindsQuoted(find: Finder) {
    forall text: string, i: nat :: find(text, i).Some? ==> IsQuoted(text, i + 1, find(text, i).value)
  }

  lemma BothFindQuoted()
    ensures FindsQuoted(RequireAt) && FindsQuoted(ImportAt)
  {
  }

  // All the specifiers from i on, left to right; a scan goes on behind each.
  function Spans(find: Finder, text: string, i: nat): seq<Span>
    decreases |text| - i
  {
    if i >= |text| then []
    else match find(text, i)
      case Some(sp) => if i <= sp.close < |text| then [sp] + Spans(find, text, sp.close + 1) else []
      case None => Spans(find, text, i + 1)
  }

  // ---- A text and its specifiers -------------------------------------------

  // Where the text behind the first k specifiers starts.
  function Behind(spans: seq<Span>, k: nat): nat
    requires k <= |spans|
  {
    if k == 0 then 0 else spans[k - 1].close + 1
  }

  // The first n are disjoint, left to right.
  ghost predicate InOrder(text: string, spans: seq<Span>, n: nat)
    requires n <= |spans|
  {
    forall k {:trigger InPlace(text, spans, k)} :: 0 <= k < n ==> InPlace(text, spans, k)
  }

  predicate InPlace(text: string, spans: seq<Span>, k: nat)
    requires k < |spans|
  {
    && Behind(spans, k) <= spans[k].open < spans[k].close < |text|
    && QuoteOf(text, spans[k].open) == QuoteOf(text, spans[k].close)
  }

  function QuoteOf(text: string, i: nat): string { Sub(text, i, i + 1) }

  function Specifier(text: string, sp: Span): string { Sub(text, sp.open + 1, sp.close) }

  // What the resolver is asked, first to last. It may remember what it was
  // asked, so it is known only by its answers, first to last.
  function Specifiers(text: string, spans: seq<Span>): (asked: seq<string>)
    ensures |asked| == |spans|
    ensures forall k :: 0 <= k < |spans| ==> asked[k] == Specifier(text, spans[k])
  {
    seq(|spans|, k requires 0 <= k < |spans| => Specifier(text, spans[k]))
  }

  function Piece(text: string, from: nat, sp: Span, str: string): string {
    Sub(text, from, sp.open + 1) + str + QuoteOf(text, sp.open)
  }

  // The text up to the n-th specifier, with the quotes filled and everything
  // between as it was.
  function Upto(text: string, spans: seq<Span>, strs: seq<string>, n: nat): string
    requires n <= |spans| == |strs|
  {
    if n == 0 then ""
    else Upto(text, spans, strs, n - 1) + Piece(text, Behind(spans, n - 1), spans[n - 1], strs[n - 1])
  }

  // The whole text, with the quotes of its specifiers filled.
  function Requoted(text: string, spans: seq<Span>, strs: seq<string>): string
    requires |strs| == |spans|
  {
    Upto(text, spans, strs, |spans|) + Sub(text, Behind(spans, |spans|), |text|)
  }

  // ---- The loop of both rewriters ------------------------------------------

  // Where the scan stands: n specifiers behind, at position i.
  ghost predicate Standing(find: Finder, text: string, spans: seq<Span>, strs: seq<string>, n: nat, i: nat, copied: nat,
        out: string) {
    && n <= |spans| == |strs| && copied == Behind(spans, n) && copied <= i <= |text|
    && InOrder(text, spans, n) && spans[n..] == Spans(find, text, i)
    && out == Upto(text, spans, strs, n)
  }

  method Rewrite(find: Finder, text: string, answers: seq<string>) returns (out: string, asked: seq<string>)
    requires FindsQuoted(find) && |answers| == |Spans(find, text, 0)|
    ensures var spans := Spans(find, text, 0);
      && InOrder(text, spans, |spans|)
      && asked == Specifiers(text, spans)
      && out == Requoted(text, spans, answers)
  {
    out, asked := "", [];
    var i, copied := 0, 0;
    ghost var spans := Spans(find, text, 0);
    while i < |text|
      invariant 0 <= copied <= i <= |text|
      invariant Standing(find, text, spans, answers, |asked|, i, copied, out)
      invariant forall k :: 0 <= k < |asked| ==> asked[k] == Specifier(text, spans[k])
      decreases |text| - i
    {
      match find(text, i) {
        case Some(sp) =>
          TakeSpan(find, text, spans, answers, |asked|, i, copied, out, sp);
          var specifier := Specifier(text, sp);
          out := out + (Sub(text, copied, sp.open + 1) + answers[|asked|] + QuoteOf(text, sp.open));
          asked := asked + [specifier];
          i := sp.close + 1;
          copied := i;
        case None =>
          i := i + 1;
      }
    }
    assert spans[|asked|..] == [];
    out := out + Sub(text, copied, |text|);
  }

  lemma NextSpan(find: Finder, text: string, spans: seq<Span>, n: nat, i: nat, sp: Span)
    requires n <= |spans| && i < |text| && find(text, i) == Some(sp) && i <= sp.close < |text|
    requires spans[n..] == Spans(find, text, i)
    ensures n < |spans| && spans[n] == sp && spans[n + 1..] == Spans(find, text, sp.close + 1)
  {
    assert spans[n..] == [sp] + Spans(find, text, sp.close + 1);
    assert spans[n + 1..] == spans[n..][1..];
  }

  lemma UptoNext(text: string, spans: seq<Span>, answers: seq<string>, n: nat)
    requires n < |spans| == |answers| && InPlace(text, spans, n)
    ensures var sp := spans[n];
      Upto(text, spans, answers, n + 1)
      == Upto(text, spans, answers, n)
        + (Sub(text, Behind(spans, n), sp.open + 1) + answers[n] + QuoteOf(text, sp.open))
  {
    var sp := spans[n];
    var piece := Sub(text, Behind(spans, n), sp.open + 1) + answers[n] + QuoteOf(text, sp.open);
    UptoIs(text, spans, answers, n + 1, Upto(text, spans, answers, n), piece, Upto(text, spans, answers, n) + piece);
  }

  lemma QuotesAgree(text: string, from: nat, sp: Span)
    requires IsQuoted(text, from, sp)
    ensures QuoteOf(text, sp.open) == QuoteOf(text, sp.close)
  {
    SubIs(text, sp.open, sp.open + 1);
    SubIs(text, sp.close, sp.close + 1);
  }

  lemma TakeSpan(find: Finder, text: string, spans: seq<Span>, answers: seq<string>, n: nat, i: nat, copied: nat,
        out: string, sp: Span)
    requires Standing(find, text, spans, answers, n, i, copied, out)
    requires i < |text| && find(text, i) == Some(sp) && IsQuoted(text, i + 1, sp) && |answers| == |spans|
    ensures copied <= sp.open + 1 && n < |spans| && spans[n] == sp
    ensures Standing(find, text, spans, answers, n + 1, sp.close + 1, sp.close + 1,
      out + (Sub(text, copied, sp.open + 1) + answers[n] + QuoteOf(text, sp.open)))
  {
    NextSpan(find, text, spans, n, i, sp);
    QuotesAgree(text, i + 1, sp);
    assert InPlace(text, spans, n);
    UptoNext(text, spans, answers, n);
  }

  // ---- What a rewriter keeps -----------------------------------------------

  // One step of Upto, with names for its parts.
  lemma UptoIs(text: string, spans: seq<Span>, strs: seq<string>, n: nat, before: string, piece: string, after: string)
    requires 0 < n <= |spans| == |strs| && before == Upto(text, spans, strs, n - 1)
    requires piece == Piece(text, Behind(spans, n - 1), spans[n - 1], strs[n - 1])
    requires before + piece == after
    ensures Upto(text, spans, strs, n) == after
  {
  }

  lemma PieceOwn(text: string, from: nat, sp: Span)
    requires from <= sp.open < sp.close < |text| && QuoteOf(text, sp.open) == QuoteOf(text, sp.close)
    ensures Piece(text, from, sp, Specifier(text, sp)) == Sub(text, from, sp.close + 1)
  {
    Join(text, from, sp.open + 1, sp.close);
    Join(text, from, sp.close, sp.close + 1);
  }

  lemma OwnNext(text: string, spans: seq<Span>, own: seq<string>, n: nat)
    requires own == Specifiers(text, spans)
    requires 0 < n <= |spans| && InPlace(text, spans, n - 1)
    requires Upto(text, spans, own, n - 1) == Sub(text, 0, Behind(spans, n - 1))
    ensures Upto(text, spans, own, n) == Sub(text, 0, Behind(spans, n))
  {
    var from, sp := Behind(spans, n - 1), spans[n - 1];
    PieceOwn(text, from, sp);
    Join(text, 0, from, sp.close + 1);
    UptoIs(text, spans, own, n, Sub(text, 0, from), Sub(text, from, sp.close + 1), Sub(text, 0, sp.close + 1));
  }

  lemma {:induction false} UptoOwn(text: string, spans: seq<Span>, own: seq<string>, n: nat)
    requires own == Specifiers(text, spans)
    requires n <= |spans| && InOrder(text, spans, n)
    ensures Upto(text, spans, own, n) == Sub(text, 0, Behind(spans, n))
  {
    if n > 0 {
      UptoOwn(text, spans, own, n - 1);
      assert InPlace(text, spans, n - 1);
      OwnNext(text, spans, own, n);
    }
  }

  // The text is itself with its own specifiers in the quotes, as the output is
  // with the answers: nothing outside a quoted specifier changes, and a
  // resolver that answers what it was asked gives back the text.
  lemma RewriteKeepsTheRest(text: string, spans: seq<Span>)
    requires InOrder(text, spans, |spans|)
    ensures Requoted(text, spans, Specifiers(text, spans)) == text
  {
    UptoOwn(text, spans, Specifiers(text, spans), |spans|);
    if |spans| > 0 { assert InPlace(text, spans, |spans| - 1); }
    Join(text, 0, Behind(spans, |spans|), |text|);
    SubIs(text, 0, |text|);
  }

  // The specifiers are disjoint quoted strings, each behind the one before.
  lemma {:induction false} SpecifiersApart(text: string, spans: seq<Span>, j: nat, k: nat)
    requires InOrder(text, spans, |spans|) && j < k < |spans|
    ensures spans[j].open < spans[j].close < spans[k].open < spans[k].close < |text|
  {
    assert InPlace(text, spans, j) && InPlace(text, spans, k);
    if j + 1 < k { SpecifiersApart(text, spans, j, k - 1); }
  }
}
