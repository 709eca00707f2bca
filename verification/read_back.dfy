// Scanning a rewritten module again: when it reads the answers back
// (crates/bundler/src/lib.rs).
module ReadBack {
  import opened Prelude
  import opened Specifiers

  // The output from position i of the text on, these specifiers still ahead.
  function Rest(text: string, i: nat, spans: seq<Span>, answers: seq<string>): string
    requires |answers| == |spans|
    decreases |spans|
  {
    if spans == [] then Sub(text, i, |text|)
    else
      var sp := spans[0];
      Sub(text, i, sp.open + 1) + answers[0] + QuoteOf(text, sp.open)
        + Rest(text, sp.close + 1, spans[1..], answers[1..])
  }

  // A require at i whose quoted string never ends: where its quote stands.
  function WaitingAt(text: string, i: nat): (w: Option<nat>)
    ensures w.Some? ==> i < w.value < |text|
  {
    match QuoteStart(text, i)
    case None => None
    case Some(s) => if FindChar(text, s + 1, text[s]).None? then Some(s) else None
  }

  // The quote after a `require(` at i, if there is one.
  function QuoteStart(text: string, i: nat): (r: Option<nat>)
    ensures r.Some? ==> i + |REQUIRE| <= r.value < |text| && (text[r.value] == '"' || text[r.value] == '\'')
  {
    if i <= |text| && StandsAt(text, i, REQUIRE) && !AfterIdent(text, i) then
      var s := SkipSpace(text, i + |REQUIRE|);
      if s < |text| && (text[s] == '"' || text[s] == '\'') then Some(s) else None
    else None
  }

  // No answer holds the quote it is put in, and none that comes later holds a
  // quote that an unfinished require waits for.
  predicate Clean(text: string, i: nat, answers: seq<string>)
    decreases |text| - i
  {
    if i >= |text| then true
    else match RequireAt(text, i)
      case Some(sp) => answers != [] && text[sp.open] !in answers[0] && Clean(text, sp.close + 1, answers[1..])
      case None =>
        var w := WaitingAt(text, i);
        (w.Some? ==> Without(answers, text[w.value])) && Clean(text, i + 1, answers)
  }

  predicate Without(answers: seq<string>, c: char) { forall k :: 0 <= k < |answers| ==> c !in answers[k] }

  // What a scan from i on reads.
  function Read(text: string, i: nat): seq<string>
    decreases |text| - i
  {
    if i >= |text| then []
    else match RequireAt(text, i)
      case Some(sp) => [Specifier(text, sp)] + Read(text, sp.close + 1)
      case None => Read(text, i + 1)
  }

  lemma {:induction false} ReadIs(text: string, i: nat)
    ensures Read(text, i) == Specifiers.Specifiers(text, Spans(RequireAt, text, i))
    decreases |text| - i
  {
    hide RequireAt, Specifier;
    if i < |text| {
      FoundAhead(text, i);
      match RequireAt(text, i)
      case Some(sp) =>
        ReadIs(text, sp.close + 1);
        ReadFirst(text, sp, Spans(RequireAt, text, sp.close + 1));
      case None => ReadIs(text, i + 1);
    }
  }

  lemma ReadFirst(text: string, sp: Span, rest: seq<Span>)
    ensures Specifiers.Specifiers(text, [sp] + rest) == [Specifier(text, sp)] + Specifiers.Specifiers(text, rest)
  {
    hide Specifier;
  }

  lemma FoundAhead(text: string, i: nat)
    ensures RequireAt(text, i).Some? ==> IsQuoted(text, i + 1, RequireAt(text, i).value)
  {
  }

  // ---- Two texts alike up to a quote or their ends -------------------------

  predicate IsQuote(c: char) { c == '"' || c == '\'' }

  ghost predicate Twins(a: string, i: nat, b: string, j: nat, n: nat) {
    && i + n <= |a| && j + n <= |b|
    && (forall x :: i <= x < i + n ==> a[x] == b[x - i + j])
    && (BothEnd(a, i, b, j, n) || (n > 0 && IsQuote(a[i + n - 1])))
  }

  predicate BothEnd(a: string, i: nat, b: string, j: nat, n: nat) { i + n == |a| && j + n == |b| }

  lemma TwinsAgain(a: string, i: nat, b: string, j: nat, n: nat)
    requires Twins(a, i, b, j, n)
    ensures Twins(b, j, a, i, n)
  {
    forall y | j <= y < j + n
      ensures b[y] == a[y - j + i]
    {
      assert a[y - j + i] == b[y];
    }
  }

  lemma NoQuoteWithin(text: string, i: nat, k: nat)
    requires StandsAt(text, i, REQUIRE) && k < |REQUIRE|
    ensures !IsQuote(text[i + k])
  {
    assert text[i..i + |REQUIRE|][k] == text[i + k];
  }

  lemma TwinStands(a: string, i: nat, b: string, j: nat, n: nat)
    requires Twins(a, i, b, j, n) && StandsAt(a, i, REQUIRE)
    ensures |REQUIRE| <= n && StandsAt(b, j, REQUIRE)
  {
    if n < |REQUIRE| {
      NoQuoteWithin(a, i, n - 1);
    }
    forall k | 0 <= k < |REQUIRE|
      ensures b[j + k] == REQUIRE[k]
    {
      assert a[i..i + |REQUIRE|][k] == a[i + k];
    }
    assert b[j..j + |REQUIRE|] == REQUIRE;
  }

  lemma {:induction false} TwinSkips(a: string, i: nat, b: string, j: nat, n: nat, k: nat)
    requires Twins(a, i, b, j, n) && k <= n && (k < n || BothEnd(a, i, b, j, n))
    ensures var s := SkipSpace(a, i + k) - i;
      s <= n && SkipSpace(b, j + k) == j + s && (s < n || BothEnd(a, i, b, j, n))
    decreases n - k
  {
    if k < n && IsSpace(a[i + k]) {
      assert !IsQuote(a[i + k]);
      TwinSkips(a, i, b, j, n, k + 1);
    }
  }

  lemma TwinQuotes(a: string, i: nat, b: string, j: nat, n: nat)
    requires Twins(a, i, b, j, n) && AfterIdent(a, i) == AfterIdent(b, j)
    ensures match QuoteStart(a, i)
      case None => QuoteStart(b, j) == None
      case Some(s) => s < i + n && QuoteStart(b, j) == Some(j + (s - i)) && b[j + (s - i)] == a[s]
  {
    hide StandsAt, SkipSpace;
    TwinsAgain(a, i, b, j, n);
    if StandsAt(a, i, REQUIRE) {
      TwinStands(a, i, b, j, n);
      TwinAfter(a, i, b, j, n);
    } else if StandsAt(b, j, REQUIRE) {
      TwinStands(b, j, a, i, n);
    }
  }

  // Behind the `require(` that both have.
  lemma TwinAfter(a: string, i: nat, b: string, j: nat, n: nat)
    requires Twins(a, i, b, j, n) && StandsAt(a, i, REQUIRE) && |REQUIRE| <= n
    ensures var s, t := SkipSpace(a, i + |REQUIRE|), SkipSpace(b, j + |REQUIRE|);
      t - j == s - i <= n && (s - i < n ==> s < |a| && t < |b| && b[t] == a[s])
        && (s - i == n ==> BothEnd(a, i, b, j, n))
  {
    if |REQUIRE| == n && !BothEnd(a, i, b, j, n) {
      NoQuoteWithin(a, i, n - 1);
    }
    TwinSkips(a, i, b, j, n, |REQUIRE|);
  }

  // ---- What the output holds -----------------------------------------------

  lemma {:induction false} FirstOf(text: string, i: nat, c: char)
    requires i <= |text|
    ensures match FindChar(text, i, c)
      case None => forall k :: i <= k < |text| ==> text[k] != c
      case Some(r) => forall k :: i <= k < r ==> text[k] != c
    decreases |text| - i
  {
    if i < |text| && text[i] != c { FirstOf(text, i + 1, c); }
  }

  // Found exactly there.
  lemma FoundAt(text: string, i: nat, c: char, r: nat)
    requires i <= r < |text| && text[r] == c && forall k :: i <= k < r ==> text[k] != c
    ensures FindChar(text, i, c) == Some(r)
  {
    FirstOf(text, i, c);
  }

  // The specifiers ahead of i, each in its place.
  ghost predicate Ahead(text: string, i: nat, spans: seq<Span>)
    decreases |spans|
  {
    spans != [] ==> IsQuoted(text, i, spans[0]) && Ahead(text, spans[0].close + 1, spans[1..])
  }

  lemma {:induction false} SpansAhead(text: string, i: nat, from: nat)
    requires from <= i
    ensures Ahead(text, from, Spans(RequireAt, text, i))
    decreases |text| - i
  {
    hide RequireAt;
    if i < |text| {
      FoundAhead(text, i);
      match RequireAt(text, i)
      case Some(sp) =>
        SpansAhead(text, sp.close + 1, sp.close + 1);
        assert Spans(RequireAt, text, i)[1..] == Spans(RequireAt, text, sp.close + 1);
      case None => SpansAhead(text, i + 1, from);
    }
  }

  // No such character left in text or answers, none in the output.
  lemma {:induction false} RestWithout(text: string, i: nat, spans: seq<Span>, answers: seq<string>, c: char)
    requires i <= |text| && Ahead(text, i, spans) && |answers| == |spans| && Without(answers, c)
    requires forall k :: i <= k < |text| ==> text[k] != c
    ensures c !in Rest(text, i, spans, answers)
    decreases |spans|
  {
    hide Rest;
    if spans == [] {
      RestEnds(text, i);
      SubWithout(text, i, |text|, c);
    } else {
      var sp := spans[0];
      RestStarts(text, i, spans, answers);
      SubWithout(text, i, sp.open + 1, c);
      SubWithout(text, sp.open, sp.open + 1, c);
      LaterWithout(answers, c);
      RestWithout(text, sp.close + 1, spans[1..], answers[1..], c);
    }
  }

  lemma LaterWithout(answers: seq<string>, c: char)
    requires Without(answers, c) && answers != []
    ensures c !in answers[0] && Without(answers[1..], c)
  {
  }

  lemma SubWithout(text: string, i: nat, e: nat, c: char)
    requires i <= e <= |text| && forall k :: i <= k < e ==> text[k] != c
    ensures c !in Sub(text, i, e)
  {
    SubIs(text, i, e);
  }

  lemma RestEnds(text: string, i: nat)
    ensures Rest(text, i, [], []) == Sub(text, i, |text|)
  {
  }

  // What an answer holds, the output holds.
  lemma {:induction false} RestHolds(text: string, i: nat, spans: seq<Span>, answers: seq<string>, c: char)
    requires |answers| == |spans| && !Without(answers, c)
    ensures spans != []
    ensures c in answers[0] + QuoteOf(text, spans[0].open) + Rest(text, spans[0].close + 1, spans[1..], answers[1..])
    decreases |spans|
  {
    var k :| 0 <= k < |answers| && c in answers[k];
    if k > 0 {
      assert answers[1..][k - 1] == answers[k];
      RestHolds(text, spans[0].close + 1, spans[1..], answers[1..], c);
    }
  }

  lemma {:induction false} RestIsRequoted(text: string, spans: seq<Span>, answers: seq<string>, n: nat)
    requires n <= |spans| == |answers|
    ensures Upto(text, spans, answers, n) + Rest(text, Behind(spans, n), spans[n..], answers[n..])
      == Requoted(text, spans, answers)
    decreases |spans| - n
  {
    hide Rest, Upto;
    if n < |spans| {
      RestIsRequoted(text, spans, answers, n + 1);
      var from, sp := Behind(spans, n), spans[n];
      assert spans[n..][1..] == spans[n + 1..] && answers[n..][1..] == answers[n + 1..];
      RestStarts(text, from, spans[n..], answers[n..]);
      UptoAdds(text, spans, answers, n);
      Regrouped(Upto(text, spans, answers, n), Sub(text, from, sp.open + 1), answers[n], QuoteOf(text, sp.open),
        Rest(text, sp.close + 1, spans[n + 1..], answers[n + 1..]));
    } else {
      assert spans[n..] == [] && answers[n..] == [];
      RestEnds(text, Behind(spans, n));
    }
  }

  lemma UptoAdds(text: string, spans: seq<Span>, answers: seq<string>, n: nat)
    requires n < |spans| == |answers|
    ensures Upto(text, spans, answers, n + 1)
      == Upto(text, spans, answers, n)
        + (Sub(text, Behind(spans, n), spans[n].open + 1) + answers[n] + QuoteOf(text, spans[n].open))
  {
  }

  lemma Regrouped(before: string, a: string, b: string, c: string, rest: string)
    ensures before + (a + b + c + rest) == before + (a + b + c) + rest
  {
  }

  // ---- Reading back --------------------------------------------------------

  // Text and output are alike up to the next specifier's quote.
  lemma RestTwins(text: string, i: nat, spans: seq<Span>, answers: seq<string>, out: string, j: nat)
    requires i <= |text| && j <= |out| && Ahead(text, i, spans) && |answers| == |spans|
    requires out[j..] == Rest(text, i, spans, answers)
    ensures Twins(text, i, out, j, if spans == [] then |text| - i else spans[0].open + 1 - i)
    ensures spans == [] ==> BothEnd(text, i, out, j, |text| - i)
  {
    hide Rest, Sub, QuoteOf;
    if spans == [] {
      RestEnds(text, i);
      assert Sub(text, i, |text|) + "" == Sub(text, i, |text|);
      CopiedFrom(text, i, |text|, out, j, "");
    } else {
      var sp := spans[0];
      var rest := answers[0] + QuoteOf(text, sp.open) + Rest(text, sp.close + 1, spans[1..], answers[1..]);
      RestCopies(text, i, spans, answers, rest);
      CopiedFrom(text, i, sp.open + 1, out, j, rest);
    }
  }

  lemma RestCopies(text: string, i: nat, spans: seq<Span>, answers: seq<string>, rest: string)
    requires |answers| == |spans| && spans != []
    requires rest == answers[0] + QuoteOf(text, spans[0].open)
      + Rest(text, spans[0].close + 1, spans[1..], answers[1..])
    ensures Rest(text, i, spans, answers) == Sub(text, i, spans[0].open + 1) + rest
  {
    hide Rest, Sub, QuoteOf;
    RestStarts(text, i, spans, answers);
  }

  lemma CopiedFrom(text: string, i: nat, e: nat, out: string, j: nat, rest: string)
    requires i <= e <= |text| && j <= |out| && out[j..] == Sub(text, i, e) + rest
    ensures j + e - i <= |out| && (rest == "" ==> j + e - i == |out|)
    ensures forall x :: i <= x < e ==> text[x] == out[x - i + j]
  {
    SubIs(text, i, e);
    forall x | i <= x < e
      ensures text[x] == out[x - i + j]
    {
      assert text[i..e][x - i] == text[x] && out[j..][x - i] == out[x - i + j];
    }
  }

  // Where the next answer stands in the output.
  lemma AnswerStands(text: string, i: nat, spans: seq<Span>, answers: seq<string>, out: string, j: nat)
    requires i <= |text| && j <= |out| && Ahead(text, i, spans) && |answers| == |spans| && spans != []
    requires out[j..] == Rest(text, i, spans, answers)
    ensures var sp, a := spans[0], answers[0];
      var o := j + sp.open - i;
      && o + 1 + |a| < |out| && out[o + 1..o + 1 + |a|] == a && out[o + 1 + |a|] == text[sp.open]
      && out[o + |a| + 2..] == Rest(text, sp.close + 1, spans[1..], answers[1..])
  {
    hide Rest;
    var sp, a := spans[0], answers[0];
    SubIs(text, i, sp.open + 1);
    SubIs(text, sp.open, sp.open + 1);
    RestStarts(text, i, spans, answers);
    Pieces(out, j, text[i..sp.open + 1], a, [text[sp.open]], Rest(text, sp.close + 1, spans[1..], answers[1..]));
  }

  lemma RestStarts(text: string, i: nat, spans: seq<Span>, answers: seq<string>)
    requires |answers| == |spans| && spans != []
    ensures Rest(text, i, spans, answers) ==
      Sub(text, i, spans[0].open + 1) + answers[0] + QuoteOf(text, spans[0].open)
        + Rest(text, spans[0].close + 1, spans[1..], answers[1..])
  {
  }

  lemma Pieces(out: string, j: nat, x: string, a: string, q: string, rest: string)
    requires j <= |out| && out[j..] == x + a + q + rest && |q| == 1
    ensures var o := j + |x|;
      o + |a| < |out| && out[o..o + |a|] == a && out[o + |a|] == q[0] && out[o + |a| + 1..] == rest
  {
    var o := j + |x|;
    var all := x + a + q + rest;
    assert all[|x|..|x| + |a|] == a && all[|x| + |a|] == q[0] && all[|x| + |a| + 1..] == rest;
    assert out[o..o + |a|] == out[j..][|x|..|x| + |a|];
    assert out[o + |a|] == out[j..][|x| + |a|];
    assert out[o + |a| + 1..] == out[j..][|x| + |a| + 1..];
  }

  lemma FoundIs(text: string, i: nat)
    ensures match QuoteStart(text, i)
      case None => RequireAt(text, i) == None
      case Some(s) => RequireAt(text, i) == QuotedAt(text, s)
  {
    hide StandsAt, SkipSpace, FindChar;
  }

  // The quotes of a specifier read back its answer if and only if the answer
  // does not close them.
  lemma QuotesRead(out: string, j: nat, o: nat, a: string)
    requires QuoteStart(out, j) == Some(o) && o + 1 + |a| < |out| && out[o + 1..o + 1 + |a|] == a
    requires out[o + 1 + |a|] == out[o]
    ensures out[o] !in a ==>
      RequireAt(out, j) == Some(Span(o, o + 1 + |a|)) && Specifier(out, Span(o, o + 1 + |a|)) == a
    ensures out[o] in a ==> RequireAt(out, j).Some? && Specifier(out, RequireAt(out, j).value) != a
  {
    hide QuoteStart, RequireAt;
    FoundIs(out, j);
    FirstOf(out, o + 1, out[o]);
    forall k | o + 1 <= k < o + 1 + |a|
      ensures out[k] == a[k - o - 1]
    {
      assert out[o + 1..o + 1 + |a|][k - o - 1] == out[k];
    }
    if out[o] !in a {
      FoundAt(out, o + 1, out[o], o + 1 + |a|);
      SubIs(out, o + 1, o + 1 + |a|);
    } else {
      var k :| 0 <= k < |a| && a[k] == out[o];
      assert out[o + 1 + k] == out[o];
      var e := FindChar(out, o + 1, out[o]).value;
      SubIs(out, o + 1, e);
    }
  }

  // An answer that holds a quote waited for: the waiting require reads up to
  // it, which is not the answer that should be read next.
  lemma WaitingReads(text: string, i: nat, spans: seq<Span>, answers: seq<string>, out: string, j: nat, s: nat, t: nat)
    requires i <= s < |text| && j <= |out| && Ahead(text, i, spans) && |answers| == |spans|
    requires out[j..] == Rest(text, i, spans, answers)
    requires spans != [] ==> s < spans[0].open
    requires t == j + s - i && QuoteStart(out, j) == Some(t) && out[t] == text[s]
    requires (forall k :: s < k < |text| ==> text[k] != text[s]) && !Without(answers, text[s])
    ensures RequireAt(out, j).Some? && Specifier(out, RequireAt(out, j).value) != answers[0]
  {
    hide Rest, QuoteStart, RequireAt, Ahead, FindChar;
    var q := text[s];
    RestHolds(text, i, spans, answers, q);
    FoundIs(out, j);
    FirstOf(out, t + 1, q);
    LaterHolds(text, i, spans, answers, out, j, q);
    var e :| j + spans[0].open + 1 - i <= e < |out| && out[e] == q;
    var r := FindChar(out, t + 1, q).value;
    SubIs(out, t + 1, r);
    NotYet(text, i, spans, answers, out, j, s, r);
  }

  lemma LaterHolds(text: string, i: nat, spans: seq<Span>, answers: seq<string>, out: string, j: nat, c: char)
    requires i <= |text| && j <= |out| && Ahead(text, i, spans) && |answers| == |spans| && spans != []
    requires out[j..] == Rest(text, i, spans, answers)
    requires c in answers[0] + QuoteOf(text, spans[0].open) + Rest(text, spans[0].close + 1, spans[1..], answers[1..])
    ensures exists e :: j + spans[0].open + 1 - i <= e < |out| && out[e] == c
  {
    var sp := spans[0];
    var tail := answers[0] + QuoteOf(text, sp.open) + Rest(text, sp.close + 1, spans[1..], answers[1..]);
    RestStarts(text, i, spans, answers);
    SubIs(text, i, sp.open + 1);
    assert out[j..] == text[i..sp.open + 1] + tail;
    var k :| 0 <= k < |tail| && tail[k] == c;
    assert out[j..][sp.open + 1 - i + k] == tail[k];
  }

  // The first such quote is in an answer that holds it, or behind the first.
  lemma NotYet(text: string, i: nat, spans: seq<Span>, answers: seq<string>, out: string, j: nat, s: nat, r: nat)
    requires i <= s < |text| && j <= |out| && Ahead(text, i, spans) && |answers| == |spans| && spans != []
    requires s < spans[0].open
    requires out[j..] == Rest(text, i, spans, answers)
    requires forall k :: s < k < |text| ==> text[k] != text[s]
    requires j + s - i + 1 <= r < |out| && out[r] == text[s]
    requires forall k :: j + s - i + 1 <= k < r ==> out[k] != text[s]
    ensures out[j + s - i + 1..r] != answers[0]
  {
    hide Rest;
    var q, t, sp, a := text[s], j + s - i, spans[0], answers[0];
    var o := j + sp.open - i;
    RestTwins(text, i, spans, answers, out, j);
    AnswerStands(text, i, spans, answers, out, j);
    if q in a {
      assert q !in out[t + 1..r];
    } else {
      forall k | t + 1 <= k <= o + |a|
        ensures out[k] != q
      {
        if k <= o { assert text[k - j + i] == out[k]; } else { assert out[o + 1..o + 1 + |a|][k - o - 1] == out[k]; }
      }
    }
  }

  // ---- The law -------------------------------------------------------------

  lemma SpansStep(text: string, i: nat)
    requires i < |text|
    ensures match RequireAt(text, i)
      case None => Spans(RequireAt, text, i) == Spans(RequireAt, text, i + 1)
      case Some(sp) => Spans(RequireAt, text, i) == [sp] + Spans(RequireAt, text, sp.close + 1)
  {
    hide RequireAt;
    FoundAhead(text, i);
  }

  lemma ReadStep(text: string, i: nat)
    requires i < |text|
    ensures match RequireAt(text, i)
      case None => Read(text, i) == Read(text, i + 1)
      case Some(sp) => Read(text, i) == [Specifier(text, sp)] + Read(text, sp.close + 1)
  {
    hide RequireAt, Specifier;
    FoundAhead(text, i);
  }

  // One character of text that starts no specifier.
  lemma RestOn(text: string, i: nat, spans: seq<Span>, answers: seq<string>)
    requires i < |text| && Ahead(text, i + 1, spans) && |answers| == |spans|
    ensures Rest(text, i, spans, answers) == [text[i]] + Rest(text, i + 1, spans, answers)
  {
    hide Rest;
    if spans == [] {
      RestEnds(text, i);
      RestEnds(text, i + 1);
      SubOn(text, i, |text|);
    } else {
      RestStarts(text, i, spans, answers);
      RestStarts(text, i + 1, spans, answers);
      SubOn(text, i, spans[0].open + 1);
    }
  }

  lemma SubOn(text: string, i: nat, e: nat)
    requires i < e <= |text|
    ensures Sub(text, i, e) == [text[i]] + Sub(text, i + 1, e)
  {
    SubIs(text, i, e);
    SubIs(text, i + 1, e);
    assert text[i..e] == [text[i]] + text[i + 1..e];
  }

  // The output from j on, where the text has come to i, reads the answers back.
  ghost predicate ReadsBack(out: string, j: nat, text: string, i: nat, answers: seq<string>) {
    Read(out, j) == answers <==> Clean(text, i, answers)
  }

  ghost predicate Stands(out: string, j: nat, text: string, i: nat, answers: seq<string>) {
    && i <= |text| && j <= |out| && |answers| == |Spans(RequireAt, text, i)|
    && out[j..] == Rest(text, i, Spans(RequireAt, text, i), answers) && AfterIdent(out, j) == AfterIdent(text, i)
  }

  lemma {:induction false} ReadsBackFrom(out: string, j: nat, text: string, i: nat, answers: seq<string>)
    requires Stands(out, j, text, i, answers)
    ensures ReadsBack(out, j, text, i, answers)
    decreases |text| - i
  {
    hide RequireAt, Stands, ReadsBack;
    if i >= |text| {
      NothingLeft(out, j, text, i, answers);
    } else {
      FoundAhead(text, i);
      match RequireAt(text, i) {
        case Some(sp) =>
          StandsBehind(out, j, text, i, answers, sp);
          if text[sp.open] !in answers[0] {
            ReadsBackFrom(out, j + sp.open - i + |answers[0]| + 2, text, sp.close + 1, answers[1..]);
          }
          AnswerRead(out, j, text, i, answers, sp);
        case None =>
          if WaitingAt(text, i).Some? && !Without(answers, text[WaitingAt(text, i).value]) {
            WaitingBreaks(out, j, text, i, answers);
          } else {
            StandsOn(out, j, text, i, answers);
            ReadsBackFrom(out, j + 1, text, i + 1, answers);
            NothingRead(out, j, text, i, answers);
          }
      }
    }
  }

  lemma NothingLeft(out: string, j: nat, text: string, i: nat, answers: seq<string>)
    requires Stands(out, j, text, i, answers) && i >= |text|
    ensures ReadsBack(out, j, text, i, answers)
  {
  }

  lemma StandsBehind(out: string, j: nat, text: string, i: nat, answers: seq<string>, sp: Span)
    requires Stands(out, j, text, i, answers) && i < |text| && RequireAt(text, i) == Some(sp)
    ensures answers != [] && i <= sp.open < sp.close < |text|
    ensures Stands(out, j + sp.open - i + |answers[0]| + 2, text, sp.close + 1, answers[1..])
  {
    hide RequireAt, Rest;
    SpansStep(text, i);
    FoundAhead(text, i);
    SpansAhead(text, i, i);
    AnswerStands(text, i, Spans(RequireAt, text, i), answers, out, j);
  }

  // At a specifier: its answer is read, or something else is.
  lemma AnswerRead(out: string, j: nat, text: string, i: nat, answers: seq<string>, sp: Span)
    requires Stands(out, j, text, i, answers) && i < |text| && RequireAt(text, i) == Some(sp)
    requires answers != [] && i <= sp.open < sp.close < |text|
    requires text[sp.open] !in answers[0] ==>
      ReadsBack(out, j + sp.open - i + |answers[0]| + 2, text, sp.close + 1, answers[1..])
    ensures ReadsBack(out, j, text, i, answers)
  {
    hide RequireAt, Specifier, Stands, Read, Clean, QuoteStart;
    var a, o := answers[0], j + sp.open - i;
    QuoteFound(out, j, text, i, answers, sp);
    QuotesRead(out, j, o, a);
    ReadStep(out, j);
    CleanStep(text, i, answers, sp);
    assert answers == [a] + answers[1..];
  }

  lemma CleanStep(text: string, i: nat, answers: seq<string>, sp: Span)
    requires i < |text| && RequireAt(text, i) == Some(sp) && answers != []
    ensures sp.open < |text| && sp.close < |text|
    ensures Clean(text, i, answers) <==> text[sp.open] !in answers[0] && Clean(text, sp.close + 1, answers[1..])
  {
    hide RequireAt;
    FoundAhead(text, i);
  }

  lemma QuoteFound(out: string, j: nat, text: string, i: nat, answers: seq<string>, sp: Span)
    requires Stands(out, j, text, i, answers) && i < |text| && RequireAt(text, i) == Some(sp)
    requires answers != [] && i <= sp.open < sp.close < |text|
    ensures var o, a := j + sp.open - i, answers[0];
      && o + 1 + |a| < |out| && out[o] == text[sp.open] == out[o + 1 + |a|] && out[o + 1..o + 1 + |a|] == a
      && QuoteStart(out, j) == Some(o)
  {
    hide RequireAt, Rest, QuoteStart;
    var spans := Spans(RequireAt, text, i);
    SpansStep(text, i);
    FoundAhead(text, i);
    SpansAhead(text, i, i);
    RestTwins(text, i, spans, answers, out, j);
    TwinQuotes(text, i, out, j, sp.open + 1 - i);
    FoundIs(text, i);
    AnswerStands(text, i, spans, answers, out, j);
  }

  lemma StandsOn(out: string, j: nat, text: string, i: nat, answers: seq<string>)
    requires Stands(out, j, text, i, answers) && i < |text| && RequireAt(text, i) == None
    ensures j < |out| && out[j] == text[i] && Stands(out, j + 1, text, i + 1, answers)
  {
    hide RequireAt, Rest;
    SpansStep(text, i);
    SpansAhead(text, i + 1, i + 1);
    RestOn(text, i, Spans(RequireAt, text, i), answers);
    assert out[j..][0] == text[i] && out[j + 1..] == out[j..][1..];
  }

  // Where no specifier starts and no quote is waited for in vain, none starts
  // in the output.
  lemma NothingRead(out: string, j: nat, text: string, i: nat, answers: seq<string>)
    requires Stands(out, j, text, i, answers) && i < |text| && RequireAt(text, i) == None && j < |out|
    requires var w := WaitingAt(text, i); w.Some? ==> Without(answers, text[w.value])
    requires ReadsBack(out, j + 1, text, i + 1, answers)
    ensures ReadsBack(out, j, text, i, answers)
  {
    hide RequireAt, Rest, QuoteStart;
    var spans := Spans(RequireAt, text, i);
    SpansAhead(text, i, i);
    RestTwins(text, i, spans, answers, out, j);
    TwinQuotes(text, i, out, j, if spans == [] then |text| - i else spans[0].open + 1 - i);
    FoundIs(text, i);
    FoundIs(out, j);
    if WaitingAt(text, i).Some? { StillWaiting(out, j, text, i, answers, WaitingAt(text, i).value); }
    ReadStep(out, j);
  }

  // What a waiting quote means.
  lemma Waits(text: string, i: nat, s: nat)
    requires WaitingAt(text, i) == Some(s)
    ensures QuoteStart(text, i) == Some(s) && i <= s < |text| && forall k :: s < k < |text| ==> text[k] != text[s]
  {
    hide QuoteStart;
    FirstOf(text, s + 1, text[s]);
  }

  // A quote waited for is no specifier's.
  lemma WaitsAhead(text: string, i: nat, spans: seq<Span>, s: nat)
    requires i <= s < |text| && Ahead(text, i, spans) && spans != [] && s <= spans[0].open
    requires forall k :: s < k < |text| ==> text[k] != text[s]
    ensures s < spans[0].open
  {
  }

  lemma StillWaiting(out: string, j: nat, text: string, i: nat, answers: seq<string>, s: nat)
    requires Stands(out, j, text, i, answers) && i < |text| && WaitingAt(text, i) == Some(s)
    requires Without(answers, text[s])
    requires QuoteStart(out, j) == Some(j + s - i) && out[j + s - i] == text[s]
    ensures RequireAt(out, j) == None
  {
    hide RequireAt, QuoteStart, Rest, WaitingAt;
    var spans, q, t := Spans(RequireAt, text, i), text[s], j + s - i;
    Waits(text, i, s);
    SpansAhead(text, i, i);
    RestTwins(text, i, spans, answers, out, j);
    TwinQuotes(text, i, out, j, if spans == [] then |text| - i else spans[0].open + 1 - i);
    if spans != [] { WaitsAhead(text, i, spans, s); }
    NoneLater(out, j, text, i, spans, answers, s);
    FoundIs(out, j);
    FirstOf(out, t + 1, q);
  }

  lemma NoneLater(out: string, j: nat, text: string, i: nat, spans: seq<Span>, answers: seq<string>, s: nat)
    requires i <= s < |text| && j <= |out| && Ahead(text, i, spans) && |answers| == |spans|
    requires out[j..] == Rest(text, i, spans, answers) && Without(answers, text[s])
    requires forall k :: s < k < |text| ==> text[k] != text[s]
    requires spans != [] ==> s < spans[0].open
    ensures forall k :: j + s - i < k < |out| ==> out[k] != text[s]
  {
    hide Rest;
    RestTwins(text, i, spans, answers, out, j);
    forall k | j + s - i < k < |out|
      ensures out[k] != text[s]
    {
      if k - j + i < |text| && (spans == [] || k - j + i <= spans[0].open) {
        assert text[k - j + i] == out[k];
      } else if spans != [] {
        NoneBehind(out, j, text, i, spans, answers, s, k);
      }
    }
  }

  lemma NoneBehind(out: string, j: nat, text: string, i: nat, spans: seq<Span>, answers: seq<string>, s: nat, k: nat)
    requires i <= s < |text| && j <= |out| && Ahead(text, i, spans) && |answers| == |spans| && spans != []
    requires out[j..] == Rest(text, i, spans, answers) && Without(answers, text[s])
    requires forall k :: s < k < |text| ==> text[k] != text[s]
    requires k < |out| && k - j + i > spans[0].open > s
    ensures out[k] != text[s]
  {
    hide Rest;
    var sp, a := spans[0], answers[0];
    var o := j + sp.open - i;
    AnswerStands(text, i, spans, answers, out, j);
    LaterWithout(answers, text[s]);
    if k <= o + |a| {
      assert out[o + 1..o + 1 + |a|][k - o - 1] == out[k];
    } else if k > o + 1 + |a| {
      RestWithout(text, sp.close + 1, spans[1..], answers[1..], text[s]);
      assert out[o + |a| + 2..][k - o - |a| - 2] == out[k];
    }
  }

  lemma WaitingBreaks(out: string, j: nat, text: string, i: nat, answers: seq<string>)
    requires Stands(out, j, text, i, answers) && i < |text| && RequireAt(text, i) == None
    requires WaitingAt(text, i).Some? && !Without(answers, text[WaitingAt(text, i).value])
    ensures ReadsBack(out, j, text, i, answers)
  {
    hide RequireAt, Rest, QuoteStart, WaitingAt, Specifier;
    var spans, s := Spans(RequireAt, text, i), WaitingAt(text, i).value;
    Waits(text, i, s);
    SpansAhead(text, i, i);
    RestTwins(text, i, spans, answers, out, j);
    TwinQuotes(text, i, out, j, if spans == [] then |text| - i else spans[0].open + 1 - i);
    if spans != [] { WaitsAhead(text, i, spans, s); }
    WaitingReads(text, i, spans, answers, out, j, s, j + s - i);
    ReadStep(out, j);
  }

  // Scanning the output again reads each answer back, and nothing else, exactly
  // when no answer closes its own quotes or those of an unfinished require.
  lemma ReadsBackExactly(text: string, answers: seq<string>)
    requires |answers| == |Spans(RequireAt, text, 0)|
    ensures var out := Requoted(text, Spans(RequireAt, text, 0), answers);
      Specifiers.Specifiers(out, Spans(RequireAt, out, 0)) == answers <==> Clean(text, 0, answers)
  {
    hide RequireAt, Rest, Requoted;
    var spans := Spans(RequireAt, text, 0);
    var out := Requoted(text, spans, answers);
    RestIsRequoted(text, spans, answers, 0);
    assert spans[0..] == spans && answers[0..] == answers && out[0..] == out;
    ReadsBackFrom(out, 0, text, 0, answers);
    ReadIs(out, 0);
  }

  // ---- Its condition, quote by quote ---------------------------------------

  // No require in the text waits for a quote that never comes.
  ghost predicate Finished(text: string) {
    forall i {:trigger WaitingAt(text, i)} :: 0 <= i < |text| ==> WaitingAt(text, i) == None
  }

  // Each answer is without the quote it is put in.
  ghost predicate QuotesHold(text: string, spans: seq<Span>, answers: seq<string>)
    requires |answers| == |spans|
  {
    forall k :: 0 <= k < |spans| ==> spans[k].open < |text| && text[spans[k].open] !in answers[k]
  }

  lemma {:induction false} CleanIs(text: string, i: nat, answers: seq<string>)
    requires i <= |text| && Finished(text) && |answers| == |Spans(RequireAt, text, i)|
    ensures Clean(text, i, answers) <==> QuotesHold(text, Spans(RequireAt, text, i), answers)
    decreases |text| - i
  {
    hide RequireAt, WaitingAt, QuotesHold;
    if i == |text| {
      NoQuotes(text);
    } else {
      SpansStep(text, i);
      FoundAhead(text, i);
      assert WaitingAt(text, i) == None;
      match RequireAt(text, i)
      case Some(sp) =>
        CleanIs(text, sp.close + 1, answers[1..]);
        QuotesMore(text, sp, Spans(RequireAt, text, sp.close + 1), answers);
      case None => CleanIs(text, i + 1, answers);
    }
  }

  lemma NoQuotes(text: string)
    ensures QuotesHold(text, [], [])
  {
  }

  lemma QuotesMore(text: string, sp: Span, spans: seq<Span>, answers: seq<string>)
    requires |answers| == |spans| + 1 && sp.open < |text|
    ensures QuotesHold(text, [sp] + spans, answers) <==>
      text[sp.open] !in answers[0] && QuotesHold(text, spans, answers[1..])
  {
    var all, rest := [sp] + spans, answers[1..];
    if QuotesHold(text, all, answers) {
      forall k | 0 <= k < |spans|
        ensures spans[k].open < |text| && text[spans[k].open] !in rest[k]
      {
        assert all[k + 1] == spans[k] && rest[k] == answers[k + 1];
      }
    }
  }

  // In a text with no unfinished require, the output reads each answer back
  // exactly when each answer is without the quote it is put in.
  lemma FinishedReadsBack(text: string, answers: seq<string>)
    requires Finished(text) && |answers| == |Spans(RequireAt, text, 0)|
    ensures var spans := Spans(RequireAt, text, 0);
      var out := Requoted(text, spans, answers);
      Specifiers.Specifiers(out, Spans(RequireAt, out, 0)) == answers <==> QuotesHold(text, spans, answers)
  {
    hide RequireAt, Requoted, Clean, QuotesHold;
    ReadsBackExactly(text, answers);
    CleanIs(text, 0, answers);
  }
}
