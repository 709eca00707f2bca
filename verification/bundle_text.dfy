// The bundle as text: the ids as printed, and the modules as the rewriter
// writes them (crates/bundler/src/lib.rs).
module BundleText {
  import opened Prelude
  import opened BundleGraph
  import opened Specifiers
  import opened ReadBack

  // ---- Printed ids ---------------------------------------------------------

  function Digit(d: nat): char
    requires d < 10
  {
    ('0' as int + d) as char
  }

  function Decimal(n: nat): (s: string)
    ensures s != "" && forall c :: c in s ==> '0' <= c <= '9'
  {
    if n < 10 then [Digit(n)] else Decimal(n / 10) + [Digit(n % 10)]
  }

  // Read as decimal digits, it is the number.
  function ReadDecimal(s: string): int {
    if s == "" then 0 else 10 * ReadDecimal(s[..|s| - 1]) + (s[|s| - 1] as int - 48)
  }

  lemma {:induction false} DecimalReads(n: nat)
    ensures ReadDecimal(Decimal(n)) == n
  {
    if n < 10 {
      assert [Digit(n)][..0] == "";
    } else {
      DecimalReads(n / 10);
      assert Decimal(n)[..|Decimal(n)| - 1] == Decimal(n / 10);
    }
  }

  lemma {:induction false} DecimalsApart(m: nat, n: nat)
    requires Decimal(m) == Decimal(n)
    ensures m == n
  {
    var s := Decimal(m);
    assert s[|s| - 1] == Digit(m % 10) == Digit(n % 10);
    if m >= 10 && n >= 10 {
      assert s[..|s| - 1] == Decimal(m / 10) == Decimal(n / 10);
      DecimalsApart(m / 10, n / 10);
    }
  }

  // What a key is written as.
  function Print(key: Key): string {
    match key
    case Rel(path) => "./" + path
    case Opaque(n) => "#" + Decimal(n)
    case Builtin(name) => name
  }

  // No builtin's name starts like an id.
  predicate PlainName(key: Key) { key.Builtin? ==> key.name != "" && key.name[0] != '.' && key.name[0] != '#' }

  lemma PrintStarts(key: Key)
    requires PlainName(key)
    ensures Print(key) != "" && (key.Rel? <==> Print(key)[0] == '.') && (key.Opaque? <==> Print(key)[0] == '#')
  {
  }

  // Printing tells keys apart, so looking a key up by its text is looking it up.
  lemma PrintsApart(a: Key, b: Key)
    requires PlainName(a) && PlainName(b) && Print(a) == Print(b)
    ensures a == b
  {
    PrintStarts(a);
    PrintStarts(b);
    if a.Rel? {
      assert a.path == Print(a)[2..] == b.path;
    } else if a.Opaque? {
      assert Decimal(a.n) == Print(a)[1..] == Decimal(b.n);
      DecimalsApart(a.n, b.n);
    }
  }

  function Mark(quote: Quote): char { if quote.Single? then '\'' else '"' }

  // Text that a pair of quotes holds as one string.
  predicate Readable(quote: Quote, s: string) { Mark(quote) !in s && '\n' !in s && '\r' !in s }

  // ---- A bundle that parses ------------------------------------------------

  predicate LoadReadable(linked: Linked) { linked.Load? ==> Readable(linked.quote, Print(linked.key)) }

  ghost predicate Parses(registry: map<Key, seq<Linked>>) {
    forall key :: key in registry ==> BodyParses(registry[key])
  }

  ghost predicate BodyParses(body: seq<Linked>) { forall i :: 0 <= i < |body| ==> LoadReadable(body[i]) }

  // The files as they stand: each required specifier is one string.
  ghost predicate SourcesParse(p: Project, entry: File) {
    forall f :: Reachable(p, entry, f) && f in p.files ==>
      forall i :: 0 <= i < |p.files[f]| && p.files[f][i].Req? ==> Readable(p.files[f][i].quote, p.files[f][i].spec)
  }

  // A file whose path under the working directory these quotes can hold.
  predicate Fits(p: Project, quote: Quote, g: File) { p.base <= g ==> Readable(quote, g[|p.base|..]) }

  predicate ItemFits(p: Project, f: File, item: Item) {
    item.Req? && !p.builtin(item.spec) ==> Fits(p, item.quote, p.resolve(f, item.spec))
  }

  // Every file is required in quotes that can hold its path.
  ghost predicate Quotable(p: Project, entry: File) {
    forall f :: Reachable(p, entry, f) && f in p.files ==>
      forall i :: 0 <= i < |p.files[f]| ==> ItemFits(p, f, p.files[f][i])
  }

  lemma SlashedReadable(quote: Quote, s: string)
    ensures Readable(quote, "./" + Slashed(s)) <==> Readable(quote, s)
  {
    SlashedHas(s, Mark(quote));
    SlashedHas(s, '\n');
    SlashedHas(s, '\r');
  }

  lemma SlashedHas(s: string, c: char)
    requires c != '/' && c != '\\' && c != '.'
    ensures c in "./" + Slashed(s) <==> c in s
  {
    var r := Slashed(s);
    if c in s {
      var i :| 0 <= i < |s| && s[i] == c;
      assert r[i] == c;
    }
  }

  // An id is readable in quotes exactly where its file fits in them.
  lemma IdReadable(p: Project, ids: Ids, quote: Quote, g: File)
    requires WellAssigned(p, ids) && g in ids
    ensures Readable(quote, Print(ids[g])) <==> Fits(p, quote, g)
  {
    hide Slashed;
    if p.base <= g { SlashedReadable(quote, g[|p.base|..]); }
  }

  lemma ItemReadable(p: Project, ids: Ids, f: File, item: Item)
    requires WellAssigned(p, ids)
    requires item.Req? ==> Readable(item.quote, item.spec)
    requires item.Req? && !p.builtin(item.spec) ==> p.resolve(f, item.spec) in ids
    ensures LoadReadable(LinkItem(p, ids, f, item)) <==> ItemFits(p, f, item)
  {
    hide Readable, Fits, WellAssigned;
    if item.Req? && !p.builtin(item.spec) { IdReadable(p, ids, item.quote, p.resolve(f, item.spec)); }
  }

  lemma BodyReadable(p: Project, ids: Ids, f: File, items: seq<Item>, body: seq<Linked>)
    requires WellAssigned(p, ids) && LinkedAs(p, ids, f, items, body) && TargetsIn(p, f, items, ids)
    requires forall i :: 0 <= i < |items| && items[i].Req? ==> Readable(items[i].quote, items[i].spec)
    ensures BodyParses(body) <==> forall i :: 0 <= i < |items| ==> ItemFits(p, f, items[i])
  {
    hide Readable, WellAssigned, LinkItem, ItemFits, LoadReadable;
    forall i | 0 <= i < |items|
      ensures LoadReadable(body[i]) <==> ItemFits(p, f, items[i])
    {
      ItemReadable(p, ids, f, items[i]);
    }
  }

  // A bundle of files that parse, with an id for each, parses exactly when the
  // quotes of every require can hold the path of the file required.
  lemma ParsesExact(p: Project, entry: File, ids: Ids, b: Bundle)
    requires Bundles(p, entry, ids, b) && Injective(ids) && SourcesParse(p, entry)
    ensures Parses(b.registry) <==> Quotable(p, entry)
  {
    hide BodyParses, WellAssigned, Injective, LinkedAs, TargetsIn, ItemFits, Readable, Reachable;
    forall f | f in ids
      ensures f in p.files && ids[f] in b.registry
      ensures BodyParses(b.registry[ids[f]]) <==> forall i :: 0 <= i < |p.files[f]| ==> ItemFits(p, f, p.files[f][i])
    {
      BodyReadable(p, ids, f, p.files[f], b.registry[ids[f]]);
    }
  }

  // ---- A module as text ----------------------------------------------------

  function QuoteAt(text: string, i: nat): Quote { if i < |text| && text[i] == '"' then Double else Single }

  function RequireItem(text: string, from: nat, sp: Span): Item {
    Req(Sub(text, from, sp.open), QuoteAt(text, sp.open), Specifier(text, sp))
  }

  function ItemsUpto(text: string, spans: seq<Span>, n: nat): seq<Item>
    requires n <= |spans|
  {
    if n == 0 then [] else ItemsUpto(text, spans, n - 1) + [RequireItem(text, Behind(spans, n - 1), spans[n - 1])]
  }

  // A module's text as the rewriter sees it: a require for each specifier that
  // it finds, and the code behind the last.
  function ItemsOf(text: string): seq<Item> {
    var spans := Spans(RequireAt, text, 0);
    ItemsUpto(text, spans, |spans|) + [Code(Sub(text, Behind(spans, |spans|), |text|))]
  }

  function EmitPiece(linked: Linked): string {
    match linked
    case Plain(text) => text
    case Load(text, quote, key) => text + [Mark(quote)] + Print(key) + [Mark(quote)]
  }

  // A linked body as it is written out.
  function EmitText(body: seq<Linked>): string {
    if body == [] then "" else EmitText(body[..|body| - 1]) + EmitPiece(body[|body| - 1])
  }

  // The ids written into it, first to last.
  function Keys(body: seq<Linked>): seq<string> {
    if body == [] then []
    else
      var last := body[|body| - 1];
      Keys(body[..|body| - 1]) + (if last.Load? then [Print(last.key)] else [])
  }

  lemma EmitNext(body: seq<Linked>, last: Linked)
    ensures EmitText(body + [last]) == EmitText(body) + EmitPiece(last)
    ensures Keys(body + [last]) == Keys(body) + (if last.Load? then [Print(last.key)] else [])
  {
    assert (body + [last])[..|body|] == body;
  }

  // ---- The rewriter writes the linked module -------------------------------

  lemma {:induction false} SpansQuoted(text: string, i: nat, k: nat)
    requires k < |Spans(RequireAt, text, i)|
    ensures IsQuoted(text, i, Spans(RequireAt, text, i)[k])
    decreases |text| - i
  {
    hide RequireAt;
    SpansStep(text, i);
    FoundAhead(text, i);
    match RequireAt(text, i)
    case Some(sp) => if k > 0 { SpansQuoted(text, sp.close + 1, k - 1); }
    case None => SpansQuoted(text, i + 1, k);
  }

  lemma PieceIs(text: string, from: nat, sp: Span, key: Key)
    requires from <= sp.open && IsQuoted(text, from, sp)
    ensures EmitPiece(Load(Sub(text, from, sp.open), QuoteAt(text, sp.open), key)) == Piece(text, from, sp, Print(key))
  {
    hide Print;
    SubIs(text, sp.open, sp.open + 1);
    assert [Mark(QuoteAt(text, sp.open))] == text[sp.open..sp.open + 1];
  }

  lemma InOrderAt(text: string, k: nat)
    requires k < |Spans(RequireAt, text, 0)|
    ensures var spans := Spans(RequireAt, text, 0);
      Behind(spans, k) <= spans[k].open && IsQuoted(text, Behind(spans, k), spans[k])
  {
    hide RequireAt;
    var spans := Spans(RequireAt, text, 0);
    SpansQuoted(text, 0, k);
    SpansAhead(text, 0, 0);
    AheadAt(text, 0, spans, k);
  }

  lemma {:induction false} AheadAt(text: string, i: nat, spans: seq<Span>, k: nat)
    requires Ahead(text, i, spans) && k < |spans|
    ensures (if k == 0 then i else spans[k - 1].close + 1) <= spans[k].open
    decreases k
  {
    if k > 0 { AheadAt(text, spans[0].close + 1, spans[1..], k - 1); }
  }

  lemma {:induction false} ItemsLength(text: string, spans: seq<Span>, n: nat)
    requires n <= |spans|
    ensures |ItemsUpto(text, spans, n)| == n
  {
    if n > 0 { ItemsLength(text, spans, n - 1); }
  }

  // The first n requires, linked.
  function Body(p: Project, f: File, text: string, spans: seq<Span>, ids: Ids, n: nat): seq<Linked>
    requires n <= |spans|
  {
    LinkAll(p, f, ItemsUpto(text, spans, n), ids).body
  }

  // Linking one more require adds one id in its quotes.
  lemma LinkUpto(p: Project, f: File, text: string, spans: seq<Span>, ids: Ids, n: nat) returns (key: Key)
    requires 0 < n <= |spans|
    ensures var sp := spans[n - 1];
      Body(p, f, text, spans, ids, n)
      == Body(p, f, text, spans, ids, n - 1)
        + [Load(Sub(text, Behind(spans, n - 1), sp.open), QuoteAt(text, sp.open), key)]
  {
    hide RequireAt, Specifier;
    var items := ItemsUpto(text, spans, n);
    ItemsLength(text, spans, n);
    assert items[..|items| - 1] == ItemsUpto(text, spans, n - 1);
    key := LinkItem(p, LinkAll(p, f, items, ids).ids, f, items[n - 1]).key;
  }

  lemma NoneLinked(p: Project, f: File, text: string, spans: seq<Span>, ids: Ids)
    ensures Body(p, f, text, spans, ids, 0) == [] && EmitText([]) == "" && Keys([]) == []
  {
  }

  lemma {:induction false} KeysAreAsMany(p: Project, f: File, text: string, spans: seq<Span>, ids: Ids, n: nat)
    requires n <= |spans|
    ensures |Keys(Body(p, f, text, spans, ids, n))| == n
  {
    hide Body, RequireAt, Print, Keys, EmitText, EmitPiece, Specifier, Sub;
    if n > 0 {
      var key := LinkUpto(p, f, text, spans, ids, n);
      var sp := spans[n - 1];
      KeysAreAsMany(p, f, text, spans, ids, n - 1);
      EmitNext(Body(p, f, text, spans, ids, n - 1),
        Load(Sub(text, Behind(spans, n - 1), sp.open), QuoteAt(text, sp.open), key));
    } else {
      NoneLinked(p, f, text, spans, ids);
    }
  }

  lemma OneLess(strs: seq<string>, n: nat, keys: seq<string>, last: string)
    requires 0 < n <= |strs| && strs[..n] == keys + [last] && |keys| == n - 1
    ensures strs[..n - 1] == keys && strs[n - 1] == last
  {
    assert strs[..n][..n - 1] == strs[..n - 1] && strs[..n][n - 1] == strs[n - 1];
  }

  // The first n requires are written as the rewriter writes them.
  lemma {:induction false} EmitsUpto(p: Project, f: File, text: string, ids: Ids, strs: seq<string>, n: nat)
    requires var spans := Spans(RequireAt, text, 0);
      n <= |spans| == |strs| && strs[..n] == Keys(Body(p, f, text, spans, ids, n))
    ensures var spans := Spans(RequireAt, text, 0);
      EmitText(Body(p, f, text, spans, ids, n)) == Upto(text, spans, strs, n)
  {
    hide Body, RequireAt, Print, EmitText, EmitPiece, Keys, Piece, Specifier;
    var spans := Spans(RequireAt, text, 0);
    if n == 0 {
      NoneLinked(p, f, text, spans, ids);
    } else {
      var key := LinkUpto(p, f, text, spans, ids, n);
      var sp, before := spans[n - 1], Body(p, f, text, spans, ids, n - 1);
      var last := Load(Sub(text, Behind(spans, n - 1), sp.open), QuoteAt(text, sp.open), key);
      EmitNext(before, last);
      KeysAreAsMany(p, f, text, spans, ids, n - 1);
      OneLess(strs, n, Keys(before), Print(key));
      EmitsUpto(p, f, text, ids, strs, n - 1);
      InOrderAt(text, n - 1);
      PieceIs(text, Behind(spans, n - 1), sp, key);
    }
  }

  // The ids that a module's requires are linked to, as they are written.
  function Answers(p: Project, f: File, text: string, ids: Ids): seq<string> {
    Keys(LinkAll(p, f, ItemsOf(text), ids).body)
  }

  lemma LinkedTail(p: Project, f: File, text: string, ids: Ids)
    ensures var spans := Spans(RequireAt, text, 0);
      var n := |spans|;
      LinkAll(p, f, ItemsOf(text), ids).body
        == Body(p, f, text, spans, ids, n) + [Plain(Sub(text, Behind(spans, n), |text|))]
  {
    hide RequireAt, ItemsUpto;
    var spans := Spans(RequireAt, text, 0);
    var items := ItemsOf(text);
    assert items[..|items| - 1] == ItemsUpto(text, spans, |spans|);
  }

  // A linked module is written as the rewriter writes its text, with the ids
  // for answers.
  lemma EmitsRewritten(p: Project, f: File, text: string, ids: Ids)
    ensures var spans, answers := Spans(RequireAt, text, 0), Answers(p, f, text, ids);
      && |answers| == |spans|
      && EmitText(LinkAll(p, f, ItemsOf(text), ids).body) == Requoted(text, spans, answers)
  {
    hide RequireAt, Body, LinkAll, ItemsOf;
    var spans := Spans(RequireAt, text, 0);
    var n := |spans|;
    var body, answers := Body(p, f, text, spans, ids, n), Answers(p, f, text, ids);
    LinkedTail(p, f, text, ids);
    EmitNext(body, Plain(Sub(text, Behind(spans, n), |text|)));
    KeysAreAsMany(p, f, text, spans, ids, n);
    assert answers == Keys(body) == answers[..n];
    EmitsUpto(p, f, text, ids, answers, n);
  }

  // One module of the bundle: its requires rewritten, new targets queued.
  method RewriteModule(p: Project, f: File, text: string, ids0: Ids, queued0: set<File>, queue0: seq<File>)
    returns (out: string, ids: Ids, queued: set<File>, queue: seq<File>)
    requires queued0 == ids0.Keys
    ensures var l := LinkAll(p, f, ItemsOf(text), ids0);
      out == EmitText(l.body) && ids == l.ids && queued == ids.Keys && queue == queue0 + l.added
  {
    hide RequireAt, LinkAll, ItemsOf, EmitText, Requoted;
    var body, asked;
    body, ids, queued, queue := LinkModule(p, f, ItemsOf(text), ids0, queued0, queue0);
    EmitsRewritten(p, f, text, ids0);
    BothFindQuoted();
    out, asked := Rewrite(RequireAt, text, Keys(body));
  }

  // ---- Reading the bundle back ---------------------------------------------

  // So far each answer is without the quote it is put in.
  ghost predicate HoldSoFar(text: string, spans: seq<Span>, strs: seq<string>) {
    |strs| <= |spans| && forall k :: 0 <= k < |strs| ==> spans[k].open < |text| && text[spans[k].open] !in strs[k]
  }

  lemma HoldNext(text: string, from: nat, spans: seq<Span>, strs: seq<string>, last: Linked)
    requires HoldSoFar(text, spans, strs) && |strs| < |spans| && IsQuoted(text, from, spans[|strs|])
    requires last.Load? && last.quote == QuoteAt(text, spans[|strs|].open) && LoadReadable(last)
    ensures HoldSoFar(text, spans, strs + [Print(last.key)])
  {
    hide Print;
  }

  lemma {:induction false} ParsedKeys(p: Project, f: File, text: string, ids: Ids, n: nat)
    requires n <= |Spans(RequireAt, text, 0)| && BodyParses(Body(p, f, text, Spans(RequireAt, text, 0), ids, n))
    ensures var spans := Spans(RequireAt, text, 0); HoldSoFar(text, spans, Keys(Body(p, f, text, spans, ids, n)))
  {
    hide Body, RequireAt, Print, HoldSoFar, BodyParses, LoadReadable, EmitText, EmitPiece, Keys, Specifier;
    var spans := Spans(RequireAt, text, 0);
    if n > 0 {
      var key := LinkUpto(p, f, text, spans, ids, n);
      var sp, before := spans[n - 1], Body(p, f, text, spans, ids, n - 1);
      var last := Load(Sub(text, Behind(spans, n - 1), sp.open), QuoteAt(text, sp.open), key);
      ParsesParts(before, last);
      EmitNext(before, last);
      ParsedKeys(p, f, text, ids, n - 1);
      KeysAreAsMany(p, f, text, spans, ids, n - 1);
      InOrderAt(text, n - 1);
      HoldNext(text, Behind(spans, n - 1), spans, Keys(before), last);
    } else {
      NoneLinked(p, f, text, spans, ids);
      NoneHeld(text, spans);
    }
  }

  lemma NoneHeld(text: string, spans: seq<Span>)
    ensures HoldSoFar(text, spans, Keys([]))
  {
  }

  lemma ParsesParts(before: seq<Linked>, last: Linked)
    requires BodyParses(before + [last])
    ensures BodyParses(before) && LoadReadable(last)
  {
    hide LoadReadable;
    assert forall i :: 0 <= i < |before| ==> (before + [last])[i] == before[i];
    assert (before + [last])[|before|] == last;
  }

  // A module that parses as linked reads back as it was linked: scanning what
  // was written finds each id, and nothing else.
  lemma ParsedReadsBack(p: Project, f: File, text: string, ids: Ids)
    requires Finished(text) && BodyParses(LinkAll(p, f, ItemsOf(text), ids).body)
    ensures var out := EmitText(LinkAll(p, f, ItemsOf(text), ids).body);
      Specifiers.Specifiers(out, Spans(RequireAt, out, 0)) == Answers(p, f, text, ids)
  {
    hide RequireAt, LinkAll, ItemsOf, Body, Requoted, BodyParses;
    var spans := Spans(RequireAt, text, 0);
    var tail := Plain(Sub(text, Behind(spans, |spans|), |text|));
    EmitsRewritten(p, f, text, ids);
    LinkedTail(p, f, text, ids);
    ParsesParts(Body(p, f, text, spans, ids, |spans|), tail);
    EmitNext(Body(p, f, text, spans, ids, |spans|), tail);
    ParsedKeys(p, f, text, ids, |spans|);
    FinishedReadsBack(text, Answers(p, f, text, ids));
  }
}
