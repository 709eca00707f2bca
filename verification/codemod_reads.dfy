// What a rewritten call reads, said of the text alone (crates/cli/src/main.rs).
module CodemodReads {
  import opened Prelude
  import opened Codemod
  import opened CodemodTheorems
  import opened CodemodNeedles
  import Finders
  import Specifiers

  // ---- Arguments by their structure ----------------------------------------

  datatype Unit = Char(c: char) | Escaped(c: char)

  // A character outside strings and brackets, a string, or a bracketed stretch.
  datatype Piece = Bare(c: char) | Quoted(mark: char, body: seq<Unit>) | Group(open: char, inside: seq<Piece>)

  function Closer(open: char): char { if open == '(' then ')' else if open == '[' then ']' else '}' }

  function SpellUnit(u: Unit): string { match u case Char(c) => [c] case Escaped(c) => ['\\', c] }

  function SpellUnits(body: seq<Unit>): string { if body == [] then "" else SpellUnit(body[0]) + SpellUnits(body[1..]) }

  function SpellPiece(p: Piece): string {
    match p
    case Bare(c) => [c]
    case Quoted(mark, body) => [mark] + SpellUnits(body) + [mark]
    case Group(open, inside) => [open] + Spell(inside) + [Closer(open)]
  }

  function Spell(ps: seq<Piece>): string { if ps == [] then "" else SpellPiece(ps[0]) + Spell(ps[1..]) }

  predicate ProperUnits(mark: char, body: seq<Unit>) {
    forall k :: 0 <= k < |body| && body[k].Char? ==> body[k].c != mark && body[k].c != '\\'
  }

  predicate ProperPiece(p: Piece) {
    match p
    case Bare(c) => c !in {'"', '\'', '`', '(', ')', '[', ']', '{', '}'}
    case Quoted(mark, body) => mark in {'"', '\'', '`'} && ProperUnits(mark, body)
    case Group(open, inside) => open in {'(', '[', '{'} && Proper(inside)
  }

  predicate Proper(ps: seq<Piece>) { forall k :: 0 <= k < |ps| ==> ProperPiece(ps[k]) }

  // One argument: strings and brackets end within it, and no comma is outside
  // of them.
  predicate IsArgument(ps: seq<Piece>) { Proper(ps) && forall k :: 0 <= k < |ps| ==> ps[k] != Bare(',') }

  // ---- How the scanners take it --------------------------------------------

  lemma WalkTwo(a: string, b: string, p: Paren, q: Paren)
    requires Walk(a, p) == q
    ensures Walk(a + b, p) == Walk(b, q)
  {
    WalkBoth(a, b, p);
  }

  lemma MarksOne(c: char, m: Mark)
    ensures Marks([c], m) == NextMark(m, c)
  {
    assert [c][..0] == [];
  }

  function Within(mark: char): Quote
    requires MarkOf(mark).Some?
  {
    Str(MarkOf(mark).value, false)
  }

  lemma MarksDiffer(mark: char, c: char)
    requires MarkOf(mark).Some? && c != mark
    ensures MarkOf(c) != MarkOf(mark)
  {
  }

  // A string's inside leaves either scanner in the string.
  lemma {:induction false} InString(mark: char, body: seq<Unit>, d: nat, e: int)
    requires MarkOf(mark).Some? && ProperUnits(mark, body)
    ensures Walk(SpellUnits(body), Open(Within(mark), d)) == Open(Within(mark), d)
    ensures Marks(SpellUnits(body), Mark(Within(mark), e)) == Mark(Within(mark), e)
  {
    if body != [] {
      var u, more := SpellUnit(body[0]), SpellUnits(body[1..]);
      UnitInString(mark, body[0], d, e);
      InString(mark, body[1..], d, e);
      WalkBoth(u, more, Open(Within(mark), d));
      MarksBoth(u, more, Mark(Within(mark), e));
    }
  }

  lemma UnitInString(mark: char, u: Unit, d: nat, e: int)
    requires MarkOf(mark).Some? && (u.Char? ==> u.c != mark && u.c != '\\')
    ensures Walk(SpellUnit(u), Open(Within(mark), d)) == Open(Within(mark), d)
    ensures Marks(SpellUnit(u), Mark(Within(mark), e)) == Mark(Within(mark), e)
  {
    var p, m := Open(Within(mark), d), Mark(Within(mark), e);
    match u
    case Char(c) =>
      MarksDiffer(mark, c);
      WalkOne(c, p);
      MarksOne(c, m);
    case Escaped(c) =>
      assert ['\\', c] == ['\\'] + [c];
      WalkBoth(['\\'], [c], p);
      WalkOne('\\', p);
      WalkOne(c, NextParen(p, '\\'));
      MarksBoth(['\\'], [c], m);
      MarksOne('\\', m);
      MarksOne(c, NextMark(m, '\\'));
  }

  // A whole string leaves both where they were.
  lemma StringPasses(mark: char, body: seq<Unit>, d: nat, e: int)
    requires mark in {'"', '\'', '`'} && ProperUnits(mark, body)
    ensures Walk([mark] + SpellUnits(body) + [mark], Open(Code, d)) == Open(Code, d)
    ensures Marks([mark] + SpellUnits(body) + [mark], Level(e)) == Level(e)
  {
    InString(mark, body, d, e);
    var inside, p, m := SpellUnits(body), Open(Code, d), Level(e);
    WalkBoth([mark] + inside, [mark], p);
    WalkBoth([mark], inside, p);
    WalkOne(mark, p);
    WalkOne(mark, Open(Within(mark), d));
    MarksBoth([mark] + inside, [mark], m);
    MarksBoth([mark], inside, m);
    MarksOne(mark, m);
    MarksOne(mark, Mark(Within(mark), e));
  }

  // So does every proper piece, inside a call.
  lemma {:induction false} PiecePasses(p: Piece, d: nat, e: int)
    requires ProperPiece(p) && d >= 1
    ensures Walk(SpellPiece(p), Open(Code, d)) == Open(Code, d)
    ensures Marks(SpellPiece(p), Level(e)) == Level(e)
    decreases p, 0
  {
    match p
    case Bare(c) =>
      WalkOne(c, Open(Code, d));
      MarksOne(c, Level(e));
    case Quoted(mark, body) => StringPasses(mark, body, d, e);
    case Group(open, inside) =>
      PiecesPass(inside, if open == '(' then d + 1 else d, e + 1);
      GroupPasses(open, Spell(inside), d, e);
  }

  lemma GroupPasses(open: char, inside: string, d: nat, e: int)
    requires open in {'(', '[', '{'} && d >= 1
    requires var d' := if open == '(' then d + 1 else d; Walk(inside, Open(Code, d')) == Open(Code, d')
    requires Marks(inside, Level(e + 1)) == Level(e + 1)
    ensures Walk([open] + inside + [Closer(open)], Open(Code, d)) == Open(Code, d)
    ensures Marks([open] + inside + [Closer(open)], Level(e)) == Level(e)
  {
    var close, p, m := Closer(open), Open(Code, d), Level(e);
    var d' := if open == '(' then d + 1 else d;
    WalkBoth([open] + inside, [close], p);
    WalkBoth([open], inside, p);
    WalkOne(open, p);
    WalkOne(close, Open(Code, d'));
    MarksBoth([open] + inside, [close], m);
    MarksBoth([open], inside, m);
    MarksOne(open, m);
    MarksOne(close, Level(e + 1));
  }

  lemma {:induction false} PiecesPass(ps: seq<Piece>, d: nat, e: int)
    requires Proper(ps) && d >= 1
    ensures Walk(Spell(ps), Open(Code, d)) == Open(Code, d)
    ensures Marks(Spell(ps), Level(e)) == Level(e)
    decreases ps, 1
  {
    if ps != [] {
      var first, more := SpellPiece(ps[0]), Spell(ps[1..]);
      PiecePasses(ps[0], d, e);
      PiecesPass(ps[1..], d, e);
      WalkBoth(first, more, Open(Code, d));
      MarksBoth(first, more, Level(e));
    }
  }

  // ---- Commas --------------------------------------------------------------

  lemma CommasOne(c: char, m: Mark)
    ensures Commas([c], m, 0) == if c == ',' && m == Level(0) then 1 else 0
  {
    assert [c][..0] == [];
  }

  lemma UnitNoCommas(mark: char, u: Unit, e: int)
    requires MarkOf(mark).Some? && (u.Char? ==> u.c != mark && u.c != '\\')
    ensures Commas(SpellUnit(u), Mark(Within(mark), e), 0) == 0
  {
    var m := Mark(Within(mark), e);
    match u
    case Char(c) => CommasOne(c, m);
    case Escaped(c) =>
      assert ['\\', c] == ['\\'] + [c];
      CommasBoth(['\\'], [c], m, 0);
      CommasOne('\\', m);
      MarksOne('\\', m);
      CommasOne(c, NextMark(m, '\\'));
  }

  lemma {:induction false} StringNoCommas(mark: char, body: seq<Unit>, e: int)
    requires MarkOf(mark).Some? && ProperUnits(mark, body)
    ensures Commas(SpellUnits(body), Mark(Within(mark), e), 0) == 0
  {
    if body != [] {
      var u, more := SpellUnit(body[0]), SpellUnits(body[1..]);
      UnitNoCommas(mark, body[0], e);
      UnitInString(mark, body[0], 0, e);
      StringNoCommas(mark, body[1..], e);
      CommasBoth(u, more, Mark(Within(mark), e), 0);
    }
  }

  lemma AroundNoCommas(first: char, inside: string, last: char, m: Mark, m1: Mark, m2: Mark)
    requires first != ',' && last != ','
    requires m1 == NextMark(m, first) && m2 == Marks(inside, m1) && Commas(inside, m1, 0) == 0
    ensures Commas([first] + inside + [last], m, 0) == 0
  {
    CommasBoth([first] + inside, [last], m, 0);
    CommasBoth([first], inside, m, 0);
    CommasOne(first, m);
    MarksOne(first, m);
    MarksBoth([first], inside, m);
    CommasOne(last, m2);
  }

  lemma {:induction false} PieceNoCommas(p: Piece, e: nat)
    requires ProperPiece(p) && (e >= 1 || p != Bare(','))
    ensures Commas(SpellPiece(p), Level(e), 0) == 0
    decreases p, 0
  {
    match p
    case Bare(c) => CommasOne(c, Level(e));
    case Quoted(mark, body) =>
      StringNoCommas(mark, body, e);
      AroundNoCommas(mark, SpellUnits(body), mark, Level(e), Mark(Within(mark), e),
        Marks(SpellUnits(body), Mark(Within(mark), e)));
    case Group(open, inside) =>
      NoCommasIn(inside, e + 1);
      AroundNoCommas(open, Spell(inside), Closer(open), Level(e), Level(e + 1), Marks(Spell(inside), Level(e + 1)));
  }

  // No comma of an argument splits it, and none in brackets does.
  lemma {:induction false} NoCommasIn(ps: seq<Piece>, e: nat)
    requires Proper(ps) && (e >= 1 || IsArgument(ps))
    ensures Commas(Spell(ps), Level(e), 0) == 0
    decreases ps, 1
  {
    if ps != [] {
      PieceNoCommas(ps[0], e);
      NoCommasIn(ps[1..], e);
      PiecePasses(ps[0], 1, e);
      CommasBoth(SpellPiece(ps[0]), Spell(ps[1..]), Level(e), 0);
    }
  }

  // ---- Splitting arguments -------------------------------------------------

  lemma {:induction false} NoneSplit(x: string, u: string)
    requires Commas(u, Marks(x, Level(0)), 0) == 0
    ensures SplitAll(x + u) == Args(SplitAll(x).done, SplitAll(x).cur + u)
  {
    if u == "" {
      assert x + u == x && SplitAll(x).cur + u == SplitAll(x).cur;
    } else {
      var before, c := u[..|u| - 1], u[|u| - 1];
      Tail(x, u);
      NoneSplit(x, before);
      MarksBoth(x, before, Level(0));
      assert SplitAll(x).cur + u == SplitAll(x).cur + before + [c];
    }
  }

  // The arguments, with commas between.
  function Listed(args: seq<seq<Piece>>): string
    requires args != []
  {
    if |args| == 1 then Spell(args[0]) else Listed(args[..|args| - 1]) + "," + Spell(args[|args| - 1])
  }

  function Texts(args: seq<seq<Piece>>): seq<string> {
    if args == [] then [] else Texts(args[..|args| - 1]) + [Spell(args[|args| - 1])]
  }

  predicate AreArguments(args: seq<seq<Piece>>) { forall k :: 0 <= k < |args| ==> IsArgument(args[k]) }

  lemma {:induction false} SplitsListed(args: seq<seq<Piece>>)
    requires args != [] && AreArguments(args)
    ensures SplitAll(Listed(args)) == Args(Texts(args[..|args| - 1]), Spell(args[|args| - 1]))
    ensures Marks(Listed(args), Level(0)) == Level(0)
    ensures forall d: nat :: d >= 1 ==> Walk(Listed(args), Open(Code, d)) == Open(Code, d)
  {
    var last := args[|args| - 1];
    NoCommasIn(last, 0);
    forall d: nat | d >= 1
      ensures Walk(Spell(last), Open(Code, d)) == Open(Code, d) && Marks(Spell(last), Level(0)) == Level(0)
    {
      PiecesPass(last, d, 0);
    }
    assert Marks(Spell(last), Level(0)) == Level(0) by { PiecesPass(last, 1, 0); }
    if |args| == 1 {
      NoneSplit("", Spell(last));
      assert "" + Spell(last) == Spell(last);
    } else {
      var before := args[..|args| - 1];
      SplitsListed(before);
      OneMoreSplit(Listed(before), Spell(last), Texts(before[..|before| - 1]), Spell(before[|before| - 1]));
      forall d: nat | d >= 1
        ensures Walk(Listed(args), Open(Code, d)) == Open(Code, d)
      {
        OneMoreWalk(Listed(before), Spell(last), d);
      }
      assert Texts(before) == Texts(before[..|before| - 1]) + [Spell(before[|before| - 1])];
    }
  }

  lemma OneMoreSplit(x: string, u: string, done: seq<string>, cur: string)
    requires SplitAll(x) == Args(done, cur) && Marks(x, Level(0)) == Level(0)
    requires Commas(u, Level(0), 0) == 0 && Marks(u, Level(0)) == Level(0)
    ensures SplitAll(x + "," + u) == Args(done + [cur], u) && Marks(x + "," + u, Level(0)) == Level(0)
  {
    var y := x + ",";
    assert y[..|y| - 1] == x && y[|y| - 1] == ',';
    MarksBoth(x, ",", Level(0));
    MarksOne(',', Level(0));
    NoneSplit(y, u);
    MarksBoth(y, u, Level(0));
    assert "" + u == u;
  }

  lemma OneMoreWalk(x: string, u: string, d: nat)
    requires Walk(x, Open(Code, d)) == Open(Code, d) && Walk(u, Open(Code, d)) == Open(Code, d)
    ensures Walk(x + "," + u, Open(Code, d)) == Open(Code, d)
  {
    WalkBoth(x + ",", u, Open(Code, d));
    WalkBoth(x, ",", Open(Code, d));
    WalkOne(',', Open(Code, d));
  }

  // Arguments are split where they are joined.
  lemma SplitIsTexts(args: seq<seq<Piece>>)
    requires args != [] && AreArguments(args)
    ensures Split(Listed(args)) == Texts(args)
  {
    SplitsListed(args);
  }

  // ---- A call --------------------------------------------------------------

  // The call ends at its own parenthesis, whatever follows.
  lemma CallCloses(args: seq<seq<Piece>>, rest: string)
    requires args != [] && AreArguments(args)
    ensures CloseAt("(" + Listed(args) + ")" + rest) == Some(|Listed(args)| + 1)
  {
    var inside := Listed(args);
    SplitsListed(args);
    WalkBoth("(", inside, START);
    WalkOne('(', START);
    WalkAround(inside, START);
    assert Walk(inside, Open(Code, 1)) == Open(Code, 1);
    CloseIs("(" + inside);
    CloseStays("(" + inside + ")", rest);
  }

  // A needle that starts like no later part of itself.
  predicate Unlike(n: string) { n != "" && forall k :: 0 < k < |n| ==> n[k] != n[0] }

  // The first needle stands behind a text without one.
  lemma {:induction false} FirstBehind(n: string, head: string, rest: string, i: nat)
    requires Unlike(n) && Free(n, head) && i <= |head|
    ensures First(head + n + rest, n, i) == Some(|head|)
    decreases |head| - i
  {
    var t := head + n + rest;
    if i == |head| {
      assert t[i..i + |n|] == n;
    } else {
      NotAcross(n, head, rest, i);
      FirstBehind(n, head, rest, i + 1);
    }
  }

  lemma NotAcross(n: string, head: string, rest: string, i: nat)
    requires Unlike(n) && Free(n, head) && i < |head|
    ensures !StandsAt(head + n + rest, i, n)
  {
    var t := head + n + rest;
    assert !StandsAt(head, i, n);
    if i + |n| <= |head| {
      assert t[i..i + |n|] == head[i..i + |n|];
    } else if StandsAt(t, i, n) {
      StandsWithin(t, i, n, |head| - i);
    }
  }

  // What a rewriter does at a call.
  lemma CallCut(rule: Rule, head: string, args: seq<seq<Piece>>, rest: string)
    requires Sound(rule) && Unlike(rule.needle) && Free(rule.needle, head) && args != [] && AreArguments(args)
    ensures var inside, name := Listed(args), head + rule.needle;
      CutText(rule, name + ("(" + inside + ")" + rest))
      == if |args| == |rule.labels| then Call(name, inside, rest) else Copy(name + ("(" + inside + ")"), rest)
  {
    hide CutText, CutBehind, CloseAt, Split, Texts, Listed, Free, Unlike, AreArguments;
    var inside, n := Listed(args), rule.needle;
    CallCloses(args, rest);
    SplitIsTexts(args);
    TextsLength(args);
    CutAtNeedle(rule, head, "(" + inside + ")" + rest);
    CutAtCall(rule, head + n, inside, rest);
  }

  lemma CutAtNeedle(rule: Rule, head: string, after: string)
    requires Sound(rule) && Unlike(rule.needle) && Free(rule.needle, head)
    ensures CutText(rule, head + rule.needle + after) == CutBehind(rule, head + rule.needle, after)
  {
    hide CutBehind, Free, Unlike;
    var n := rule.needle;
    var t := head + n + after;
    FirstBehind(n, head, after, 0);
    assert t[..|head| + |n|] == head + n && t[|head| + |n|..] == after;
  }

  lemma CutAtCall(rule: Rule, name: string, inside: string, rest: string)
    requires CloseAt("(" + inside + ")" + rest) == Some(|inside| + 1)
    ensures CutBehind(rule, name, "(" + inside + ")" + rest)
      == if |Split(inside)| == |rule.labels| then Call(name, inside, rest) else Copy(name + ("(" + inside + ")"), rest)
  {
    hide CloseAt, Split;
    AfterSlices(inside, rest);
  }

  // A pass over one call and what follows it: the arguments become an object,
  // if they are as many as the labels.
  lemma CallReads(rule: Rule, head: string, args: seq<seq<Piece>>, rest: string)
    requires Sound(rule) && Unlike(rule.needle) && Free(rule.needle, head) && args != [] && AreArguments(args)
    requires |args| == |rule.labels|
    ensures |Texts(args)| == |args|
    ensures Rewrite(rule, head + rule.needle + ("(" + Listed(args) + ")" + rest))
      == head + rule.needle + ("(" + Object(rule, Texts(args)) + ")") + Rewrite(rule, rest)
  {
    hide Object, CutText, Listed, Free, Unlike, AreArguments, Split, Texts;
    CallCut(rule, head, args, rest);
    TextsLength(args);
    SplitIsTexts(args);
  }

  // Any other number of arguments is left as it is.
  lemma CallLeft(rule: Rule, head: string, args: seq<seq<Piece>>, rest: string)
    requires Sound(rule) && Unlike(rule.needle) && Free(rule.needle, head) && args != [] && AreArguments(args)
    requires |args| != |rule.labels|
    ensures Rewrite(rule, head + rule.needle + ("(" + Listed(args) + ")" + rest))
      == head + rule.needle + ("(" + Listed(args) + ")") + Rewrite(rule, rest)
  {
    hide Object, CutText, Listed, Free, Unlike, AreArguments, Split, Texts;
    CallCut(rule, head, args, rest);
  }

  lemma AfterSlices(inside: string, rest: string)
    ensures var after := "(" + inside + ")" + rest;
      var end := |inside| + 1;
      after[0] == '(' && after[1..end] == inside && after[..end + 1] == "(" + inside + ")" && after[end + 1..] == rest
  {
  }

  lemma {:induction false} TextsLength(args: seq<seq<Piece>>)
    ensures |Texts(args)| == |args|
  {
    if args != [] { TextsLength(args[..|args| - 1]); }
  }

  // ---- The two rules -------------------------------------------------------

  // Text without white space at its ends.
  predicate Bared(t: string) { t != "" ==> t[0] as int !in Finders.WHITE && t[|t| - 1] as int !in Finders.WHITE }

  lemma {:induction false} TrimStartCuts(t: string) returns (x: string)
    ensures t == x + TrimStart(t) && Finders.White(x)
    ensures TrimStart(t) != "" ==> TrimStart(t)[0] as int !in Finders.WHITE
    decreases |t|
  {
    x := "";
    if t != "" {
      Finders.SpaceIsWhite(t[0]);
      if Specifiers.IsSpace(t[0]) {
        var y := TrimStartCuts(t[1..]);
        x := [t[0]] + y;
      }
    }
  }

  lemma {:induction false} TrimEndCuts(t: string) returns (y: string)
    ensures t == TrimEnd(t) + y && Finders.White(y)
    ensures TrimEnd(t) != "" ==> TrimEnd(t)[|TrimEnd(t)| - 1] as int !in Finders.WHITE
    decreases |t|
  {
    y := "";
    if t != "" {
      Finders.SpaceIsWhite(t[|t| - 1]);
      if Specifiers.IsSpace(t[|t| - 1]) {
        var x := TrimEndCuts(t[..|t| - 1]);
        y := x + [t[|t| - 1]];
      }
    }
  }

  // Trimming takes off the white space at both ends and nothing else.
  lemma TrimCuts(t: string) returns (x: string, y: string)
    ensures t == x + Trim(t) + y && Finders.White(x) && Finders.White(y) && Bared(Trim(t))
  {
    x := TrimStartCuts(t);
    y := TrimEndCuts(TrimStart(t));
  }

  lemma NeedlesUnlike()
    ensures Unlike("pq.dsa.sign") && Unlike("pq.dsa.verify")
  {
  }

  lemma LabelTexts()
    ensures Label(SIGN, 0) == " key: " && Label(SIGN, 1) == " data: "
    ensures Label(VERIFY, 0) == " key: " && Label(VERIFY, 1) == " data: " && Label(VERIFY, 2) == " signature: "
  {
  }

  lemma Opens(a: string)
    ensures "{" + (" key: " + a + ",") == "{ key: " + a + ","
  {
  }

  lemma GoesOn(x: string, b: string, end: string)
    ensures x + "," + (" data: " + b + end) == x + ", data: " + b + end
  {
  }

  lemma Ends(x: string, c: string)
    ensures x + "," + (" signature: " + c + " }") == x + ", signature: " + c + " }"
  {
  }

  lemma TwoFields(a: string, b: string)
    ensures Object(SIGN, [a, b]) == "{ key: " + Trim(a) + ", data: " + Trim(b) + " }"
  {
    hide Trim, Label;
    var parts := [a, b];
    LabelTexts();
    Opens(Trim(a));
    GoesOn("{ key: " + Trim(a), Trim(b), " }");
    assert Labelled(SIGN, parts, 0) == "{";
  }

  lemma ThreeFields(a: string, b: string, c: string)
    ensures Object(VERIFY, [a, b, c]) == "{ key: " + Trim(a) + ", data: " + Trim(b) + ", signature: " + Trim(c) + " }"
  {
    hide Trim, Label;
    var parts := [a, b, c];
    LabelTexts();
    Opens(Trim(a));
    GoesOn("{ key: " + Trim(a), Trim(b), ",");
    Ends("{ key: " + Trim(a) + ", data: " + Trim(b), Trim(c));
    assert Labelled(VERIFY, parts, 0) == "{";
    assert Labelled(VERIFY, parts, 1) == "{ key: " + Trim(a) + ",";
  }

  lemma ArgumentTexts(a: seq<Piece>, b: seq<Piece>, c: seq<Piece>)
    ensures Listed([a, b]) == Spell(a) + "," + Spell(b) && Texts([a, b]) == [Spell(a), Spell(b)]
    ensures Listed([a, b, c]) == Spell(a) + "," + Spell(b) + "," + Spell(c)
    ensures Texts([a, b, c]) == [Spell(a), Spell(b), Spell(c)]
  {
    hide Spell;
    assert [a, b][..1] == [a] && [a, b, c][..2] == [a, b] && [a][..0] == [];
    assert Listed([a]) == Spell(a) && Texts([a]) == [Spell(a)];
  }

  // What signing and verifying calls become.
  lemma SignReads(head: string, a: seq<Piece>, b: seq<Piece>, rest: string)
    requires Free("pq.dsa.sign", head) && IsArgument(a) && IsArgument(b)
    ensures Sound(SIGN)
    ensures Rewrite(SIGN, head + "pq.dsa.sign(" + Spell(a) + "," + Spell(b) + ")" + rest)
      == head + "pq.dsa.sign({ key: " + Trim(Spell(a)) + ", data: " + Trim(Spell(b)) + " })" + Rewrite(SIGN, rest)
  {
    hide Free, Unlike, IsArgument, Spell, Trim, Rewrite, Object, Listed, Texts;
    SignSound();
    NeedlesUnlike();
    ArgumentTexts(a, b, a);
    CallReads(SIGN, head, [a, b], rest);
    TwoFields(Spell(a), Spell(b));
    SignTexts(head, Spell(a), Spell(b), rest, Trim(Spell(a)), Trim(Spell(b)), Rewrite(SIGN, rest));
  }

  lemma SignTexts(head: string, a: string, b: string, rest: string, x: string, y: string, more: string)
    ensures head + "pq.dsa.sign" + ("(" + (a + "," + b) + ")" + rest)
      == head + "pq.dsa.sign(" + a + "," + b + ")" + rest
    ensures head + "pq.dsa.sign" + ("(" + ("{ key: " + x + ", data: " + y + " }") + ")") + more
      == head + "pq.dsa.sign({ key: " + x + ", data: " + y + " })" + more
  {
  }

  lemma VerifyReads(head: string, a: seq<Piece>, b: seq<Piece>, c: seq<Piece>, rest: string)
    requires Free("pq.dsa.verify", head) && IsArgument(a) && IsArgument(b) && IsArgument(c)
    ensures Sound(VERIFY)
    ensures Rewrite(VERIFY, head + "pq.dsa.verify(" + Spell(a) + "," + Spell(b) + "," + Spell(c) + ")" + rest)
      == head + "pq.dsa.verify({ key: " + Trim(Spell(a)) + ", data: " + Trim(Spell(b)) + ", signature: "
        + Trim(Spell(c)) + " })" + Rewrite(VERIFY, rest)
  {
    hide Free, Unlike, IsArgument, Spell, Trim, Rewrite, Object, Listed, Texts;
    VerifySound();
    NeedlesUnlike();
    ArgumentTexts(a, b, c);
    CallReads(VERIFY, head, [a, b, c], rest);
    ThreeFields(Spell(a), Spell(b), Spell(c));
    InARow(head + "pq.dsa.verify(", Spell(a), Spell(b), Spell(c), ")");
    VerifyTexts(head, Spell(a) + "," + Spell(b) + "," + Spell(c), rest,
      Trim(Spell(a)), Trim(Spell(b)), Trim(Spell(c)), Rewrite(VERIFY, rest));
  }

  lemma InARow(h: string, a: string, b: string, c: string, end: string)
    ensures h + (a + "," + b + "," + c) + end == h + a + "," + b + "," + c + end
  {
  }

  lemma VerifyTexts(head: string, args: string, rest: string, x: string, y: string, z: string, more: string)
    ensures head + "pq.dsa.verify" + ("(" + args + ")" + rest) == head + "pq.dsa.verify(" + args + ")" + rest
    ensures head + "pq.dsa.verify" + ("(" + ("{ key: " + x + ", data: " + y + ", signature: " + z + " }") + ")") + more
      == head + "pq.dsa.verify({ key: " + x + ", data: " + y + ", signature: " + z + " })" + more
  {
  }

  // Calls with another number of arguments stay as they are, and so does the
  // name where no call follows.
  lemma SignLeaves(head: string, args: seq<seq<Piece>>, rest: string)
    requires Free("pq.dsa.sign", head) && args != [] && AreArguments(args) && |args| != 2
    ensures Sound(SIGN)
    ensures Rewrite(SIGN, head + "pq.dsa.sign" + ("(" + Listed(args) + ")" + rest))
      == head + "pq.dsa.sign" + ("(" + Listed(args) + ")") + Rewrite(SIGN, rest)
  {
    SignSound();
    NeedlesUnlike();
    CallLeft(SIGN, head, args, rest);
  }

  lemma VerifyLeaves(head: string, args: seq<seq<Piece>>, rest: string)
    requires Free("pq.dsa.verify", head) && args != [] && AreArguments(args) && |args| != 3
    ensures Sound(VERIFY)
    ensures Rewrite(VERIFY, head + "pq.dsa.verify" + ("(" + Listed(args) + ")" + rest))
      == head + "pq.dsa.verify" + ("(" + Listed(args) + ")") + Rewrite(VERIFY, rest)
  {
    VerifySound();
    NeedlesUnlike();
    CallLeft(VERIFY, head, args, rest);
  }

  lemma NameLeft(rule: Rule, head: string, rest: string)
    requires Sound(rule) && Unlike(rule.needle) && Free(rule.needle, head) && (rest == "" || rest[0] != '(')
    ensures Rewrite(rule, head + rule.needle + rest) == head + rule.needle + Rewrite(rule, rest)
  {
    hide Free, Unlike;
    CutAtNeedle(rule, head, rest);
  }

  lemma NeverCloses(ps: seq<Piece>)
    requires Proper(ps)
    ensures CloseAt("(" + Spell(ps)) == None
  {
    WalkBoth("(", Spell(ps), START);
    WalkOne('(', START);
    PiecesPass(ps, 1, 0);
  }

  // A call that never closes is left, and what is in it is looked through.
  lemma UnclosedLeft(rule: Rule, head: string, ps: seq<Piece>)
    requires Sound(rule) && Unlike(rule.needle) && Free(rule.needle, head) && Proper(ps)
    ensures Rewrite(rule, head + rule.needle + ("(" + Spell(ps)))
      == head + rule.needle + Rewrite(rule, "(" + Spell(ps))
  {
    hide Free, Unlike, Proper, Spell, CloseAt;
    NeverCloses(ps);
    CutAtNeedle(rule, head, "(" + Spell(ps));
  }
}
