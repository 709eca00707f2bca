// When a codemod pass has nothing left to do: idempotence, exactly.
module CodemodTheorems {
  import opened Prelude
  import opened Codemod
  import Specifiers

  // ---- Scanning a text in two parts ----------------------------------------

  lemma Tail(a: string, b: string)
    requires b != ""
    ensures (a + b)[..|a + b| - 1] == a + b[..|b| - 1] && (a + b)[|a + b| - 1] == b[|b| - 1]
  {
  }

  lemma {:induction false} WalkBoth(a: string, b: string, p: Paren)
    ensures Walk(a + b, p) == Walk(b, Walk(a, p))
  {
    if b == "" { assert a + b == a; } else {
      Tail(a, b);
      WalkBoth(a, b[..|b| - 1], p);
    }
  }

  lemma {:induction false} MarksBoth(a: string, b: string, m: Mark)
    ensures Marks(a + b, m) == Marks(b, Marks(a, m))
  {
    if b == "" { assert a + b == a; } else {
      Tail(a, b);
      MarksBoth(a, b[..|b| - 1], m);
    }
  }

  lemma {:induction false} CommasBoth(a: string, b: string, m: Mark, level: int)
    ensures Commas(a + b, m, level) == Commas(a, m, level) + Commas(b, Marks(a, m), level)
  {
    if b == "" { assert a + b == a; } else {
      Tail(a, b);
      MarksBoth(a, b[..|b| - 1], m);
      CommasBoth(a, b[..|b| - 1], m, level);
    }
  }

  // ---- What Split gives ----------------------------------------------------

  // The first n parts, with a comma behind each.
  function Glue(parts: seq<string>, n: nat): string
    requires n <= |parts|
  {
    if n == 0 then "" else Glue(parts, n - 1) + (parts[n - 1] + ",")
  }

  // They end where they start: outside strings and brackets.
  ghost predicate Balanced(parts: seq<string>, n: nat)
    requires n <= |parts|
  {
    forall k {:trigger BalancedAt(parts, k)} :: 0 <= k < n ==> BalancedAt(parts, k)
  }

  ghost predicate BalancedAt(parts: seq<string>, k: nat)
    requires k < |parts|
  {
    Marks(parts[k], Level(0)) == Level(0)
  }

  lemma {:induction false} GlueSame(parts: seq<string>, more: seq<string>, n: nat)
    requires n <= |parts| <= |more| && forall k :: 0 <= k < n ==> more[k] == parts[k]
    ensures Glue(more, n) == Glue(parts, n)
  {
    if n > 0 { GlueSame(parts, more, n - 1); }
  }

  lemma BalancedSame(parts: seq<string>, more: seq<string>, n: nat)
    requires n <= |parts| <= |more| && (forall k :: 0 <= k < n ==> more[k] == parts[k]) && Balanced(parts, n)
    ensures Balanced(more, n)
  {
    forall k | 0 <= k < n
      ensures BalancedAt(more, k)
    {
      assert BalancedAt(parts, k);
    }
  }

  ghost predicate SplitsInto(t: string, a: Args) {
    && t == Glue(a.done, |a.done|) + a.cur
    && Balanced(a.done, |a.done|)
    && Marks(a.cur, Level(0)) == Marks(t, Level(0))
    && |a.done| == Commas(t, Level(0), 0)
  }

  lemma MarksNext(t: string, c: char, m: Mark)
    ensures Marks(t + [c], m) == NextMark(Marks(t, m), c)
  {
    assert (t + [c])[..|t|] == t;
  }

  lemma CommasNext(t: string, c: char, m: Mark, level: int)
    ensures Commas(t + [c], m, level) == Commas(t, m, level) + if c == ',' && Marks(t, m) == Level(level) then 1 else 0
  {
    assert (t + [c])[..|t|] == t;
  }

  lemma SplitCut(t: string, a: Args)
    requires SplitsInto(t, a) && Marks(t, Level(0)) == Level(0)
    ensures SplitsInto(t + [','], Args(a.done + [a.cur], ""))
  {
    var done, t' := a.done + [a.cur], t + [','];
    GlueSame(a.done, done, |a.done|);
    BalancedSame(a.done, done, |a.done|);
    assert t' == Glue(done, |done|) + "";
    assert t'[..|t'| - 1] == t;
    assert BalancedAt(done, |a.done|);
  }

  lemma SplitGrow(t: string, a: Args, c: char)
    requires SplitsInto(t, a) && !(c == ',' && Marks(t, Level(0)) == Level(0))
    ensures SplitsInto(t + [c], Args(a.done, a.cur + [c]))
  {
    hide Balanced, Marks, Commas, Glue;
    MarksNext(t, c, Level(0));
    MarksNext(a.cur, c, Level(0));
    CommasNext(t, c, Level(0), 0);
    assert t + [c] == Glue(a.done, |a.done|) + (a.cur + [c]);
  }

  lemma {:induction false} SplitAllSplits(t: string)
    ensures SplitsInto(t, SplitAll(t))
  {
    if t != "" {
      var before, c := t[..|t| - 1], t[|t| - 1];
      SplitAllSplits(before);
      assert t == before + [c];
      if c == ',' && Marks(before, Level(0)) == Level(0) {
        SplitCut(before, SplitAll(before));
      } else {
        SplitGrow(before, SplitAll(before), c);
      }
    }
  }

  // Commas put the parts together again.
  function JoinCommas(parts: seq<string>): string
    requires parts != []
  {
    Glue(parts, |parts| - 1) + parts[|parts| - 1]
  }

  lemma SplitJoins(t: string)
    ensures JoinCommas(Split(t)) == t && |Split(t)| == Commas(t, Level(0), 0) + 1
    ensures Balanced(Split(t), |Split(t)| - 1)
  {
    SplitAllSplits(t);
    var done := SplitAll(t).done;
    GlueSame(done, Split(t), |done|);
    BalancedSame(done, Split(t), |done|);
  }

  // ---- Plain text and white space ------------------------------------------

  // An escape is over after one more character.
  function Calm(p: Paren): Paren {
    if p.Open? && p.quote.Str? then Open(Str(p.quote.mark, false), p.depth) else p
  }

  // Not a quote, a backslash or a parenthesis.
  predicate IsQuiet(c: char) { MarkOf(c).None? && c != '\\' && c != '(' && c != ')' }

  predicate Quiet(t: string) { forall i :: 0 <= i < |t| ==> IsQuiet(t[i]) }

  lemma {:induction false} WalkQuiet(t: string, p: Paren)
    requires Quiet(t)
    ensures Walk(t, p) == if t == "" then p else Calm(p)
  {
    if t != "" { WalkQuiet(t[..|t| - 1], p); }
  }

  lemma {:induction false} MarksPlain(t: string, depth: int, level: int)
    requires Plain(t)
    ensures Marks(t, Level(depth)) == Level(depth) && Commas(t, Level(depth), level) == 0
  {
    if t != "" { MarksPlain(t[..|t| - 1], depth, level); }
  }

  lemma {:induction false} WalkTrimStart(t: string, p: Paren)
    requires Calm(p) == p
    ensures Walk(TrimStart(t), p) == Walk(t, p)
    decreases |t|
  {
    if t != "" && Specifiers.IsSpace(t[0]) {
      WalkBoth(t[..1], t[1..], p);
      WalkQuiet(t[..1], p);
      assert t == t[..1] + t[1..];
      WalkTrimStart(t[1..], p);
    }
  }

  lemma CalmSpace(p: Paren, c: char)
    requires Specifiers.IsSpace(c)
    ensures Calm(NextParen(p, c)) == Calm(p)
  {
  }

  lemma {:induction false} WalkTrimEnd(t: string, p: Paren)
    ensures Calm(Walk(TrimEnd(t), p)) == Calm(Walk(t, p))
  {
    hide Specifiers.IsSpace, NextParen, Calm;
    if t != "" && Specifiers.IsSpace(t[|t| - 1]) {
      WalkTrimEnd(t[..|t| - 1], p);
      CalmSpace(Walk(t[..|t| - 1], p), t[|t| - 1]);
    }
  }

  lemma WalkTrim(t: string, p: Paren)
    requires Calm(p) == p
    ensures Calm(Walk(Trim(t), p)) == Calm(Walk(t, p))
  {
    WalkTrimStart(t, p);
    WalkTrimEnd(TrimStart(t), p);
  }

  lemma {:induction false} MarksTrimStart(t: string, depth: int, level: int)
    ensures Marks(TrimStart(t), Level(depth)) == Marks(t, Level(depth))
    ensures Commas(TrimStart(t), Level(depth), level) == Commas(t, Level(depth), level)
    decreases |t|
  {
    if t != "" && Specifiers.IsSpace(t[0]) {
      MarksBoth(t[..1], t[1..], Level(depth));
      CommasBoth(t[..1], t[1..], Level(depth), level);
      MarksPlain(t[..1], depth, level);
      assert t == t[..1] + t[1..];
      MarksTrimStart(t[1..], depth, level);
    }
  }

  lemma {:induction false} MarksTrimEnd(t: string, m: Mark, level: int)
    ensures Marks(t, m).quote.Code? ==> Marks(TrimEnd(t), m) == Marks(t, m)
    ensures Commas(TrimEnd(t), m, level) == Commas(t, m, level)
  {
    if t != "" && Specifiers.IsSpace(t[|t| - 1]) { MarksTrimEnd(t[..|t| - 1], m, level); }
  }

  lemma MarksTrim(t: string, depth: int, level: int)
    ensures Marks(t, Level(depth)).quote.Code? ==> Marks(Trim(t), Level(depth)) == Marks(t, Level(depth))
    ensures Commas(Trim(t), Level(depth), level) == Commas(t, Level(depth), level)
  {
    MarksTrimStart(t, depth, level);
    MarksTrimEnd(TrimStart(t), Level(depth), level);
  }

  // One bracket deeper, everything is one bracket deeper.
  lemma {:induction false} Deeper(t: string, m: Mark, level: int)
    ensures Marks(t, Mark(m.quote, m.depth + 1)) == Mark(Marks(t, m).quote, Marks(t, m).depth + 1)
    ensures Commas(t, Mark(m.quote, m.depth + 1), level + 1) == Commas(t, m, level)
  {
    if t != "" { Deeper(t[..|t| - 1], m, level); }
  }

  // ---- A rewritten call, scanned -------------------------------------------

  lemma LabelQuiet(rule: Rule, k: nat)
    requires Sound(rule) && k < |rule.labels|
    ensures Quiet(Label(rule, k)) && Plain(Label(rule, k)) && Label(rule, k) != ""
  {
    assert Plain(rule.labels[k]);
  }

  // The call finder leaves a labelled argument as it leaves the argument, up to
  // an escape.
  lemma WalkField(rule: Rule, k: nat, part: string, end: string, p: Paren)
    requires Sound(rule) && k < |rule.labels| && Calm(p) == p && Quiet(end) && end != ""
    ensures Walk(Field(rule, k, part, end), p) == Calm(Walk(part, p)) == Walk(part + end, p)
  {
    var tag, trimmed := Label(rule, k), Trim(part);
    LabelQuiet(rule, k);
    WalkBoth(tag + trimmed, end, p);
    WalkBoth(tag, trimmed, p);
    WalkQuiet(tag, p);
    WalkBoth(part, end, p);
    WalkTrim(part, p);
    WalkQuiet(end, Walk(part, p));
    WalkQuiet(end, Walk(trimmed, p));
  }

  lemma WalkBrace(rule: Rule, parts: seq<string>, p: Paren)
    requires |parts| == |rule.labels| && Calm(p) == p
    ensures Walk(Labelled(rule, parts, 0), p) == p == Walk(Glue(parts, 0), p)
  {
    WalkQuiet("{", p);
  }

  lemma {:induction false} WalkLabelled(rule: Rule, parts: seq<string>, k: nat, p: Paren)
    requires Sound(rule) && k <= |parts| == |rule.labels| && Calm(p) == p
    ensures Walk(Labelled(rule, parts, k), p) == Walk(Glue(parts, k), p) == Calm(Walk(Glue(parts, k), p))
  {
    hide Walk, Calm;
    if k == 0 {
      WalkBrace(rule, parts, p);
    } else {
      WalkLabelled(rule, parts, k - 1, p);
      WalkLabelledNext(rule, parts, k - 1, p, Walk(Glue(parts, k - 1), p));
    }
  }

  lemma WalkLabelledNext(rule: Rule, parts: seq<string>, k: nat, p: Paren, q: Paren)
    requires Sound(rule) && k < |parts| == |rule.labels|
    requires Walk(Labelled(rule, parts, k), p) == q == Walk(Glue(parts, k), p) && Calm(q) == q
    ensures Walk(Labelled(rule, parts, k + 1), p) == Walk(Glue(parts, k + 1), p) == Calm(Walk(Glue(parts, k + 1), p))
  {
    WalkField(rule, k, parts[k], ",", q);
    WalkAlike(Labelled(rule, parts, k), Field(rule, k, parts[k], ","), Glue(parts, k), parts[k] + ",", p, q);
  }

  lemma WalkAlike(a: string, b: string, c: string, d: string, p: Paren, q: Paren)
    requires Walk(a, p) == q == Walk(c, p) && Walk(b, q) == Walk(d, q)
    ensures Walk(a + b, p) == Walk(c + d, p) == Walk(d, q)
  {
    WalkBoth(a, b, p);
    WalkBoth(c, d, p);
  }

  lemma WalkParts(rule: Rule, parts: seq<string>, end: string, p: Paren)
    requires Sound(rule) && |parts| == |rule.labels| && Calm(p) == p && Quiet(end) && end != ""
    ensures var last := |parts| - 1;
      Walk(Labelled(rule, parts, last) + Field(rule, last, parts[last], end), p) == Calm(Walk(JoinCommas(parts), p))
  {
    var last := |parts| - 1;
    WalkLabelled(rule, parts, last, p);
    WalkBoth(Labelled(rule, parts, last), Field(rule, last, parts[last], end), p);
    WalkBoth(Glue(parts, last), parts[last], p);
    WalkField(rule, last, parts[last], end, Walk(Glue(parts, last), p));
  }

  lemma WalkObject(rule: Rule, args: string, p: Paren)
    requires Sound(rule) && |Split(args)| == |rule.labels| && Calm(p) == p
    ensures Walk(Object(rule, Split(args)), p) == Calm(Walk(args, p))
  {
    SplitJoins(args);
    WalkParts(rule, Split(args), " }", p);
  }

  lemma WalkOne(c: char, p: Paren)
    ensures Walk([c], p) == NextParen(p, c)
  {
    assert [c][..0] == [];
    assert Walk([], p) == p;
  }

  lemma WalkAround(t: string, p: Paren)
    ensures Walk("(" + t + ")", p) == NextParen(Walk(t, NextParen(p, '(')), ')')
  {
    WalkBoth("(" + t, ")", p);
    WalkBoth("(", t, p);
    WalkOne('(', p);
    WalkOne(')', Walk("(" + t, p));
  }

  // Whatever state it comes in, a rewritten call leaves the call finder in the
  // state in which the original leaves it.
  lemma WalkRewritten(rule: Rule, args: string, p: Paren)
    requires Sound(rule) && |Split(args)| == |rule.labels|
    ensures Walk(Rewritten(rule, args), p) == Walk("(" + args + ")", p)
  {
    WalkAround(args, p);
    WalkAround(Object(rule, Split(args)), p);
    WalkObject(rule, args, NextParen(p, '('));
  }

  // ---- A rewritten call, split again ---------------------------------------

  lemma FieldMarks(rule: Rule, k: nat, part: string, end: string)
    requires Sound(rule) && k < |rule.labels|
    ensures Commas(Field(rule, k, part, end), Level(1), 0)
      == Commas(part, Level(0), -1) + Commas(end, Marks(Trim(part), Level(1)), 0)
    ensures Marks(part, Level(0)) == Level(0) ==> Marks(Trim(part), Level(1)) == Level(1)
    ensures Marks(part, Level(0)) == Level(0) ==> Marks(Field(rule, k, part, end), Level(1)) == Marks(end, Level(1))
  {
    var tag, trimmed := Label(rule, k), Trim(part);
    LabelQuiet(rule, k);
    MarksPlain(tag, 1, 0);
    MarksBoth(tag, trimmed, Level(1));
    CommasBoth(tag, trimmed, Level(1), 0);
    MarksBoth(tag + trimmed, end, Level(1));
    CommasBoth(tag + trimmed, end, Level(1), 0);
    MarksTrim(part, 1, 0);
    Deeper(part, Level(0), -1);
  }

  lemma CommaMarks(d: int, level: int)
    ensures Marks(",", Level(d)) == Level(d) && Commas(",", Level(d), level) == if d == level then 1 else 0
  {
    assert ","[..0] == "";
    assert Marks("", Level(d)) == Level(d);
  }

  lemma {:induction false} CommasLabelled(rule: Rule, parts: seq<string>, k: nat)
    requires Sound(rule) && k <= |parts| == |rule.labels| && Balanced(parts, k)
    ensures Marks(Labelled(rule, parts, k), Level(0)) == Level(1) && Marks(Glue(parts, k), Level(0)) == Level(0)
    ensures Commas(Labelled(rule, parts, k), Level(0), 0) == Commas(Glue(parts, k), Level(0), -1)
  {
    hide Label, Field;
    if k == 0 {
      assert "{"[..0] == "";
      assert Marks("", Level(0)) == Level(0);
    } else {
      CommasLabelled(rule, parts, k - 1);
      assert BalancedAt(parts, k - 1);
      LabelledNext(rule, parts, k - 1);
    }
  }

  lemma LabelledNext(rule: Rule, parts: seq<string>, k: nat)
    requires Sound(rule) && k < |parts| == |rule.labels| && Marks(parts[k], Level(0)) == Level(0)
    requires Marks(Labelled(rule, parts, k), Level(0)) == Level(1) && Marks(Glue(parts, k), Level(0)) == Level(0)
    requires Commas(Labelled(rule, parts, k), Level(0), 0) == Commas(Glue(parts, k), Level(0), -1)
    ensures Marks(Labelled(rule, parts, k + 1), Level(0)) == Level(1) && Marks(Glue(parts, k + 1), Level(0)) == Level(0)
    ensures Commas(Labelled(rule, parts, k + 1), Level(0), 0) == Commas(Glue(parts, k + 1), Level(0), -1)
  {
    FieldMarks(rule, k, parts[k], ",");
    CommaMarks(0, -1);
    CommaMarks(1, 0);
    MarksBoth(Labelled(rule, parts, k), Field(rule, k, parts[k], ","), Level(0));
    CommasBoth(Labelled(rule, parts, k), Field(rule, k, parts[k], ","), Level(0), 0);
    MarksBoth(parts[k], ",", Level(0));
    CommasBoth(parts[k], ",", Level(0), -1);
    MarksBoth(Glue(parts, k), parts[k] + ",", Level(0));
    CommasBoth(Glue(parts, k), parts[k] + ",", Level(0), -1);
  }

  // The top-level commas of the new object are the commas of the old arguments
  // that stood one bracket below the top.
  lemma CommasObject(rule: Rule, args: string)
    requires Sound(rule) && |Split(args)| == |rule.labels|
    ensures |Split(Object(rule, Split(args)))| == Commas(args, Level(0), -1) + 1
  {
    var parts := Split(args);
    SplitJoins(args);
    NoCommas(Marks(Trim(parts[|parts| - 1]), Level(1)), 0);
    CommasParts(rule, parts, " }");
    SplitJoins(Object(rule, parts));
  }

  lemma CommasParts(rule: Rule, parts: seq<string>, end: string)
    requires Sound(rule) && |parts| == |rule.labels| && Balanced(parts, |parts| - 1)
    requires Commas(end, Marks(Trim(parts[|parts| - 1]), Level(1)), 0) == 0
    ensures var last := |parts| - 1;
      Commas(Labelled(rule, parts, last) + Field(rule, last, parts[last], end), Level(0), 0)
        == Commas(JoinCommas(parts), Level(0), -1)
  {
    var last := |parts| - 1;
    CommasLabelled(rule, parts, last);
    CommasBoth(Glue(parts, last), parts[last], Level(0), -1);
    FieldMarks(rule, last, parts[last], end);
    CommasBoth(Labelled(rule, parts, last), Field(rule, last, parts[last], end), Level(0), 0);
  }

  lemma NoCommas(m: Mark, level: int)
    ensures Commas(" }", m, level) == 0
  {
    assert " }"[..1] == " " && " "[..0] == "";
    assert Commas(" ", m, level) == Commas("", m, level) == 0;
  }

  // ---- The second pass -----------------------------------------------------

  lemma CutParts(rule: Rule, t: string)
    requires Sound(rule)
    ensures var cut := CutText(rule, t);
      && (cut.Copy? ==> cut.head != "" && t == cut.head + cut.rest)
      && (cut.Call? ==> cut.head != "" && t == cut.head + ("(" + cut.args + ")") + cut.rest)
  {
    var found := First(t, rule.needle, 0);
    if found.Some? {
      var head, after := t[..found.value + |rule.needle|], t[found.value + |rule.needle|..];
      assert t == head + after;
      BehindParts(rule, head, after);
    }
  }

  lemma BehindParts(rule: Rule, head: string, after: string)
    ensures var cut := CutBehind(rule, head, after);
      && !cut.Whole?
      && (cut.Copy? ==> |cut.head| >= |head| && head + after == cut.head + cut.rest)
      && (cut.Call? ==> cut.head == head && head + after == head + ("(" + cut.args + ")") + cut.rest)
  {
    if after != "" && after[0] == '(' && CloseAt(after).Some? {
      var end := CloseAt(after).value;
      CallSlices(after, end);
      Regroup(head, after[..end + 1], after[end + 1..]);
    }
  }

  lemma CallSlices(t: string, end: nat)
    requires 1 <= end < |t| && t[0] == '(' && t[end] == ')'
    ensures t == t[..end + 1] + t[end + 1..] && t[..end + 1] == "(" + t[1..end] + ")" && t[..end] == "(" + t[1..end]
  {
  }

  // A pass leaves the call finder in the state it would be in without it.
  lemma {:induction false} WalkRewrite(rule: Rule, t: string, p: Paren)
    requires Sound(rule)
    ensures Walk(Rewrite(rule, t), p) == Walk(t, p)
    decreases |t|
  {
    CutParts(rule, t);
    CallFits(rule, t);
    match CutText(rule, t)
    case Whole =>
    case Copy(head, rest) =>
      WalkRewrite(rule, rest, Walk(head, p));
      WalkAlike(head, Rewrite(rule, rest), head, rest, p, Walk(head, p));
    case Call(head, args, rest) =>
      var was, now := "(" + args + ")", Rewritten(rule, args);
      var q := Walk(head, p);
      WalkRewritten(rule, args, q);
      WalkAlike(head, now, head, was, p, q);
      WalkRewrite(rule, rest, Walk(was, q));
      WalkAlike(head + now, Rewrite(rule, rest), head + was, rest, p, Walk(was, q));
  }

  // Nor does it take away or add a parenthesis at the start.
  lemma StartKept(rule: Rule, t: string)
    requires Sound(rule)
    ensures Rewrite(rule, t) == "" <==> t == ""
    ensures t != "" ==> Rewrite(rule, t)[0] == t[0]
  {
    CutParts(rule, t);
    CallFits(rule, t);
  }

  lemma {:induction false} FirstSame(t: string, u: string, needle: string, i: nat, pos: nat)
    requires First(t, needle, i) == Some(pos) && pos + |needle| <= |u|
    requires forall j :: i <= j <= pos ==> (StandsAt(u, j, needle) <==> StandsAt(t, j, needle))
    ensures First(u, needle, i) == Some(pos)
    decreases pos - i
  {
    if !StandsAt(t, i, needle) {
      assert First(t, needle, i + 1) == Some(pos);
      FirstSame(t, u, needle, i + 1, pos);
    }
  }

  // The needle is found where it was, whatever stands behind it.
  lemma FirstKept(t: string, needle: string, pos: nat, x: string)
    requires First(t, needle, 0) == Some(pos)
    ensures First(t[..pos + |needle|] + x, needle, 0) == Some(pos)
  {
    var u := t[..pos + |needle|] + x;
    forall j | 0 <= j <= pos
      ensures StandsAt(u, j, needle) <==> StandsAt(t, j, needle)
    {
      assert u[j..j + |needle|] == t[j..j + |needle|];
    }
    FirstSame(t, u, needle, 0, pos);
  }

  lemma CutKept(rule: Rule, t: string, pos: nat, x: string)
    requires Sound(rule) && First(t, rule.needle, 0) == Some(pos)
    ensures var head := t[..pos + |rule.needle|]; CutText(rule, head + x) == CutBehind(rule, head, x)
  {
    hide First, CutBehind, StandsAt;
    var head := t[..pos + |rule.needle|];
    FirstKept(t, rule.needle, pos, x);
    Halves(head, x);
  }

  lemma Halves(a: string, b: string)
    ensures (a + b)[..|a|] == a && (a + b)[|a|..] == b
  {
  }

  lemma {:induction false} CloseMeans(t: string, end: nat)
    requires CloseAt(t) == Some(end)
    ensures CloseAt(t[..end + 1]) == Some(end) && Walk(t[..end], START).Open? && Walk(t[..end + 1], START) == Closed
  {
    var before := t[..|t| - 1];
    if CloseAt(before).Some? {
      CloseMeans(before, end);
      assert before[..end + 1] == t[..end + 1] && before[..end] == t[..end];
    } else {
      assert t[..end + 1] == t && t[..end] == before;
    }
  }

  lemma CloseIs(t: string)
    requires Walk(t, START).Open? && Walk(t + ")", START) == Closed
    ensures CloseAt(t + ")") == Some(|t|)
  {
    assert (t + ")")[..|t|] == t;
  }

  // Both start alike, and look alike to the call finder.
  ghost predicate Alike(a: string, b: string) {
    && (a == "" <==> b == "")
    && (a != "" ==> a[0] == b[0])
    && Walk(a, START) == Walk(b, START)
  }

  lemma BehindCopyKept(rule: Rule, head: string, after: string, x: string) returns (behind: string)
    requires CutBehind(rule, head, after).Copy? && Alike(x, CutBehind(rule, head, after).rest)
    ensures var h := CutBehind(rule, head, after).head;
      h + x == head + behind && CutBehind(rule, head, behind) == Copy(h, x)
  {
    if after == "" || after[0] != '(' || CloseAt(after).None? {
      behind := x;
    } else {
      var end := CloseAt(after).value;
      CloseMeans(after, end);
      var call := after[..end + 1];
      behind := call + x;
      HeadSlice(after, end);
      BehindVerbatim(rule, head, call, x);
      Regroup(head, call, x);
    }
  }

  lemma HeadSlice(t: string, end: nat)
    requires 1 <= end < |t|
    ensures t[..end + 1][1..end] == t[1..end]
  {
  }

  lemma BehindVerbatim(rule: Rule, head: string, call: string, x: string)
    requires call != ""
    requires call[0] == '(' && CloseAt(call) == Some(|call| - 1) && |Split(call[1..|call| - 1])| != |rule.labels|
    ensures CutBehind(rule, head, call + x) == Copy(head + call, x)
  {
    CloseStays(call, x);
    var after := call + x;
    assert after[1..|call| - 1] == call[1..|call| - 1] && after[..|call|] == call && after[|call|..] == x;
  }

  lemma CopyAgain(rule: Rule, t: string, x: string)
    requires Sound(rule) && CutText(rule, t).Copy? && Alike(x, CutText(rule, t).rest)
    ensures var h := CutText(rule, t).head; CutText(rule, h + x) == Copy(h, x)
  {
    var pos := First(t, rule.needle, 0).value;
    var behind := BehindCopyKept(rule, t[..pos + |rule.needle|], t[pos + |rule.needle|..], x);
    CutKept(rule, t, pos, behind);
  }

  // A rewritten call closes where it was made to.
  lemma RewrittenCloses(rule: Rule, args: string)
    requires Sound(rule) && |Split(args)| == |rule.labels|
    requires Walk("(" + args, START).Open? && Walk("(" + args + ")", START) == Closed
    ensures CloseAt(Rewritten(rule, args)) == Some(|Rewritten(rule, args)| - 1)
  {
    var obj := Object(rule, Split(args));
    var p := NextParen(START, '(');
    WalkOne('(', START);
    WalkBoth("(", args, START);
    WalkBoth("(", obj, START);
    WalkObject(rule, args, p);
    WalkRewritten(rule, args, START);
    CloseIs("(" + obj);
  }

  lemma BehindCall(rule: Rule, head: string, after: string)
    requires CutBehind(rule, head, after).Call?
    ensures var args := CutBehind(rule, head, after).args;
      |Split(args)| == |rule.labels| && Walk("(" + args, START).Open? && Walk("(" + args + ")", START) == Closed
  {
    var end := CloseAt(after).value;
    CloseMeans(after, end);
    CallSlices(after, end);
  }

  lemma BehindRewritten(rule: Rule, head: string, obj: string, x: string)
    requires CloseAt("(" + obj + ")") == Some(|obj| + 1)
    ensures CutBehind(rule, head, "(" + obj + ")" + x)
      == if |Split(obj)| == |rule.labels| then Call(head, obj, x) else Copy(head + ("(" + obj + ")"), x)
  {
    var call := "(" + obj + ")";
    CloseStays(call, x);
    var after := call + x;
    assert after[1..|obj| + 1] == obj && after[..|obj| + 2] == call && after[|obj| + 2..] == x;
  }

  // A rewritten call is found again; whether it is rewritten again depends on
  // the commas one bracket below the top of its old arguments.
  lemma CallAgain(rule: Rule, t: string, x: string)
    requires Sound(rule) && CutText(rule, t).Call?
    ensures var cut := CutText(rule, t);
      && |Split(cut.args)| == |rule.labels|
      && CutText(rule, cut.head + (Rewritten(rule, cut.args) + x))
        == if Commas(cut.args, Level(0), -1) + 1 == |rule.labels| then Call(cut.head, Object(rule, Split(cut.args)), x)
           else Copy(cut.head + Rewritten(rule, cut.args), x)
  {
    hide Walk, Split, Commas, Object;
    var pos := First(t, rule.needle, 0).value;
    var head, after := t[..pos + |rule.needle|], t[pos + |rule.needle|..];
    var args := CutText(rule, t).args;
    BehindCall(rule, head, after);
    RewrittenCloses(rule, args);
    CommasObject(rule, args);
    BehindRewritten(rule, head, Object(rule, Split(args)), x);
    CutKept(rule, t, pos, Rewritten(rule, args) + x);
  }

  // What a second pass would rewrite: the calls whose arguments have just as
  // many commas behind one closing bracket too many as at the top.
  ghost predicate Settled(rule: Rule, t: string)
    requires Sound(rule)
  {
    forall args :: args in Calls(rule, t) ==> Commas(args, Level(0), -1) + 1 != |rule.labels|
  }

  lemma {:induction false} CallsAgain(rule: Rule, t: string)
    requires Sound(rule)
    ensures Calls(rule, Rewrite(rule, t)) == [] <==> Settled(rule, t)
    decreases |t|
  {
    var cut := CutText(rule, t);
    CallFits(rule, t);
    match cut
    case Whole =>
    case Copy(head, rest) =>
      CallsAgain(rule, rest);
      WalkRewrite(rule, rest, START);
      StartKept(rule, rest);
      CopyAgain(rule, t, Rewrite(rule, rest));
    case Call(head, args, rest) =>
      CallsAgain(rule, rest);
      CallAgain(rule, t, Rewrite(rule, rest));
      Regroup(head, Rewritten(rule, args), Rewrite(rule, rest));
      assert Calls(rule, t) == [args] + Calls(rule, rest);
      assert forall a :: a in Calls(rule, t) <==> a == args || a in Calls(rule, rest);
  }

  // ---- A pass that rewrites a call changes the text ------------------------

  // The characters that are not white space.
  function Solid(t: string): nat {
    if t == "" then 0 else Solid(t[..|t| - 1]) + if Specifiers.IsSpace(t[|t| - 1]) then 0 else 1
  }

  lemma {:induction false} SolidBoth(a: string, b: string)
    ensures Solid(a + b) == Solid(a) + Solid(b)
  {
    if b == "" { assert a + b == a; } else {
      Tail(a, b);
      SolidBoth(a, b[..|b| - 1]);
    }
  }

  lemma {:induction false} SolidTrimEnd(t: string)
    ensures Solid(TrimEnd(t)) == Solid(t)
  {
    if t != "" && Specifiers.IsSpace(t[|t| - 1]) { SolidTrimEnd(t[..|t| - 1]); }
  }

  lemma {:induction false} SolidTrimStart(t: string)
    ensures Solid(TrimStart(t)) == Solid(t)
    decreases |t|
  {
    if t != "" && Specifiers.IsSpace(t[0]) {
      SolidBoth(t[..1], t[1..]);
      assert t == t[..1] + t[1..] && Solid(t[..1][..0]) == 0;
      SolidTrimStart(t[1..]);
    }
  }

  lemma SolidField(rule: Rule, k: nat, part: string, end: string)
    requires k < |rule.labels|
    ensures Solid(Field(rule, k, part, end)) >= Solid(part) + Solid(end)
  {
    SolidBoth(Label(rule, k) + Trim(part), end);
    SolidBoth(Label(rule, k), Trim(part));
    SolidTrimStart(part);
    SolidTrimEnd(TrimStart(part));
  }

  lemma {:induction false} SolidLabelled(rule: Rule, parts: seq<string>, k: nat)
    requires k <= |parts| == |rule.labels|
    ensures Solid(Labelled(rule, parts, k)) > Solid(Glue(parts, k))
  {
    if k == 0 {
      SolidBrace();
    } else {
      SolidLabelled(rule, parts, k - 1);
      SolidLabelledNext(rule, parts, k - 1);
    }
  }

  lemma SolidBrace()
    ensures Solid("{") > Solid("")
  {
  }

  lemma SolidLabelledNext(rule: Rule, parts: seq<string>, k: nat)
    requires k < |parts| == |rule.labels| && Solid(Labelled(rule, parts, k)) > Solid(Glue(parts, k))
    ensures Solid(Labelled(rule, parts, k + 1)) > Solid(Glue(parts, k + 1))
  {
    SolidField(rule, k, parts[k], ",");
    SolidBoth(parts[k], ",");
    MoreSolid(Labelled(rule, parts, k), Field(rule, k, parts[k], ","), Glue(parts, k), parts[k] + ",");
  }

  lemma MoreSolid(a: string, b: string, c: string, d: string)
    requires Solid(a) > Solid(c) && Solid(b) >= Solid(d)
    ensures Solid(a + b) > Solid(c + d)
  {
    SolidBoth(a, b);
    SolidBoth(c, d);
  }

  lemma SolidRewritten(rule: Rule, args: string)
    requires Sound(rule) && |Split(args)| == |rule.labels|
    ensures Solid(Rewritten(rule, args)) > Solid("(" + args + ")")
  {
    var parts, obj := Split(args), Object(rule, Split(args));
    var last := |parts| - 1;
    SplitJoins(args);
    SolidLabelled(rule, parts, last);
    SolidField(rule, last, parts[last], " }");
    SolidBoth(Labelled(rule, parts, last), Field(rule, last, parts[last], " }"));
    SolidBoth(Glue(parts, last), parts[last]);
    SolidAround(obj);
    SolidAround(args);
  }

  lemma SolidAround(t: string)
    ensures Solid("(" + t + ")") == Solid("(") + Solid(t) + Solid(")")
  {
    SolidBoth("(" + t, ")");
    SolidBoth("(", t);
  }

  lemma {:induction false} SolidRewrite(rule: Rule, t: string)
    requires Sound(rule)
    ensures Solid(Rewrite(rule, t)) >= Solid(t)
    ensures Calls(rule, t) != [] ==> Solid(Rewrite(rule, t)) > Solid(t)
    ensures Calls(rule, t) == [] ==> Rewrite(rule, t) == t
    decreases |t|
  {
    CutParts(rule, t);
    CallFits(rule, t);
    match CutText(rule, t)
    case Whole =>
    case Copy(head, rest) =>
      SolidRewrite(rule, rest);
      SolidBoth(head, rest);
      SolidBoth(head, Rewrite(rule, rest));
    case Call(head, args, rest) =>
      var was, now := "(" + args + ")", Rewritten(rule, args);
      SolidRewrite(rule, rest);
      SolidRewritten(rule, args);
      SolidBoth(head + was, rest);
      SolidBoth(head, was);
      SolidBoth(head + now, Rewrite(rule, rest));
      SolidBoth(head, now);
  }

  // A pass changes nothing exactly when it rewrites no call.
  lemma UnchangedExact(rule: Rule, t: string)
    requires Sound(rule)
    ensures Rewrite(rule, t) == t <==> Calls(rule, t) == []
  {
    SolidRewrite(rule, t);
  }

  // A second pass changes nothing exactly when no call's arguments have, one
  // bracket below the top, the number of commas that makes a call's.
  lemma IdempotentExact(rule: Rule, t: string)
    requires Sound(rule)
    ensures Rewrite(rule, Rewrite(rule, t)) == Rewrite(rule, t) <==> Settled(rule, t)
  {
    UnchangedExact(rule, Rewrite(rule, t));
    CallsAgain(rule, t);
  }

  // No bracket of t closes below depth zero.
  ghost predicate NeverBelow(t: string) { forall n :: 0 <= n <= |t| ==> Marks(t[..n], Level(0)).depth >= 0 }

  lemma {:induction false} NeverBelowNoCommas(t: string)
    requires NeverBelow(t)
    ensures Commas(t, Level(0), -1) == 0
  {
    if t != "" {
      var before := t[..|t| - 1];
      forall n | 0 <= n <= |before|
        ensures Marks(before[..n], Level(0)).depth >= 0
      {
        assert before[..n] == t[..n];
      }
      assert before[..|before|] == before;
      NeverBelowNoCommas(before);
    }
  }

  // So one pass is enough for every text with balanced brackets in its calls.
  lemma BalancedIdempotent(rule: Rule, t: string)
    requires Sound(rule) && |rule.labels| > 1 && forall args :: args in Calls(rule, t) ==> NeverBelow(args)
    ensures Rewrite(rule, Rewrite(rule, t)) == Rewrite(rule, t)
  {
    forall args | args in Calls(rule, t)
      ensures Commas(args, Level(0), -1) == 0
    {
      NeverBelowNoCommas(args);
    }
    IdempotentExact(rule, t);
  }

  // The two rules in use.
  lemma SignSound()
    ensures Sound(SIGN)
  {
    assert Plain("key") && Plain("data");
  }

  lemma VerifySound()
    ensures Sound(VERIFY)
  {
    SignSound();
    assert Plain("signature");
  }

  // One pass is not enough for "f(],[,c)": it makes "f({ key: ],[, data: c })",
  // where the first comma now separates arguments.
  lemma TwoPasses(rule: Rule)
    requires Sound(rule) && |rule.labels| == 2
    ensures var t := rule.needle + "(],[,c)"; Rewrite(rule, Rewrite(rule, t)) != Rewrite(rule, t)
  {
    var call := "(],[,c)";
    var t, args := rule.needle + call, "],[,c";
    Halves(rule.needle, call);
    assert StandsAt(t, 0, rule.needle);
    ScanExample(args);
    SplitJoins(args);
    CloseExample(call);
    ExampleSlice(call);
    assert args in Calls(rule, t);
    IdempotentExact(rule, t);
  }

  lemma ExampleSlice(t: string)
    requires t == "(],[,c)"
    ensures t[1..6] == "],[,c"
  {
    assert t == "(" + "],[,c" + ")";
  }

  lemma ScanExample(t: string)
    requires t == "],[,c"
    ensures Commas(t, Level(0), 0) == 1 && Commas(t, Level(0), -1) == 1
  {
    hide Marks, Commas;
    var m := Level(0);
    var texts := ["", "]", "],", "],[", "],[,", "],[,c"];
    NothingScanned(m);
    ExampleStep(texts[0], ']', m);
    ExampleStep(texts[1], ',', m);
    ExampleStep(texts[2], '[', m);
    ExampleStep(texts[3], ',', m);
    ExampleStep(texts[4], 'c', m);
    assert texts[1] == texts[0] + [']'] && texts[2] == texts[1] + [','] && texts[3] == texts[2] + ['['];
    assert texts[4] == texts[3] + [','] && texts[5] == texts[4] + ['c'];
  }

  lemma NothingScanned(m: Mark)
    ensures Marks("", m) == m && Commas("", m, 0) == 0 && Commas("", m, -1) == 0
  {
  }

  lemma ExampleStep(t: string, c: char, m: Mark)
    ensures Marks(t + [c], m) == NextMark(Marks(t, m), c)
    ensures Commas(t + [c], m, 0) == Commas(t, m, 0) + if c == ',' && Marks(t, m) == Level(0) then 1 else 0
    ensures Commas(t + [c], m, -1) == Commas(t, m, -1) + if c == ',' && Marks(t, m) == Level(-1) then 1 else 0
  {
    MarksNext(t, c, m);
    CommasNext(t, c, m, 0);
    CommasNext(t, c, m, -1);
  }

  lemma CloseExample(t: string)
    requires t == "(],[,c)"
    ensures CloseAt(t) == Some(6)
  {
    var quiet := "],[,c";
    assert t == "(" + quiet + ")";
    WalkAround(quiet, START);
    WalkBoth("(", quiet, START);
    WalkOne('(', START);
    WalkQuiet(quiet, NextParen(START, '('));
    CloseIs("(" + quiet);
  }

  // ---- The whole codemod ---------------------------------------------------

  // Signing calls first, then verifying ones.
  function Whole(t: string): string {
    SignSound();
    VerifySound();
    Rewrite(VERIFY, Rewrite(SIGN, t))
  }

  // For each of the two rules in use.
  lemma SignIdempotent(t: string)
    ensures Sound(SIGN) && (Rewrite(SIGN, Rewrite(SIGN, t)) == Rewrite(SIGN, t) <==> Settled(SIGN, t))
  {
    SignSound();
    IdempotentExact(SIGN, t);
  }

  lemma VerifyIdempotent(t: string)
    ensures Sound(VERIFY) && (Rewrite(VERIFY, Rewrite(VERIFY, t)) == Rewrite(VERIFY, t) <==> Settled(VERIFY, t))
  {
    VerifySound();
    IdempotentExact(VERIFY, t);
  }

  // The codemod leaves a text alone exactly when neither rule finds a call.
  lemma WholeUnchangedExact(t: string)
    ensures Sound(SIGN) && Sound(VERIFY) && (Whole(t) == t <==> Calls(SIGN, t) == [] && Calls(VERIFY, t) == [])
  {
    SignSound();
    VerifySound();
    SolidRewrite(SIGN, t);
    SolidRewrite(VERIFY, Rewrite(SIGN, t));
  }

  // Running it again changes nothing exactly when its second rule is settled and
  // has left its first one no call; without calls to verify, exactly when the
  // first rule is settled.
  lemma WholeIdempotentExact(t: string)
    ensures Sound(SIGN) && Sound(VERIFY)
    ensures Whole(Whole(t)) == Whole(t) <==> Settled(VERIFY, Rewrite(SIGN, t)) && Calls(SIGN, Whole(t)) == []
    ensures Calls(VERIFY, Rewrite(SIGN, t)) == [] ==> (Whole(Whole(t)) == Whole(t) <==> Settled(SIGN, t))
  {
    SignSound();
    VerifySound();
    WholeUnchangedExact(Whole(t));
    CallsAgain(VERIFY, Rewrite(SIGN, t));
    CallsAgain(SIGN, t);
    UnchangedExact(VERIFY, Rewrite(SIGN, t));
  }
}
