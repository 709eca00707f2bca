// The codemod's call rewriter: positional arguments become one object
// (crates/cli/src/main.rs).
module Codemod {
  import opened Prelude
  import Specifiers

  // ---- What both scanners know of strings ----------------------------------

  datatype QuoteMark = Double | Single | Back

  datatype Quote = Code | Str(mark: QuoteMark, escaped: bool)

  function MarkOf(c: char): Option<QuoteMark> {
    if c == '"' then Some(Double) else if c == '\'' then Some(Single) else if c == '`' then Some(Back) else None
  }

  function NextQuote(q: Quote, c: char): Quote {
    match q
    case Str(mark, escaped) =>
      if escaped then Str(mark, false)
      else if c == '\\' then Str(mark, true)
      else if MarkOf(c) == Some(mark) then Code
      else q
    case Code => if MarkOf(c).Some? then Str(MarkOf(c).value, false) else Code
  }

  // ---- Finding the end of a call -------------------------------------------

  datatype Paren = Open(quote: Quote, depth: nat) | Closed

  function NextParen(p: Paren, c: char): Paren {
    if p.Closed? then Closed
    else if p.quote.Code? && c == '(' then Open(Code, p.depth + 1)
    else if p.quote.Code? && c == ')' then (if p.depth <= 1 then Closed else Open(Code, p.depth - 1))
    else Open(NextQuote(p.quote, c), p.depth)
  }

  const START: Paren := Open(Code, 0)

  function Walk(t: string, p: Paren): Paren {
    if t == "" then p else NextParen(Walk(t[..|t| - 1], p), t[|t| - 1])
  }

  // Where the call that opens at the start of t closes.
  function CloseAt(t: string): (end: Option<nat>)
    ensures end.Some? ==> end.value < |t| && t[end.value] == ')' && (t[0] == '(' ==> end.value > 0)
    ensures end.Some? <==> Walk(t, START) == Closed
  {
    if t == "" then None
    else
      var before := CloseAt(t[..|t| - 1]);
      if before.Some? then before
      else if Walk(t, START) == Closed then Some(|t| - 1)
      else None
  }

  // ---- Splitting the arguments ---------------------------------------------

  datatype Mark = Mark(quote: Quote, depth: int)

  function Turn(c: char): int {
    if c == '(' || c == '[' || c == '{' then 1 else if c == ')' || c == ']' || c == '}' then -1 else 0
  }

  function NextMark(m: Mark, c: char): Mark {
    Mark(NextQuote(m.quote, c), if m.quote.Code? then m.depth + Turn(c) else m.depth)
  }

  function Marks(t: string, m: Mark): Mark {
    if t == "" then m else NextMark(Marks(t[..|t| - 1], m), t[|t| - 1])
  }

  function Level(depth: int): Mark { Mark(Code, depth) }

  // How many commas of t stand outside strings and `level` brackets deep.
  function Commas(t: string, m: Mark, level: int): nat {
    if t == "" then 0
    else
      var before := t[..|t| - 1];
      Commas(before, m, level) + if t[|t| - 1] == ',' && Marks(before, m) == Level(level) then 1 else 0
  }

  // The arguments complete so far, and the one under way.
  datatype Args = Args(done: seq<string>, cur: string)

  function SplitNext(a: Args, m: Mark, c: char): Args {
    if c == ',' && m == Level(0) then Args(a.done + [a.cur], "") else Args(a.done, a.cur + [c])
  }

  function SplitAll(t: string): Args {
    if t == "" then Args([], "")
    else SplitNext(SplitAll(t[..|t| - 1]), Marks(t[..|t| - 1], Level(0)), t[|t| - 1])
  }

  function Split(t: string): seq<string> { SplitAll(t).done + [SplitAll(t).cur] }

  // ---- Rewriting -----------------------------------------------------------

  // The call to look for and the names its arguments get.
  datatype Rule = Rule(needle: string, labels: seq<string>)

  const SIGN: Rule := Rule("pq.dsa.sign", ["key", "data"])
  const VERIFY: Rule := Rule("pq.dsa.verify", ["key", "data", "signature"])

  // Neither a quote, a backslash, a bracket nor a comma.
  predicate IsPlain(c: char) { MarkOf(c).None? && c != '\\' && Turn(c) == 0 && c != ',' }

  predicate Plain(t: string) { forall i :: 0 <= i < |t| ==> IsPlain(t[i]) }

  predicate Sound(rule: Rule) {
    && rule.needle != "" && Plain(rule.needle)
    && rule.labels != [] && forall k :: 0 <= k < |rule.labels| ==> Plain(rule.labels[k])
  }

  function TrimStart(t: string): string
  {
    if t != "" && Specifiers.IsSpace(t[0]) then TrimStart(t[1..]) else t
  }

  function TrimEnd(t: string): string
  {
    if t != "" && Specifiers.IsSpace(t[|t| - 1]) then TrimEnd(t[..|t| - 1]) else t
  }

  function Trim(t: string): string { TrimEnd(TrimStart(t)) }

  function Label(rule: Rule, k: nat): string
    requires k < |rule.labels|
  {
    " " + rule.labels[k] + ": "
  }

  function Field(rule: Rule, k: nat, part: string, end: string): string
    requires k < |rule.labels|
  {
    Label(rule, k) + Trim(part) + end
  }

  // "{ key: a, data: b," for the first k arguments.
  function Labelled(rule: Rule, parts: seq<string>, k: nat): string
    requires k <= |parts| == |rule.labels|
  {
    if k == 0 then "{" else Labelled(rule, parts, k - 1) + Field(rule, k - 1, parts[k - 1], ",")
  }

  // "{ key: a, data: b }"
  function Object(rule: Rule, parts: seq<string>): string
    requires |parts| == |rule.labels| > 0
  {
    var last := |parts| - 1;
    Labelled(rule, parts, last) + Field(rule, last, parts[last], " }")
  }

  function First(t: string, needle: string, i: nat): (r: Option<nat>)
    ensures r.Some? ==> i <= r.value && r.value + |needle| <= |t|
    decreases |t| - i
  {
    if i + |needle| > |t| then None
    else if StandsAt(t, i, needle) then Some(i)
    else First(t, needle, i + 1)
  }

  // What a rewriter does next: copy all that is left; copy a stretch and go on
  // behind it; or copy a stretch, rewrite a call's arguments and go on behind them.
  datatype Cut = Whole | Copy(head: string, rest: string) | Call(head: string, args: string, rest: string)

  function CutBehind(rule: Rule, head: string, after: string): Cut {
    if after == "" || after[0] != '(' then Copy(head, after)
    else match CloseAt(after)
      case None => Copy(head, after)
      case Some(end) =>
        if |Split(after[1..end])| == |rule.labels| then Call(head, after[1..end], after[end + 1..])
        else Copy(head + after[..end + 1], after[end + 1..])
  }

  function CutText(rule: Rule, t: string): (c: Cut)
    requires Sound(rule)
    ensures !c.Whole? ==> |c.rest| < |t|
  {
    match First(t, rule.needle, 0)
    case None => Whole
    case Some(pos) => CutBehind(rule, t[..pos + |rule.needle|], t[pos + |rule.needle|..])
  }

  function Rewritten(rule: Rule, args: string): string
    requires Sound(rule) && |Split(args)| == |rule.labels|
  {
    "(" + Object(rule, Split(args)) + ")"
  }

  lemma CallFits(rule: Rule, t: string)
    requires Sound(rule)
    ensures CutText(rule, t).Call? ==> |Split(CutText(rule, t).args)| == |rule.labels|
  {
  }

  function Rewrite(rule: Rule, t: string): string
    requires Sound(rule)
    decreases |t|
  {
    var cut := CutText(rule, t);
    CallFits(rule, t);
    match cut
    case Whole => t
    case Copy(head, rest) => head + Rewrite(rule, rest)
    case Call(head, args, rest) => head + Rewritten(rule, args) + Rewrite(rule, rest)
  }

  // The argument texts that a pass rewrites, first to last.
  function Calls(rule: Rule, t: string): seq<string>
    requires Sound(rule)
    decreases |t|
  {
    match CutText(rule, t)
    case Whole => []
    case Copy(_, rest) => Calls(rule, rest)
    case Call(_, args, rest) => [args] + Calls(rule, rest)
  }

  // ---- The loops -----------------------------------------------------------

  method ExtractCallArgs(s: string) returns (r: Option<(string, nat)>)
    ensures r.Some? <==> s != "" && s[0] == '(' && CloseAt(s).Some?
    ensures r.Some? ==> CloseAt(s) == Some(r.value.1) && 0 < r.value.1 && r.value.0 == s[1..r.value.1]
  {
    if s == "" || s[0] != '(' { return None; }
    var depth, inStr, escaped := 0, None, false;
    for i := 0 to |s|
      invariant CloseAt(s[..i]) == None && depth >= 0 && (i > 0 ==> depth > 0)
      invariant escaped ==> inStr.Some?
      invariant Walk(s[..i], START) == Open(Quoted(inStr, escaped), depth)
    {
      var b := s[i];
      assert s[..i + 1][..i] == s[..i];
      if escaped {
        escaped := false;
      } else if b == '\\' && inStr.Some? {
        escaped := true;
      } else if inStr.Some? {
        if MarkOf(b) == inStr { inStr := None; }
      } else if MarkOf(b).Some? {
        inStr := MarkOf(b);
      } else if b == '(' {
        depth := depth + 1;
      } else if b == ')' {
        depth := depth - 1;
        if depth == 0 {
          CloseStays(s[..i + 1], s[i + 1..]);
          assert s == s[..i + 1] + s[i + 1..];
          return Some((s[1..i], i));
        }
      }
    }
    assert s[..|s|] == s;
    r := None;
  }

  function Quoted(inStr: Option<QuoteMark>, escaped: bool): Quote {
    if inStr.Some? then Str(inStr.value, escaped) else Code
  }

  method SplitTopLevelArgs(s: string) returns (args: seq<string>)
    ensures args == Split(s)
  {
    args := [];
    var depth, inStr, escaped, start := 0, None, false, 0;
    ghost var now := Args([], "");
    for i := 0 to |s|
      invariant 0 <= start <= i && (escaped ==> inStr.Some?)
      invariant Marks(s[..i], Level(0)) == Mark(Quoted(inStr, escaped), depth)
      invariant now == SplitAll(s[..i]) && now.done == args && now.cur == Sub(s, start, i)
    {
      var b := s[i];
      SplitStep(s, i);
      now := SplitNext(now, Mark(Quoted(inStr, escaped), depth), b);
      if escaped {
        escaped := false;
      } else if b == '\\' && inStr.Some? {
        escaped := true;
      } else if inStr.Some? {
        if MarkOf(b) == inStr { inStr := None; }
      } else if MarkOf(b).Some? {
        inStr := MarkOf(b);
      } else if b == '(' || b == '[' || b == '{' {
        depth := depth + 1;
      } else if b == ')' || b == ']' || b == '}' {
        depth := depth - 1;
      } else if b == ',' && depth == 0 {
        args := args + [Sub(s, start, i)];
        start := i + 1;
      }
    }
    assert s[..|s|] == s;
    args := args + [Sub(s, start, |s|)];
  }

  lemma SplitStep(s: string, i: nat)
    requires i < |s|
    ensures Marks(s[..i + 1], Level(0)) == NextMark(Marks(s[..i], Level(0)), s[i])
    ensures SplitAll(s[..i + 1]) == SplitNext(SplitAll(s[..i]), Marks(s[..i], Level(0)), s[i])
  {
    assert s[..i + 1][..i] == s[..i];
  }

  method RewriteCalls(rule: Rule, src: string) returns (result: string)
    requires Sound(rule)
    ensures result == Rewrite(rule, src)
  {
    result := "";
    var rest := src;
    var pos := First(rest, rule.needle, 0);
    while pos.Some?
      invariant Leaves(rule, src, result, rest)
      invariant pos == First(rest, rule.needle, 0)
      decreases |rest|
    {
      ghost var was := rest;
      var copied;
      copied, rest := RewriteOne(rule, rest, pos.value);
      RewriteGoesOn(rule, src, result, was, copied, rest);
      result := result + copied;
      pos := First(rest, rule.needle, 0);
    }
    result := result + rest;
  }

  // What the text becomes: what is written so far, and what becomes of the rest.
  ghost predicate Leaves(rule: Rule, src: string, result: string, rest: string)
    requires Sound(rule)
  {
    Rewrite(rule, src) == result + Rewrite(rule, rest)
  }

  // One turn of the loop, at a needle.
  method RewriteOne(rule: Rule, t: string, pos: nat) returns (copied: string, rest: string)
    requires Sound(rule) && First(t, rule.needle, 0) == Some(pos)
    ensures Copied(rule, CutText(rule, t), copied, rest)
  {
    copied, rest := RewriteBehind(rule, t[..pos + |rule.needle|], t[pos + |rule.needle|..]);
  }

  method RewriteBehind(rule: Rule, head: string, after: string) returns (copied: string, rest: string)
    requires Sound(rule)
    ensures Copied(rule, CutBehind(rule, head, after), copied, rest)
  {
    if after == "" || after[0] != '(' {
      return head, after;
    }
    var extracted := ExtractCallArgs(after);
    if extracted.None? {
      return head, after;
    }
    var argsStr, end := extracted.value.0, extracted.value.1;
    var args := SplitTopLevelArgs(argsStr);
    copied := if |args| == |rule.labels| then head + ("(" + Object(rule, args) + ")") else head + after[..end + 1];
    rest := after[end + 1..];
  }

  predicate Copied(rule: Rule, cut: Cut, copied: string, rest: string)
    requires Sound(rule)
  {
    match cut
    case Whole => false
    case Copy(head, r) => copied == head && rest == r
    case Call(head, args, r) => |Split(args)| == |rule.labels| && copied == head + Rewritten(rule, args) && rest == r
  }

  lemma RewriteGoesOn(rule: Rule, src: string, result: string, t: string, copied: string, rest: string)
    requires Sound(rule) && Copied(rule, CutText(rule, t), copied, rest) && Leaves(rule, src, result, t)
    ensures |rest| < |t|
    ensures Leaves(rule, src, result + copied, rest)
  {
    Regroup(result, copied, Rewrite(rule, rest));
  }

  lemma Regroup(a: string, b: string, c: string)
    ensures a + (b + c) == a + b + c
  {
  }

  lemma {:induction false} CloseStays(a: string, b: string)
    requires CloseAt(a).Some?
    ensures CloseAt(a + b) == CloseAt(a)
  {
    if b == "" {
      assert a + b == a;
    } else {
      CloseStays(a, b[..|b| - 1]);
      assert (a + b)[..|a + b| - 1] == a + b[..|b| - 1];
    }
  }
}
