// The whole codemod on a text that only signs or only verifies
// (crates/cli/src/main.rs).
module CodemodNeedles {
  import opened Prelude
  import opened Codemod
  import opened CodemodTheorems
  import Specifiers

  // The needle stands nowhere in the text.
  ghost predicate Free(n: string, t: string) {
    forall i {:trigger StandsAt(t, i, n)} :: 0 <= i <= |t| ==> !StandsAt(t, i, n)
  }

  // Characters that no needle holds: what a rewrite puts around arguments.
  predicate Apart(n: string) { '.' in n && '(' !in n && ')' !in n && ' ' !in n && ',' !in n && '{' !in n }

  // ---- Joining and cutting -------------------------------------------------

  lemma FreePart(n: string, x: string, t: string, y: string)
    requires Free(n, x + t + y)
    ensures Free(n, t)
  {
    forall i | 0 <= i <= |t|
      ensures !StandsAt(t, i, n)
    {
      if StandsAt(t, i, n) {
        assert (x + t + y)[|x| + i..|x| + i + |n|] == t[i..i + |n|];
        assert StandsAt(x + t + y, |x| + i, n);
      }
    }
  }

  lemma FreeSlice(n: string, t: string, a: nat, b: nat)
    requires Free(n, t) && a <= b <= |t|
    ensures Free(n, t[a..b])
  {
    assert t == t[..a] + t[a..b] + t[b..];
    FreePart(n, t[..a], t[a..b], t[b..]);
  }

  lemma StandsWithin(t: string, i: nat, n: string, k: nat)
    requires StandsAt(t, i, n) && k < |n|
    ensures t[i + k] == n[k]
  {
    assert t[i..i + |n|][k] == n[k];
  }

  // Where one side of the join is no needle's, none stands across it.
  lemma FreeJoin(n: string, a: string, b: string)
    requires Free(n, a) && Free(n, b) && n != ""
    requires (a != "" && a[|a| - 1] !in n) || (b != "" && b[0] !in n)
    ensures Free(n, a + b)
  {
    forall i | 0 <= i <= |a + b|
      ensures !StandsAt(a + b, i, n)
    {
      if StandsAt(a + b, i, n) {
        if i + |n| <= |a| {
          assert a[i..i + |n|] == (a + b)[i..i + |n|];
          assert StandsAt(a, i, n);
        } else if i >= |a| {
          assert b[i - |a|..i - |a| + |n|] == (a + b)[i..i + |n|];
          assert StandsAt(b, i - |a|, n);
        } else if a[|a| - 1] !in n {
          StandsWithin(a + b, i, n, |a| - 1 - i);
        } else {
          StandsWithin(a + b, i, n, |a| - i);
        }
      }
    }
  }

  lemma FreeMissing(n: string, t: string, c: char)
    requires c in n && c !in t
    ensures Free(n, t)
  {
    var k :| 0 <= k < |n| && n[k] == c;
    forall i | 0 <= i <= |t|
      ensures !StandsAt(t, i, n)
    {
      if StandsAt(t, i, n) { StandsWithin(t, i, n, k); }
    }
  }

  lemma {:induction false} FreeTrimStart(n: string, t: string)
    requires Free(n, t)
    ensures Free(n, TrimStart(t))
    decreases |t|
  {
    if t != "" && Specifiers.IsSpace(t[0]) {
      FreeSlice(n, t, 1, |t|);
      assert t[1..|t|] == t[1..];
      FreeTrimStart(n, t[1..]);
    }
  }

  lemma {:induction false} FreeTrimEnd(n: string, t: string)
    requires Free(n, t)
    ensures Free(n, TrimEnd(t))
    decreases |t|
  {
    if t != "" && Specifiers.IsSpace(t[|t| - 1]) {
      FreeSlice(n, t, 0, |t| - 1);
      assert t[0..|t| - 1] == t[..|t| - 1];
      FreeTrimEnd(n, t[..|t| - 1]);
    }
  }

  // ---- Arguments and objects -----------------------------------------------

  ghost predicate FreeParts(n: string, parts: seq<string>) { forall k :: 0 <= k < |parts| ==> Free(n, parts[k]) }

  // The part under way is the end of the text.
  lemma {:induction false} CurIsEnd(t: string)
    ensures var a := SplitAll(t); |a.cur| <= |t| && a.cur == t[|t| - |a.cur|..]
  {
    hide Marks;
    if t != "" {
      var before := t[..|t| - 1];
      CurIsEnd(before);
      var cur := SplitAll(before).cur;
      assert t == before + [t[|t| - 1]];
      assert cur + [t[|t| - 1]] == t[|t| - 1 - |cur|..];
    }
  }

  // The parts of a text are stretches of it.
  lemma {:induction false} FreeSplit(n: string, t: string)
    requires Free(n, t)
    ensures Free(n, SplitAll(t).cur) && FreeParts(n, SplitAll(t).done)
  {
    hide Free, Marks;
    var cur := SplitAll(t).cur;
    CurIsEnd(t);
    FreeSlice(n, t, |t| - |cur|, |t|);
    assert t[|t| - |cur|..|t|] == cur;
    if t != "" {
      FreeSlice(n, t, 0, |t| - 1);
      assert t[0..|t| - 1] == t[..|t| - 1];
      FreeSplit(n, t[..|t| - 1]);
    }
  }

  lemma FreeField(n: string, rule: Rule, k: nat, part: string, end: string)
    requires Apart(n) && k < |rule.labels| && '.' !in rule.labels[k] && Free(n, part) && (end == "," || end == " }")
    ensures Free(n, Field(rule, k, part, end)) && Field(rule, k, part, end) != "" && Field(rule, k, part, end)[0] == ' '
  {
    hide Free, TrimStart, TrimEnd, Trim;
    var name, value := Label(rule, k), TrimEnd(TrimStart(part));
    FreeMissing(n, name, '.');
    FreeMissing(n, end, '.');
    FreeTrimStart(n, part);
    FreeTrimEnd(n, TrimStart(part));
    TrimIs(part);
    FreeJoin(n, name, value);
    FreeJoin(n, name + value, end);
  }

  lemma TrimIs(part: string)
    ensures Trim(part) == TrimEnd(TrimStart(part))
  {
  }

  lemma {:induction false} FreeLabelled(n: string, rule: Rule, parts: seq<string>, k: nat)
    requires Apart(n) && k <= |parts| == |rule.labels| && FreeParts(n, parts)
    requires forall i :: 0 <= i < |rule.labels| ==> '.' !in rule.labels[i]
    ensures Free(n, Labelled(rule, parts, k))
  {
    hide Free, Field;
    if k == 0 {
      FreeMissing(n, "{", '.');
    } else {
      FreeLabelled(n, rule, parts, k - 1);
      FreeField(n, rule, k - 1, parts[k - 1], ",");
      FreeJoin(n, Labelled(rule, parts, k - 1), Field(rule, k - 1, parts[k - 1], ","));
    }
  }

  lemma FreeObject(n: string, rule: Rule, parts: seq<string>)
    requires Apart(n) && |parts| == |rule.labels| > 0 && FreeParts(n, parts)
    requires forall i :: 0 <= i < |rule.labels| ==> '.' !in rule.labels[i]
    ensures Free(n, Object(rule, parts))
  {
    hide Free, Field, Labelled;
    var last := |parts| - 1;
    FreeLabelled(n, rule, parts, last);
    FreeField(n, rule, last, parts[last], " }");
    FreeJoin(n, Labelled(rule, parts, last), Field(rule, last, parts[last], " }"));
  }

  // ---- A pass brings no needle of another rule -----------------------------

  lemma FreeRewritten(n: string, rule: Rule, args: string)
    requires Sound(rule) && Apart(n) && |Split(args)| == |rule.labels| && Free(n, args)
    requires forall i :: 0 <= i < |rule.labels| ==> '.' !in rule.labels[i]
    ensures Free(n, Rewritten(rule, args))
  {
    hide Free, Object;
    FreeSplit(n, args);
    FreeObject(n, rule, Split(args));
    FreeMissing(n, "(", '.');
    FreeMissing(n, ")", '.');
    FreeJoin(n, "(", Object(rule, Split(args)));
    FreeJoin(n, "(" + Object(rule, Split(args)), ")");
  }

  // Behind any text x, so that nothing stands across the joins either.
  lemma {:induction false} FreeRewrite(n: string, rule: Rule, x: string, t: string)
    requires Sound(rule) && Apart(n) && Free(n, x + t)
    requires forall i :: 0 <= i < |rule.labels| ==> '.' !in rule.labels[i]
    ensures Free(n, x + Rewrite(rule, t))
    decreases |t|
  {
    hide Free, CutText, Rewritten;
    var cut := CutText(rule, t);
    CallFits(rule, t);
    CutParts(rule, t);
    match cut
    case Whole =>
    case Copy(head, rest) =>
      Regroup(x, head, rest);
      FreeRewrite(n, rule, x + head, rest);
      Regroup(x, head, Rewrite(rule, rest));
    case Call(head, args, rest) =>
      FreeRest(n, x, head, args, rest);
      FreeRewrite(n, rule, "", rest);
      FreeRewritten(n, rule, args);
      RewrittenEnds(rule, args);
      assert "" + Rewrite(rule, rest) == Rewrite(rule, rest);
      FreeCall(n, x + head, Rewritten(rule, args), Rewrite(rule, rest));
      assert x + head + Rewritten(rule, args) + Rewrite(rule, rest)
        == x + (head + Rewritten(rule, args) + Rewrite(rule, rest));
  }

  lemma RewrittenEnds(rule: Rule, args: string)
    requires Sound(rule) && |Split(args)| == |rule.labels|
    ensures var r := Rewritten(rule, args); r != "" && r[0] == '(' && r[|r| - 1] == ')'
  {
    hide Object;
  }

  lemma FreeRest(n: string, x: string, head: string, args: string, rest: string)
    requires Free(n, x + (head + ("(" + args + ")") + rest))
    ensures Free(n, x + head) && Free(n, args) && Free(n, "" + rest)
  {
    hide Free;
    var t := x + (head + ("(" + args + ")") + rest);
    assert t == "" + (x + head) + ("(" + args + ")" + rest);
    FreePart(n, "", x + head, "(" + args + ")" + rest);
    assert t == (x + head + "(") + args + (")" + rest);
    FreePart(n, x + head + "(", args, ")" + rest);
    assert t == (x + head + "(" + args + ")") + ("" + rest) + "";
    FreePart(n, x + head + "(" + args + ")", "" + rest, "");
  }

  lemma FreeCall(n: string, head: string, call: string, rest: string)
    requires Apart(n) && Free(n, head) && Free(n, call) && Free(n, rest)
    requires call != "" && call[0] == '(' && call[|call| - 1] == ')'
    ensures Free(n, head + call + rest)
  {
    hide Free;
    FreeJoin(n, head, call);
    FreeJoin(n, head + call, rest);
  }

  lemma {:induction false} FreeFirst(t: string, n: string, i: nat)
    requires Free(n, t)
    ensures First(t, n, i) == None
    decreases |t| - i
  {
    if i + |n| <= |t| { FreeFirst(t, n, i + 1); }
  }

  lemma FreeCalls(rule: Rule, t: string)
    requires Sound(rule) && Free(rule.needle, t)
    ensures Calls(rule, t) == [] && Rewrite(rule, t) == t
  {
    FreeFirst(t, rule.needle, 0);
  }

  lemma NeedleApart(n: string)
    requires n == "pq.dsa.sign" || n == "pq.dsa.verify"
    ensures Apart(n)
  {
    assert n[2] == '.';
  }

  lemma NoDot(name: string)
    requires name == "key" || name == "data" || name == "signature"
    ensures '.' !in name
  {
  }

  lemma NeedlesApart()
    ensures Apart(SIGN.needle) && Apart(VERIFY.needle)
    ensures forall i :: 0 <= i < |SIGN.labels| ==> '.' !in SIGN.labels[i]
    ensures forall i :: 0 <= i < |VERIFY.labels| ==> '.' !in VERIFY.labels[i]
  {
    hide Apart;
    NeedleApart(SIGN.needle);
    NeedleApart(VERIFY.needle);
    NoDot("key");
    NoDot("data");
    NoDot("signature");
  }

  // In a text without the one needle, running the codemod again changes nothing
  // exactly when the other rule is settled.
  lemma WholeIdempotentAlone(t: string)
    ensures Sound(SIGN) && Sound(VERIFY)
    ensures Free(VERIFY.needle, t) ==>
      (CodemodTheorems.Whole(CodemodTheorems.Whole(t)) == CodemodTheorems.Whole(t) <==> Settled(SIGN, t))
    ensures Free(SIGN.needle, t) ==>
      (CodemodTheorems.Whole(CodemodTheorems.Whole(t)) == CodemodTheorems.Whole(t) <==> Settled(VERIFY, t))
  {
    hide Free, Rewrite, Calls;
    SignSound();
    VerifySound();
    NeedlesApart();
    WholeIdempotentExact(t);
    assert "" + t == t;
    if Free(VERIFY.needle, t) {
      FreeRewrite(VERIFY.needle, SIGN, "", t);
      assert "" + Rewrite(SIGN, t) == Rewrite(SIGN, t);
      FreeCalls(VERIFY, Rewrite(SIGN, t));
    }
    if Free(SIGN.needle, t) {
      FreeCalls(SIGN, t);
      FreeRewrite(SIGN.needle, VERIFY, "", t);
      assert "" + Rewrite(VERIFY, t) == Rewrite(VERIFY, t);
      FreeCalls(SIGN, Rewrite(VERIFY, t));
    }
  }
}
