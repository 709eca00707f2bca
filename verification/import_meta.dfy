// Replacing import.meta outside strings and comments
// (fuzz/fuzz_targets/fuzz_js_import_meta.rs, after crates/js/src/transpiler.rs).
module ImportMeta {
  import opened Prelude

  // A text to look for, and what to put there.
  datatype Rule = Rule(from: string, to: string)

  const META_ENV := "__vvva_meta_env__"
  const UNDEFINED := "undefined"
  const ENV := "(typeof " + META_ENV + " !== '" + UNDEFINED + "' ? " + META_ENV + " : (typeof process !== '"
    + UNDEFINED + "' ? process.env : {}))"

  const META_PATTERNS: seq<Rule> := [
    Rule("import.meta.resolve(", "__vvva_meta_resolve__("),
    Rule("import.meta.glob(", "__vvva_meta_glob__("),
    Rule("import.meta.hot", UNDEFINED),
    Rule("import.meta.vitest", UNDEFINED),
    Rule("import.meta.env", ENV),
    Rule("import.meta.url", "__vvva_meta_url__")
  ]

  // ---- One pass, byte by byte ----------------------------------------------

  // Where the scanner is. A string goes back to what is around it; a template
  // goes in and out of its interpolations, which count their braces.
  datatype Mode =
    | Code
    | Line
    | Block
    | Str(quote: char, outer: Mode)
    | Template
    | Interpolation(depth: int)

  // What it does there: replace a match, or copy one byte or two.
  datatype Move = Hit(mode: Mode) | One(mode: Mode) | Two(mode: Mode)

  predicate Is(text: string, i: nat, c: char) { i < |text| && text[i] == c }

  predicate IsQuote(c: char) { c == '"' || c == '\'' }

  // `hit` says whether what is looked for stands at i.
  function InCode(text: string, hit: bool, i: nat): Move
    requires i < |text|
  {
    if text[i] == '/' && Is(text, i + 1, '/') then One(Line)
    else if text[i] == '/' && Is(text, i + 1, '*') then Two(Block)
    else if IsQuote(text[i]) then One(Str(text[i], Code))
    else if text[i] == '`' then One(Template)
    else if hit then Hit(Code)
    else One(Code)
  }

  // A backslash takes the next byte with it.
  function Escape(text: string, i: nat, mode: Mode): Move {
    if i + 1 < |text| then Two(mode) else One(mode)
  }

  function InBlock(text: string, hit: bool, i: nat): Move
    requires i < |text|
  {
    if i + 1 == |text| then InCode(text, hit, i)
    else if text[i] == '*' && text[i + 1] == '/' then Two(Code)
    else One(Block)
  }

  function InTemplate(text: string, i: nat): Move
    requires i < |text|
  {
    if text[i] == '\\' then Escape(text, i, Template)
    else if text[i] == '`' then One(Code)
    else if text[i] == '$' && Is(text, i + 1, '{') then Two(Interpolation(1))
    else One(Template)
  }

  function InInterpolation(text: string, hit: bool, i: nat, depth: int): Move
    requires i < |text|
  {
    if text[i] == '{' then One(Interpolation(depth + 1))
    else if text[i] == '}' then One(if depth == 1 then Template else Interpolation(depth - 1))
    else if IsQuote(text[i]) then One(Str(text[i], Interpolation(depth)))
    else if hit then Hit(Interpolation(depth))
    else One(Interpolation(depth))
  }

  function InString(text: string, i: nat, quote: char, outer: Mode): Move
    requires i < |text|
  {
    if text[i] == '\\' then Escape(text, i, Str(quote, outer))
    else One(if text[i] == quote then outer else Str(quote, outer))
  }

  function Scan(text: string, hit: bool, i: nat, mode: Mode): (m: Move)
    requires i < |text|
    ensures m.Two? ==> i + 1 < |text|
    ensures m.Hit? ==> hit
  {
    match mode
    case Code => InCode(text, hit, i)
    case Line => if text[i] == '\n' then InCode(text, hit, i) else One(Line)
    case Block => InBlock(text, hit, i)
    case Str(quote, outer) => InString(text, i, quote, outer)
    case Template => InTemplate(text, i)
    case Interpolation(depth) => InInterpolation(text, hit, i, depth)
  }

  function Next(text: string, from: string, i: nat, mode: Mode): (m: Move)
    requires i < |text|
    ensures m.Two? ==> i + 1 < |text|
    ensures m.Hit? ==> StandsAt(text, i, from)
  {
    Scan(text, StandsAt(text, i, from), i, mode)
  }

  // The rest of a pass over a text, carrying along one item for each byte.
  function Run<A>(text: string, from: string, items: seq<A>, to: seq<A>, i: nat, mode: Mode, out: seq<A>): seq<A>
    requires |items| == |text| && from != ""
    decreases |text| - i
  {
    if i >= |text| then out
    else match Next(text, from, i, mode)
      case Hit(m) => Run(text, from, items, to, i + |from|, m, out + to)
      case One(m) => Run(text, from, items, to, i + 1, m, out + [items[i]])
      case Two(m) => Run(text, from, items, to, i + 2, m, out + [items[i]] + [items[i + 1]])
  }

  function Pass(text: string, rule: Rule): string
    requires rule.from != ""
  {
    Run(text, rule.from, text, rule.to, 0, Code, "")
  }

  function Passes(text: string, rules: seq<Rule>): string
    requires forall k :: 0 <= k < |rules| ==> rules[k].from != ""
  {
    if rules == [] then text else Pass(Passes(text, rules[..|rules| - 1]), rules[|rules| - 1])
  }

  // ---- The loops -----------------------------------------------------------

  // What a pass makes of the text, seen from where it stands.
  ghost function Ahead(text: string, rule: Rule, i: nat, mode: Mode, out: string): string
    requires rule.from != ""
  {
    Run(text, rule.from, text, rule.to, i, mode, out)
  }

  method ReplaceOutside(source: string, rule: Rule) returns (out: string)
    requires rule.from != ""
    ensures out == Pass(source, rule)
  {
    out := "";
    var i := 0;
    while i < |source|
      invariant Ahead(source, rule, i, Code, out) == Pass(source, rule)
      decreases |source| - i
    {
      var b := source[i];
      if b == '/' && i + 1 < |source| && source[i + 1] == '/' {
        i, out := CopyLine(source, rule, i, out);
      } else if b == '/' && i + 1 < |source| && source[i + 1] == '*' {
        i, out := CopyBlock(source, rule, i + 2, out + [b] + [source[i + 1]]);
      } else if IsQuote(b) {
        i, out := CopyString(source, rule, i + 1, out + [b], b, Code);
      } else if b == '`' {
        i, out := CopyTemplate(source, rule, i + 1, out + [b]);
      } else if StandsAt(source, i, rule.from) {
        i, out := i + |rule.from|, out + rule.to;
      } else {
        i, out := i + 1, out + [b];
      }
    }
  }

  method CopyLine(source: string, rule: Rule, start: nat, out0: string) returns (i: nat, out: string)
    requires rule.from != "" && start < |source|
    requires InCode(source, StandsAt(source, start, rule.from), start) == One(Line)
    ensures i > start && Ahead(source, rule, i, Code, out) == Ahead(source, rule, start, Code, out0)
  {
    i, out := start + 1, out0 + [source[start]];
    while i < |source| && source[i] != '\n'
      invariant i > start && Ahead(source, rule, i, Line, out) == Ahead(source, rule, start, Code, out0)
    {
      i, out := i + 1, out + [source[i]];
    }
  }

  method CopyBlock(source: string, rule: Rule, start: nat, out0: string) returns (i: nat, out: string)
    requires rule.from != "" && start <= |source|
    ensures i >= start && Ahead(source, rule, i, Code, out) == Ahead(source, rule, start, Block, out0)
  {
    i, out := start, out0;
    while i + 1 < |source| && !(source[i] == '*' && source[i + 1] == '/')
      invariant i >= start && Ahead(source, rule, i, Block, out) == Ahead(source, rule, start, Block, out0)
    {
      i, out := i + 1, out + [source[i]];
    }
    if i + 1 < |source| {
      i, out := i + 2, out + [source[i]] + [source[i + 1]];
    }
  }

  method CopyString(source: string, rule: Rule, start: nat, out0: string, quote: char, outer: Mode)
        returns (i: nat, out: string)
    requires rule.from != ""
    ensures i >= start && Ahead(source, rule, i, outer, out) == Ahead(source, rule, start, Str(quote, outer), out0)
  {
    i, out := start, out0;
    while i < |source|
      invariant i >= start
      invariant Ahead(source, rule, i, Str(quote, outer), out) == Ahead(source, rule, start, Str(quote, outer), out0)
    {
      var c := source[i];
      if c == '\\' {
        i, out := i + 1, out + [c];
        if i < |source| {
          i, out := i + 1, out + [source[i]];
        }
      } else {
        i, out := i + 1, out + [c];
        if c == quote { return; }
      }
    }
  }

  method CopyTemplate(source: string, rule: Rule, start: nat, out0: string) returns (i: nat, out: string)
    requires rule.from != ""
    ensures i >= start && Ahead(source, rule, i, Code, out) == Ahead(source, rule, start, Template, out0)
  {
    i, out := start, out0;
    while i < |source|
      invariant i >= start && Ahead(source, rule, i, Template, out) == Ahead(source, rule, start, Template, out0)
      decreases |source| - i
    {
      var c := source[i];
      if c == '\\' {
        i, out := i + 1, out + [c];
        if i < |source| {
          i, out := i + 1, out + [source[i]];
        }
      } else if c == '`' {
        i, out := i + 1, out + [c];
        return;
      } else if c == '$' && i + 1 < |source| && source[i + 1] == '{' {
        i, out := CopyInterpolation(source, rule, i + 2, out + [c] + [source[i + 1]]);
      } else {
        i, out := i + 1, out + [c];
      }
    }
  }

  method CopyInterpolation(source: string, rule: Rule, start: nat, out0: string) returns (i: nat, out: string)
    requires rule.from != ""
    ensures i >= start && Ahead(source, rule, i, Template, out) == Ahead(source, rule, start, Interpolation(1), out0)
  {
    i, out := start, out0;
    var depth := 1;
    while i < |source| && depth > 0
      invariant i >= start && depth >= 0
      invariant Ahead(source, rule, i, if depth == 0 then Template else Interpolation(depth), out)
        == Ahead(source, rule, start, Interpolation(1), out0)
      decreases |source| - i
    {
      var c := source[i];
      if c == '{' {
        i, out, depth := i + 1, out + [c], depth + 1;
      } else if c == '}' {
        i, out, depth := i + 1, out + [c], depth - 1;
      } else if IsQuote(c) {
        i, out := CopyString(source, rule, i + 1, out + [c], c, Interpolation(depth));
      } else if StandsAt(source, i, rule.from) {
        i, out := i + |rule.from|, out + rule.to;
      } else {
        i, out := i + 1, out + [c];
      }
    }
  }

  method ReplaceImportMeta(source: string, rules: seq<Rule>) returns (result: string)
    requires forall k :: 0 <= k < |rules| ==> rules[k].from != ""
    ensures result == Passes(source, rules)
  {
    result := source;
    for k := 0 to |rules|
      invariant result == Passes(source, rules[..k])
    {
      assert rules[..k + 1][..k] == rules[..k];
      result := ReplaceOutside(result, rules[k]);
    }
    assert rules[..|rules|] == rules;
  }

  // ---- What a pass never replaces ------------------------------------------

  lemma CopyOne(text: string, j: nat, out: string)
    requires j < |text|
    ensures out + Sub(text, j, j + 1) == out + [text[j]]
  {
    assert Sub(text, j, j) == "";
  }

  lemma CopyFirst(text: string, j: nat, end: nat, out: string)
    requires j < end <= |text|
    ensures out + [text[j]] + Sub(text, j + 1, end) == out + Sub(text, j, end)
  {
    Join(text, j, j + 1, end);
    CopyOne(text, j, "");
  }

  // The string whose text stands at j closes at `close`; a backslash takes the
  // next byte with it.
  ghost predicate Closes(text: string, j: nat, quote: char, close: nat)
    decreases close - j
  {
    && j <= close < |text|
    && (if j == close then text[j] == quote && quote != '\\'
        else if text[j] == '\\' then Closes(text, j + 2, quote, close)
        else text[j] != quote && Closes(text, j + 1, quote, close))
  }

  // From j on, inside a string, up to its closing quote.
  lemma {:induction false} StringCopied(text: string, rule: Rule, j: nat, close: nat, quote: char, outer: Mode,
        out: string)
    requires rule.from != "" && Closes(text, j, quote, close)
    ensures Ahead(text, rule, j, Str(quote, outer), out)
      == Ahead(text, rule, close + 1, outer, out + Sub(text, j, close + 1))
    decreases close - j
  {
    hide Sub;
    if j == close {
      CopyOne(text, j, out);
    } else if text[j] == '\\' {
      StringCopied(text, rule, j + 2, close, quote, outer, out + [text[j]] + [text[j + 1]]);
      CopyTwo(text, j, close + 1, out);
    } else {
      StringCopied(text, rule, j + 1, close, quote, outer, out + [text[j]]);
      CopyFirst(text, j, close + 1, out);
    }
  }

  lemma CopyTwo(text: string, j: nat, end: nat, out: string)
    requires j + 1 < end <= |text|
    ensures out + [text[j]] + [text[j + 1]] + Sub(text, j + 2, end) == out + Sub(text, j, end)
  {
    hide Sub;
    CopyFirst(text, j + 1, end, out + [text[j]]);
    CopyFirst(text, j, end, out);
  }

  // From j on, inside a line comment, up to the end of its line.
  lemma {:induction false} CommentCopied(text: string, rule: Rule, j: nat, end: nat, out: string)
    requires rule.from != "" && j <= end <= |text| && (end < |text| ==> text[end] == '\n')
    requires forall k :: j <= k < end ==> text[k] != '\n'
    ensures Ahead(text, rule, j, Line, out) == Ahead(text, rule, end, Code, out + Sub(text, j, end))
    decreases end - j
  {
    if j == end {
      assert out + Sub(text, j, j) == out;
    } else {
      CommentCopied(text, rule, j + 1, end, out + [text[j]]);
      CopyFirst(text, j, end, out);
    }
  }
}
