// How long replaced texts get: no pass matches into what an earlier one put
// there, so every byte of the source pays for one replacement at most.
module ImportMetaBound {
  import opened Prelude
  import opened ImportMeta

  // Where a byte comes from: the source, or place `at` of the text that pass
  // number `rule` puts.
  datatype Tag = Source | Put(rule: nat, at: nat)

  ghost function TagAt(tags: seq<Tag>, i: int): Tag { if 0 <= i < |tags| then tags[i] else Source }

  // Nothing stands inside a text that was put: its bytes follow each other.
  ghost predicate Follows(rules: seq<Rule>, a: Tag, b: Tag) {
    && (b.Put? && b.at > 0 ==> a == Put(b.rule, b.at - 1))
    && (a.Put? && a.rule < |rules| && a.at + 1 < |rules[a.rule].to| ==> b == Put(a.rule, a.at + 1))
  }

  ghost predicate Put1(rules: seq<Rule>, n: nat, tag: Tag, c: char)
    requires n <= |rules|
  {
    tag.Put? ==> tag.rule < n && tag.at < |rules[tag.rule].to| && rules[tag.rule].to[tag.at] == c
  }

  // The tags of a text after n passes.
  ghost predicate TaggedAt(rules: seq<Rule>, n: nat, text: string, tags: seq<Tag>, i: nat)
    requires n <= |rules| && i <= |text| == |tags|
  {
    && Follows(rules, TagAt(tags, i - 1), TagAt(tags, i))
    && (i < |text| ==> Put1(rules, n, tags[i], text[i]))
  }

  ghost predicate Tagged(rules: seq<Rule>, n: nat, text: string, tags: seq<Tag>)
    requires n <= |rules|
  {
    && |tags| == |text|
    && forall i {:trigger TaggedAt(rules, n, text, tags, i)} :: 0 <= i <= |text| ==> TaggedAt(rules, n, text, tags, i)
  }

  // A text to look for and a text put earlier never overlap: laid over each
  // other in any way, they differ at the first common byte or the next.
  ghost predicate Apart(from: string, to: string) {
    && |from| >= 2 && |to| >= 2
    && (forall o :: 0 <= o < |to| && to[o] == from[0] ==> o + 1 < |to| && to[o + 1] != from[1])
    && (forall d :: 0 < d < |from| && from[d] == to[0] ==> d + 1 < |from| && from[d + 1] != to[1])
  }

  // Replacing puts at most num bytes for den bytes taken.
  ghost predicate Fine(rules: seq<Rule>, num: nat, den: nat) {
    && den <= num
    && (forall k :: 0 <= k < |rules| ==> rules[k].from != "" && den * |rules[k].to| <= num * |rules[k].from|)
    && (forall j, k :: 0 <= j < k < |rules| ==> Apart(rules[k].from, rules[j].to))
  }

  // No match starts in a text that was put.
  lemma NoneStarts(rules: seq<Rule>, n: nat, text: string, tags: seq<Tag>, i: nat)
    requires n < |rules| && Tagged(rules, n, text, tags) && i < |text| && tags[i].Put?
    requires tags[i].rule < |rules| && Apart(rules[n].from, rules[tags[i].rule].to)
    ensures !StandsAt(text, i, rules[n].from)
  {
    var from := rules[n].from;
    assert TaggedAt(rules, n, text, tags, i) && TaggedAt(rules, n, text, tags, i + 1);
    if i + |from| <= |text| {
      Letter(text, i, |from|, 0);
      Letter(text, i, |from|, 1);
    }
  }

  // Nor does one go into it.
  lemma NoneGoesOn(rules: seq<Rule>, n: nat, text: string, tags: seq<Tag>, i: nat, d: nat)
    requires n < |rules| && Tagged(rules, n, text, tags) && 0 < d < |rules[n].from| && i + d < |text|
    requires tags[i + d].Put? && tags[i + d - 1] == Source
    requires tags[i + d].rule < |rules| && Apart(rules[n].from, rules[tags[i + d].rule].to)
    ensures !StandsAt(text, i, rules[n].from)
  {
    var from := rules[n].from;
    assert TaggedAt(rules, n, text, tags, i + d) && TaggedAt(rules, n, text, tags, i + d + 1);
    if i + |from| <= |text| {
      Letter(text, i, |from|, d);
      if d + 1 < |from| { Letter(text, i, |from|, d + 1); }
    }
  }

  lemma Letter(text: string, i: nat, n: nat, d: nat)
    requires i + n <= |text| && d < n
    ensures text[i..i + n][d] == text[i + d]
  {
  }

  // A match is all source.
  lemma {:induction false} MatchIsSource(rules: seq<Rule>, n: nat, text: string, tags: seq<Tag>, i: nat, d: nat)
    requires n < |rules| && Tagged(rules, n, text, tags) && StandsAt(text, i, rules[n].from)
    requires forall j :: 0 <= j < n ==> Apart(rules[n].from, rules[j].to)
    requires d < |rules[n].from|
    ensures forall e :: i <= e <= i + d ==> tags[e] == Source
  {
    assert TaggedAt(rules, n, text, tags, i + d);
    if d == 0 {
      if tags[i].Put? { NoneStarts(rules, n, text, tags, i); }
    } else {
      MatchIsSource(rules, n, text, tags, i, d - 1);
      if tags[i + d].Put? { NoneGoesOn(rules, n, text, tags, i, d); }
    }
  }

  // ---- One pass over tagged text -------------------------------------------

  // The tags of the first n bytes of what a pass puts.
  function Puts(rule: nat, n: nat): (tags: seq<Tag>)
    ensures |tags| == n
  {
    if n == 0 then [] else Puts(rule, n - 1) + [Put(rule, n - 1)]
  }

  ghost predicate BuiltAt(rules: seq<Rule>, n: nat, out: string, tags: seq<Tag>, i: nat)
    requires n <= |rules| && i < |out| == |tags|
  {
    Follows(rules, TagAt(tags, i - 1), tags[i]) && Put1(rules, n, tags[i], out[i])
  }

  // The output of a pass so far, if `next` comes next.
  ghost predicate Built(rules: seq<Rule>, n: nat, out: string, tags: seq<Tag>, next: Tag)
    requires n <= |rules|
  {
    && |tags| == |out|
    && Follows(rules, TagAt(tags, |tags| - 1), next)
    && forall i {:trigger BuiltAt(rules, n, out, tags, i)} :: 0 <= i < |out| ==> BuiltAt(rules, n, out, tags, i)
  }

  lemma BuiltNext(rules: seq<Rule>, n: nat, out: string, tags: seq<Tag>, tag: Tag, c: char, next: Tag)
    requires n <= |rules| && Built(rules, n, out, tags, tag) && Put1(rules, n, tag, c) && Follows(rules, tag, next)
    ensures Built(rules, n, out + [c], tags + [tag], next)
  {
    var out', tags' := out + [c], tags + [tag];
    forall i | 0 <= i < |out'|
      ensures BuiltAt(rules, n, out', tags', i)
    {
      if i < |out| { assert BuiltAt(rules, n, out, tags, i); }
    }
  }

  lemma {:induction false} BuiltPuts(rules: seq<Rule>, k: nat, out: string, tags: seq<Tag>, m: nat)
    requires k < |rules| && Built(rules, k + 1, out, tags, Source) && m < |rules[k].to|
    ensures Built(rules, k + 1, out + rules[k].to[..m], tags + Puts(k, m), Put(k, m))
  {
    var to := rules[k].to;
    if m == 0 {
      assert out + to[..0] == out && tags + Puts(k, 0) == tags;
    } else {
      BuiltPuts(rules, k, out, tags, m - 1);
      BuiltNext(rules, k + 1, out + to[..m - 1], tags + Puts(k, m - 1), Put(k, m - 1), to[m - 1], Put(k, m));
      assert out + to[..m] == out + to[..m - 1] + [to[m - 1]];
      PutsNext(tags, k, m);
    }
  }

  lemma PutsNext(tags: seq<Tag>, k: nat, m: nat)
    requires m > 0
    ensures tags + Puts(k, m) == tags + Puts(k, m - 1) + [Put(k, m - 1)]
  {
  }

  // A whole text is put, and something else comes behind it.
  lemma BuiltHit(rules: seq<Rule>, k: nat, out: string, tags: seq<Tag>, next: Tag)
    requires k < |rules| && Built(rules, k + 1, out, tags, Source) && Follows(rules, Source, next)
    ensures var to := rules[k].to; Built(rules, k + 1, out + to, tags + Puts(k, |to|), next)
  {
    var to := rules[k].to;
    if to == "" {
      assert out + to == out && tags + Puts(k, 0) == tags;
    } else {
      var m := |to| - 1;
      BuiltPuts(rules, k, out, tags, m);
      BuiltNext(rules, k + 1, out + to[..m], tags + Puts(k, m), Put(k, m), to[m], next);
      assert out + to == out + to[..m] + [to[m]];
      PutsNext(tags, k, |to|);
    }
  }

  lemma BuiltCopy(rules: seq<Rule>, n: nat, text: string, tags: seq<Tag>, i: nat, out: string, outTags: seq<Tag>)
    requires n < |rules| && Tagged(rules, n, text, tags) && i < |text|
    requires Built(rules, n + 1, out, outTags, tags[i])
    ensures Built(rules, n + 1, out + [text[i]], outTags + [tags[i]], TagAt(tags, i + 1))
  {
    assert TaggedAt(rules, n, text, tags, i) && TaggedAt(rules, n, text, tags, i + 1);
    BuiltNext(rules, n + 1, out, outTags, tags[i], text[i], TagAt(tags, i + 1));
  }

  lemma BuiltMatch(rules: seq<Rule>, n: nat, text: string, tags: seq<Tag>, i: nat, out: string, outTags: seq<Tag>)
    requires n < |rules| && Tagged(rules, n, text, tags) && StandsAt(text, i, rules[n].from) && rules[n].from != ""
    requires forall j :: 0 <= j < n ==> Apart(rules[n].from, rules[j].to)
    requires Built(rules, n + 1, out, outTags, TagAt(tags, i))
    ensures forall e :: i <= e < i + |rules[n].from| ==> tags[e] == Source
    ensures var to := rules[n].to;
      Built(rules, n + 1, out + to, outTags + Puts(n, |to|), TagAt(tags, i + |rules[n].from|))
  {
    var behind := i + |rules[n].from|;
    MatchIsSource(rules, n, text, tags, i, |rules[n].from| - 1);
    assert TaggedAt(rules, n, text, tags, behind);
    BuiltHit(rules, n, out, outTags, TagAt(tags, behind));
  }

  // ---- What the bytes are worth --------------------------------------------

  lemma Once(a: nat, n: nat)
    requires n > 0
    ensures a * n == a * (n - 1) + a
  {
  }

  function Value(tag: Tag, num: nat, den: nat): nat { if tag.Source? then num else den }

  function Worth(tags: seq<Tag>, num: nat, den: nat): nat {
    if tags == [] then 0 else Worth(tags[..|tags| - 1], num, den) + Value(tags[|tags| - 1], num, den)
  }

  // Of the tags from i on.
  function WorthFrom(tags: seq<Tag>, i: nat, num: nat, den: nat): nat
    decreases |tags| - i
  {
    if i >= |tags| then 0 else Value(tags[i], num, den) + WorthFrom(tags, i + 1, num, den)
  }

  lemma {:induction false} WorthIs(tags: seq<Tag>, i: nat, num: nat, den: nat)
    requires i <= |tags|
    ensures Worth(tags[..i], num, den) + WorthFrom(tags, i, num, den) == Worth(tags, num, den)
    decreases |tags| - i
  {
    if i == |tags| { assert tags[..i] == tags; } else {
      WorthIs(tags, i + 1, num, den);
      assert tags[..i + 1][..i] == tags[..i];
    }
  }

  lemma WorthNext(tags: seq<Tag>, tag: Tag, num: nat, den: nat)
    ensures Worth(tags + [tag], num, den) == Worth(tags, num, den) + Value(tag, num, den)
  {
    assert (tags + [tag])[..|tags|] == tags;
  }

  lemma {:induction false} WorthPuts(tags: seq<Tag>, k: nat, m: nat, num: nat, den: nat)
    ensures Worth(tags + Puts(k, m), num, den) == Worth(tags, num, den) + den * m
  {
    if m == 0 { assert tags + Puts(k, 0) == tags; } else {
      WorthPuts(tags, k, m - 1, num, den);
      WorthNext(tags + Puts(k, m - 1), Put(k, m - 1), num, den);
      PutsNext(tags, k, m);
      Once(den, m);
    }
  }

  lemma {:induction false} WorthSources(tags: seq<Tag>, i: nat, m: nat, num: nat, den: nat)
    requires i + m <= |tags| && forall e :: i <= e < i + m ==> tags[e] == Source
    ensures WorthFrom(tags, i, num, den) == num * m + WorthFrom(tags, i + m, num, den)
    decreases m
  {
    if m > 0 {
      WorthSources(tags, i + 1, m - 1, num, den);
      Once(num, m);
    }
  }

  lemma {:induction false} WorthLength(tags: seq<Tag>, num: nat, den: nat)
    requires den <= num
    ensures Worth(tags, num, den) >= den * |tags|
  {
    if tags != [] {
      WorthLength(tags[..|tags| - 1], num, den);
      Once(den, |tags|);
    }
  }

  // ---- A whole pass --------------------------------------------------------

  // What the rest of a pass makes of the text, and of its tags.
  ghost function OutText(rules: seq<Rule>, n: nat, text: string, i: nat, mode: Mode, out: string): string
    requires n < |rules| && rules[n].from != ""
  {
    Run(text, rules[n].from, text, rules[n].to, i, mode, out)
  }

  ghost function OutTags(rules: seq<Rule>, n: nat, text: string, tags: seq<Tag>, i: nat, mode: Mode,
        out: seq<Tag>): seq<Tag>
    requires n < |rules| && rules[n].from != "" && |tags| == |text|
  {
    Run(text, rules[n].from, tags, Puts(n, |rules[n].to|), i, mode, out)
  }

  lemma BuiltDone(rules: seq<Rule>, n: nat, out: string, tags: seq<Tag>)
    requires n <= |rules| && Built(rules, n, out, tags, Source)
    ensures Tagged(rules, n, out, tags)
  {
    forall i | 0 <= i <= |out|
      ensures TaggedAt(rules, n, out, tags, i)
    {
      if i < |out| { assert BuiltAt(rules, n, out, tags, i); }
    }
  }

  lemma {:induction false} PassKeeps(rules: seq<Rule>, n: nat, text: string, tags: seq<Tag>, i: nat, mode: Mode,
        out: string, outTags: seq<Tag>)
    requires n < |rules| && Tagged(rules, n, text, tags) && i <= |text| && rules[n].from != ""
    requires forall j :: 0 <= j < n ==> Apart(rules[n].from, rules[j].to)
    requires Built(rules, n + 1, out, outTags, TagAt(tags, i))
    ensures Tagged(rules, n + 1, OutText(rules, n, text, i, mode, out), OutTags(rules, n, text, tags, i, mode, outTags))
    decreases |text| - i
  {
    if i == |text| {
      BuiltDone(rules, n + 1, out, outTags);
    } else {
      var to, from := rules[n].to, rules[n].from;
      match Next(text, from, i, mode)
      case Hit(m) =>
        BuiltMatch(rules, n, text, tags, i, out, outTags);
        PassKeeps(rules, n, text, tags, i + |from|, m, out + to, outTags + Puts(n, |to|));
      case One(m) =>
        BuiltCopy(rules, n, text, tags, i, out, outTags);
        PassKeeps(rules, n, text, tags, i + 1, m, out + [text[i]], outTags + [tags[i]]);
      case Two(m) =>
        BuiltCopy(rules, n, text, tags, i, out, outTags);
        BuiltCopy(rules, n, text, tags, i + 1, out + [text[i]], outTags + [tags[i]]);
        PassKeeps(rules, n, text, tags, i + 2, m, out + [text[i]] + [text[i + 1]], outTags + [tags[i]] + [tags[i + 1]]);
    }
  }

  // Copying a byte keeps what output and rest are worth together; a match
  // gives at least as much as it takes.
  lemma CopyPays(tags: seq<Tag>, i: nat, outTags: seq<Tag>, num: nat, den: nat)
    requires i < |tags|
    ensures Worth(outTags + [tags[i]], num, den) + WorthFrom(tags, i + 1, num, den)
      == Worth(outTags, num, den) + WorthFrom(tags, i, num, den)
  {
    WorthNext(outTags, tags[i], num, den);
  }

  lemma HitPays(tags: seq<Tag>, i: nat, m: nat, k: nat, p: nat, outTags: seq<Tag>, num: nat, den: nat)
    requires i + m <= |tags| && (forall e :: i <= e < i + m ==> tags[e] == Source) && den * p <= num * m
    ensures Worth(outTags + Puts(k, p), num, den) + WorthFrom(tags, i + m, num, den) <= Worth(outTags, num, den)
      + WorthFrom(tags, i, num, den)
  {
    WorthSources(tags, i, m, num, den);
    WorthPuts(outTags, k, p, num, den);
  }

  lemma {:induction false} PassPays(rules: seq<Rule>, n: nat, text: string, tags: seq<Tag>, i: nat, mode: Mode,
        outTags: seq<Tag>, num: nat, den: nat)
    requires n < |rules| && Tagged(rules, n, text, tags) && i <= |text| && rules[n].from != ""
    requires forall j :: 0 <= j < n ==> Apart(rules[n].from, rules[j].to)
    requires den * |rules[n].to| <= num * |rules[n].from|
    ensures Worth(OutTags(rules, n, text, tags, i, mode, outTags), num, den) <= Worth(outTags, num, den)
      + WorthFrom(tags, i, num, den)
    decreases |text| - i
  {
    hide Worth, WorthFrom, Puts;
    if i < |text| {
      var to, from := rules[n].to, rules[n].from;
      match Next(text, from, i, mode)
      case Hit(m) =>
        MatchIsSource(rules, n, text, tags, i, |from| - 1);
        HitPays(tags, i, |from|, n, |to|, outTags, num, den);
        PassPays(rules, n, text, tags, i + |from|, m, outTags + Puts(n, |to|), num, den);
      case One(m) =>
        CopyPays(tags, i, outTags, num, den);
        PassPays(rules, n, text, tags, i + 1, m, outTags + [tags[i]], num, den);
      case Two(m) =>
        CopyPays(tags, i, outTags, num, den);
        CopyPays(tags, i + 1, outTags + [tags[i]], num, den);
        PassPays(rules, n, text, tags, i + 2, m, outTags + [tags[i]] + [tags[i + 1]], num, den);
    }
  }

  // ---- All passes ----------------------------------------------------------

  function Sources(n: nat): (tags: seq<Tag>)
    ensures |tags| == n && forall i :: 0 <= i < n ==> tags[i] == Source
  {
    if n == 0 then [] else Sources(n - 1) + [Source]
  }

  lemma {:induction false} WorthAllSources(n: nat, num: nat, den: nat)
    ensures Worth(Sources(n), num, den) == num * n
  {
    if n > 0 {
      WorthAllSources(n - 1, num, den);
      WorthNext(Sources(n - 1), Source, num, den);
      Once(num, n);
    }
  }

  // After n passes there are tags that show where every byte comes from, worth
  // no more than the source.
  ghost predicate Paid(rules: seq<Rule>, n: nat, source: string, text: string, tags: seq<Tag>, num: nat, den: nat)
    requires n <= |rules|
  {
    Tagged(rules, n, text, tags) && Worth(tags, num, den) <= num * |source|
  }

  lemma PaidStart(rules: seq<Rule>, source: string, num: nat, den: nat)
    ensures Paid(rules, 0, source, source, Sources(|source|), num, den)
  {
    var tags := Sources(|source|);
    forall i | 0 <= i <= |source|
      ensures TaggedAt(rules, 0, source, tags, i)
    {
    }
    WorthAllSources(|source|, num, den);
  }

  lemma PaidNext(rules: seq<Rule>, n: nat, source: string, text: string, tags: seq<Tag>, num: nat, den: nat)
        returns (tags': seq<Tag>)
    requires Fine(rules, num, den) && n < |rules| && Paid(rules, n, source, text, tags, num, den)
    ensures Paid(rules, n + 1, source, Pass(text, rules[n]), tags', num, den)
  {
    tags' := OutTags(rules, n, text, tags, 0, Code, []);
    assert TaggedAt(rules, n, text, tags, 0);
    PassKeeps(rules, n, text, tags, 0, Code, "", []);
    PassPays(rules, n, text, tags, 0, Code, [], num, den);
    WorthIs(tags, 0, num, den);
    assert tags[..0] == [];
  }

  lemma {:induction false} PassesPay(rules: seq<Rule>, n: nat, source: string, num: nat, den: nat)
        returns (tags: seq<Tag>)
    requires Fine(rules, num, den) && n <= |rules|
    ensures Paid(rules, n, source, Passes(source, rules[..n]), tags, num, den)
  {
    if n == 0 {
      tags := Sources(|source|);
      PaidStart(rules, source, num, den);
    } else {
      tags := PassesPay(rules, n - 1, source, num, den);
      assert rules[..n][..n - 1] == rules[..n - 1];
      tags := PaidNext(rules, n - 1, source, Passes(source, rules[..n - 1]), tags, num, den);
    }
  }

  // All passes together grow a text by no more than the greediest replacement.
  lemma GrowthBounded(rules: seq<Rule>, source: string, num: nat, den: nat)
    requires Fine(rules, num, den)
    ensures den * |Passes(source, rules)| <= num * |source|
  {
    var tags := PassesPay(rules, |rules|, source, num, den);
    assert rules[..|rules|] == rules;
    WorthLength(tags, num, den);
  }

  // ---- The six patterns ----------------------------------------------------

  // An 'i' comes before something that is not an 'm'.
  ghost predicate NoIm(t: string) {
    forall o :: 0 <= o < |t| && t[o] == 'i' ==> o + 1 < |t| && t[o + 1] != 'm'
  }

  lemma NoImBoth(a: string, b: string)
    requires NoIm(a) && NoIm(b)
    ensures NoIm(a + b)
  {
    forall o | 0 <= o < |a + b| && (a + b)[o] == 'i'
      ensures o + 1 < |a + b| && (a + b)[o + 1] != 'm'
    {
      if o < |a| { assert a[o] == 'i'; } else { assert b[o - |a|] == 'i'; }
    }
  }

  lemma EnvShape()
    ensures NoIm(ENV) && |ENV| == 116 && ENV[0] == '('
  {
    var a, b, c, d, e := "(typeof ", " !== '", "' ? ", " : (typeof process !== '", "' ? process.env : {}))";
    NoImBoth(a, META_ENV);
    NoImBoth(a + META_ENV, b);
    NoImBoth(a + META_ENV + b, UNDEFINED);
    NoImBoth(a + META_ENV + b + UNDEFINED, c);
    NoImBoth(a + META_ENV + b + UNDEFINED + c, META_ENV);
    NoImBoth(a + META_ENV + b + UNDEFINED + c + META_ENV, d);
    NoImBoth(a + META_ENV + b + UNDEFINED + c + META_ENV + d, UNDEFINED);
    NoImBoth(a + META_ENV + b + UNDEFINED + c + META_ENV + d + UNDEFINED, e);
  }

  ghost predicate Lacks(t: string, c: char) { forall d :: 0 < d < |t| ==> t[d] != c }

  lemma ApartBy(from: string, to: string)
    requires |from| >= 2 && from[0] == 'i' && from[1] == 'm' && |to| >= 2 && NoIm(to) && Lacks(from, to[0])
    ensures Apart(from, to)
  {
  }

  // The first byte of what an earlier pass puts is not in a later pattern,
  // except that "url" has the 'u' of "undefined".
  lemma GlobLacks()
    ensures Lacks("import.meta.glob(", '_')
  {
  }

  lemma HotLacks()
    ensures Lacks("import.meta.hot", '_')
  {
  }

  lemma VitestLacks()
    ensures Lacks("import.meta.vitest", '_') && Lacks("import.meta.vitest", 'u')
  {
  }

  lemma EnvLacks()
    ensures Lacks("import.meta.env", '_') && Lacks("import.meta.env", 'u')
  {
  }

  lemma UrlLacks()
    ensures Lacks("import.meta.url", '_') && Lacks("import.meta.url", '(')
  {
  }

  lemma UrlApart()
    ensures Apart("import.meta.url", UNDEFINED)
  {
  }

  lemma TextsPut()
    ensures NoIm("__vvva_meta_resolve__(") && NoIm("__vvva_meta_glob__(") && NoIm(UNDEFINED)
  {
  }

  lemma PatternsApart(j: nat, k: nat)
    requires j < k < |META_PATTERNS|
    ensures Apart(META_PATTERNS[k].from, META_PATTERNS[j].to)
  {
    TextsPut();
    if j == 4 { EnvShape(); }
    if k == 1 {
      GlobLacks();
    } else if k == 2 {
      HotLacks();
    } else if k == 3 {
      VitestLacks();
    } else if k == 4 {
      EnvLacks();
    } else {
      UrlLacks();
      UrlApart();
    }
    if !(k == 5 && (j == 2 || j == 3)) { ApartBy(META_PATTERNS[k].from, META_PATTERNS[j].to); }
  }

  // Replacing "import.meta.env" grows a text most: 15 bytes become 116.
  lemma PatternsGrow(k: nat)
    requires k < |META_PATTERNS|
    ensures META_PATTERNS[k].from != "" && 15 * |META_PATTERNS[k].to| <= 116 * |META_PATTERNS[k].from|
  {
    EnvShape();
  }

  lemma PatternsFine()
    ensures Fine(META_PATTERNS, 116, 15)
  {
    var r := META_PATTERNS;
    forall k | 0 <= k < |r|
      ensures r[k].from != "" && 15 * |r[k].to| <= 116 * |r[k].from|
    {
      PatternsGrow(k);
    }
    forall j, k | 0 <= j < k < |r|
      ensures Apart(r[k].from, r[j].to)
    {
      PatternsApart(j, k);
    }
  }

  lemma OutputBounded(source: string)
    ensures (forall k :: 0 <= k < |META_PATTERNS| ==> META_PATTERNS[k].from != "")
    ensures 15 * |Passes(source, META_PATTERNS)| <= 116 * |source|
    ensures |Passes(source, META_PATTERNS)| <= 8 * |source| + 64
  {
    PatternsFine();
    GrowthBounded(META_PATTERNS, source, 116, 15);
  }
}
