// Base64 VLQ for source-map segments (crates/bundler/src/generator.rs).
module Vlq {
  import opened Prelude

  const LIMIT: int := 0x4000_0000_0000_0000 // 2^62
  const TWO63: int := 0x8000_0000_0000_0000

  type i64 = n: int | -0x8000_0000_0000_0000 <= n < 0x8000_0000_0000_0000

  // What is left of a number in 64 bits.
  function ToI64(n: int): i64 {
    var low := n % 0x1_0000_0000_0000_0000;
    if low < 0x8000_0000_0000_0000 then low else low - 0x1_0000_0000_0000_0000
  }

  function Base64(d: nat): char
    requires d < 64
  {
    if d < 26 then 'A' + d as char
    else if d < 52 then 'a' + (d - 26) as char
    else if d < 62 then '0' + (d - 52) as char
    else if d == 62 then '+' else '/'
  }

  // The number the loop takes apart: the magnitude, shifted left in 64 bits,
  // with the sign in the lowest place.
  function Start(value: i64): int {
    ToI64(2 * ToI64(Magnitude(value))) + if value < 0 then 1 else 0
  }

  function Magnitude(value: int): nat { if value < 0 then -value else value }

  // One turn of the loop: a digit of five bits, marked if more follow. The
  // division rounds down, as shifting right does.
  function Digit(vlq: int): char { Base64(vlq % 32 + if vlq / 32 > 0 then 32 else 0) }

  // The loop, given up after n turns.
  function Turns(vlq: int, n: nat): Option<string>
    decreases n
  {
    if n == 0 then None
    else if vlq / 32 == 0 then Some([Digit(vlq)])
    else match Turns(vlq / 32, n - 1)
      case Some(s) => Some([Digit(vlq)] + s)
      case None => None
  }

  function Digits(vlq: nat): string {
    if vlq < 32 then [Digit(vlq)] else [Digit(vlq)] + Digits(vlq / 32)
  }

  // The values for which the loop ends.
  predicate Ends(value: i64) { -LIMIT < value < LIMIT || value == -TWO63 }

  lemma StartOf(value: i64)
    ensures -LIMIT < value < LIMIT ==> Start(value) == 2 * Magnitude(value) + if value < 0 then 1 else 0
    ensures Start(value) >= 0 <==> Ends(value)
    ensures value == -TWO63 ==> Start(value) == 1
  {
    ToI64Of(Magnitude(value));
    ToI64Of(2 * ToI64(Magnitude(value)));
  }

  lemma ToI64Of(n: int)
    ensures -TWO63 <= n < TWO63 ==> ToI64(n) == n
    ensures TWO63 <= n < 2 * TWO63 ==> ToI64(n) == n - 2 * TWO63
    ensures n == -2 * TWO63 ==> ToI64(n) == 0
  {
  }

  function Encode(value: i64): string
    requires Ends(value)
  {
    StartOf(value);
    Digits(Start(value))
  }

  method VlqEncodeValue(value: i64) returns (result: string)
    requires Ends(value)
    ensures result == Encode(value)
  {
    StartOf(value);
    var vlq := Start(value);
    result := "";
    while true
      invariant vlq >= 0 && result + Digits(vlq) == Encode(value)
      decreases vlq
    {
      var digit := vlq % 32;
      var before := vlq;
      vlq := vlq / 32;
      if vlq > 0 {
        digit := digit + 32;
      }
      result := result + [Base64(digit)];
      if vlq == 0 { return; }
    }
  }

  // ---- When the loop ends --------------------------------------------------

  lemma {:induction false} TurnsAre(vlq: nat, n: nat)
    requires n > vlq
    ensures Turns(vlq, n) == Some(Digits(vlq))
  {
    if vlq >= 32 { TurnsAre(vlq / 32, n - 1); }
  }

  lemma {:induction false} TurnsAgree(vlq: nat, n: nat)
    ensures Turns(vlq, n).Some? ==> Turns(vlq, n).value == Digits(vlq)
  {
    if n > 0 && vlq >= 32 { TurnsAgree(vlq / 32, n - 1); }
  }

  lemma {:induction false} NeverEnds(vlq: int, n: nat)
    requires vlq < 0
    ensures Turns(vlq, n) == None
    decreases n
  {
    if n > 0 { NeverEnds(vlq / 32, n - 1); }
  }

  // ---- A standard decoder --------------------------------------------------

  function DigitOf(c: char): Option<nat> {
    if 'A' <= c <= 'Z' then Some((c - 'A') as nat)
    else if 'a' <= c <= 'z' then Some(26 + (c - 'a') as nat)
    else if '0' <= c <= '9' then Some(52 + (c - '0') as nat)
    else if c == '+' then Some(62) else if c == '/' then Some(63) else None
  }

  // The least significant digit comes first; the last one is below 32.
  function DecodeDigits(s: string): Option<(nat, string)> {
    if s == "" then None
    else match DigitOf(s[0])
      case None => None
      case Some(d) =>
        if d < 32 then Some((d, s[1..]))
        else match DecodeDigits(s[1..])
          case None => None
          case Some((high, rest)) => Some((d - 32 + 32 * high, rest))
  }

  function Signed(n: nat): int { if n % 2 == 1 then -(n / 2) else n / 2 }

  // A value, and what stands behind it.
  function Decode(s: string): Option<(int, string)> {
    match DecodeDigits(s)
    case None => None
    case Some((n, rest)) => Some((Signed(n), rest))
  }

  lemma DigitIs(vlq: nat)
    ensures DigitOf(Digit(vlq)) == Some(vlq % 32 + if vlq / 32 > 0 then 32 else 0)
  {
  }

  lemma {:induction false} DigitsDecode(vlq: nat, rest: string)
    ensures DecodeDigits(Digits(vlq) + rest) == Some((vlq, rest))
  {
    var s := Digits(vlq) + rest;
    DigitIs(vlq);
    if vlq < 32 {
      assert s[1..] == rest;
    } else {
      DigitsDecode(vlq / 32, rest);
      assert s[1..] == Digits(vlq / 32) + rest;
    }
  }

  // Decoding a value undoes encoding it, whatever follows.
  lemma RoundTrip(value: i64, rest: string)
    requires -LIMIT < value < LIMIT
    ensures Decode(Encode(value) + rest) == Some((value, rest))
  {
    StartOf(value);
    DigitsDecode(Start(value), rest);
  }

  // So no encoding is the start of another value's.
  lemma PrefixFree(v: i64, w: i64, x: string, y: string)
    requires -LIMIT < v < LIMIT && -LIMIT < w < LIMIT && Encode(v) + x == Encode(w) + y
    ensures v == w && x == y
  {
    RoundTrip(v, x);
    RoundTrip(w, y);
  }

  // What the loop makes of a value, if it ends.
  ghost predicate Makes(value: i64, s: string) { exists n :: Turns(Start(value), n) == Some(s) }

  // It ends exactly for the values below 2^62 and for one more.
  lemma EndsExactly(value: i64)
    ensures Ends(value) ==> forall s :: Makes(value, s) <==> s == Encode(value)
    ensures !Ends(value) ==> forall s :: !Makes(value, s)
  {
    StartOf(value);
    if Ends(value) {
      TurnsAre(Start(value), Start(value) + 1);
      forall s, n: nat | Turns(Start(value), n) == Some(s)
        ensures s == Encode(value)
      {
        TurnsAgree(Start(value), n);
      }
    } else {
      forall n: nat
        ensures Turns(Start(value), n) == None
      {
        NeverEnds(Start(value), n);
      }
    }
  }

  // That one is encoded as "B", which a decoder reads as minus zero.
  lemma LeastValue()
    ensures Encode(-TWO63) == "B" && Decode("B") == Some((0, ""))
  {
    StartOf(-TWO63);
    assert Digits(1) == "B" && "B"[1..] == "";
  }

  ghost predicate DecodesBack(value: i64, s: string) { Makes(value, s) && Decode(s) == Some((value as int, "")) }

  // So what the encoder makes of a value decodes to it exactly below 2^62.
  lemma EncodesExactly(value: i64)
    ensures (exists s :: DecodesBack(value, s)) <==> -LIMIT < value < LIMIT
  {
    EndsExactly(value);
    if -LIMIT < value < LIMIT {
      RoundTrip(value, "");
      assert Encode(value) + "" == Encode(value);
      assert DecodesBack(value, Encode(value));
    } else {
      LeastValue();
    }
  }

  // ---- Segments ------------------------------------------------------------

  predicate Fits(v: i64) { -LIMIT < v < LIMIT }

  function EncodeSegment(genCol: i64, srcIdx: i64, origLine: i64, origCol: i64): string
    requires Ends(genCol) && Ends(srcIdx) && Ends(origLine) && Ends(origCol)
  {
    Encode(genCol) + Encode(srcIdx) + Encode(origLine) + Encode(origCol)
  }

  // The first n values of s.
  function DecodeMany(s: string, n: nat): Option<(seq<int>, string)>
    decreases n
  {
    if n == 0 then Some(([], s))
    else match Decode(s)
      case None => None
      case Some((v, rest)) =>
        match DecodeMany(rest, n - 1)
        case None => None
        case Some((vs, end)) => Some(([v] + vs, end))
  }

  lemma DecodeNext(v: i64, tail: string, n: nat, vs: seq<int>, rest: string, all: string, values: seq<int>)
    requires Fits(v) && DecodeMany(tail, n) == Some((vs, rest)) && all == Encode(v) + tail && values == [v as int] + vs
    ensures DecodeMany(all, n + 1) == Some((values, rest))
  {
    RoundTrip(v, tail);
  }

  lemma SegmentRoundTrip(a: i64, b: i64, c: i64, d: i64, rest: string)
    requires Fits(a) && Fits(b) && Fits(c) && Fits(d)
    ensures DecodeMany(EncodeSegment(a, b, c, d) + rest, 4) == Some(([a as int, b as int, c as int, d as int], rest))
  {
    var s3 := Encode(d) + rest;
    var s2 := Encode(c) + s3;
    var s1 := Encode(b) + s2;
    DecodeNext(d, rest, 0, [], rest, s3, [d as int]);
    DecodeNext(c, s3, 1, [d as int], rest, s2, [c as int, d as int]);
    DecodeNext(b, s2, 2, [c as int, d as int], rest, s1, [b as int, c as int, d as int]);
    DecodeNext(a, s1, 3, [b as int, c as int, d as int], rest, Encode(a) + s1,
      [a as int, b as int, c as int, d as int]);
    Regroup(Encode(a), Encode(b), Encode(c), Encode(d), rest);
  }

  lemma Regroup(a: string, b: string, c: string, d: string, e: string)
    ensures a + b + c + d + e == a + (b + (c + (d + e)))
  {
  }

  // A segment's text determines its four fields, whatever follows.
  lemma SegmentsDiffer(a: i64, b: i64, c: i64, d: i64, a': i64, b': i64, c': i64, d': i64, x: string, y: string)
    requires Fits(a) && Fits(b) && Fits(c) && Fits(d) && Fits(a') && Fits(b') && Fits(c') && Fits(d')
    requires EncodeSegment(a, b, c, d) + x == EncodeSegment(a', b', c', d') + y
    ensures a == a' && b == b' && c == c' && d == d' && x == y
  {
    SegmentRoundTrip(a, b, c, d, x);
    SegmentRoundTrip(a', b', c', d', y);
    var l, r := [a as int, b as int, c as int, d as int], [a' as int, b' as int, c' as int, d' as int];
    assert l == r;
    assert l[0] == r[0] && l[1] == r[1] && l[2] == r[2] && l[3] == r[3];
  }
}
