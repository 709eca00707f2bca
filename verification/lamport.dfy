// Lamport one-time signatures over any hash function (crates/crypto/src/lamport.rs).
module Lamport {

  type Byte = n: int | 0 <= n < 256

  const N: nat := 256
  const HASH_LEN: nat := 32

  // 32 bytes.
  type Word = w: seq<Byte> | |w| == 32 witness seq(32, _ => 0)

  type Hash = seq<Byte> -> Word

  datatype Result<+T> = Ok(value: T) | Err(error: Error)

  datatype Error = InvalidKey(message: string) | VerificationFailed

  // ---- Bits of a digest ----------------------------------------------------

  // b shifted right by k places.
  function Shifted(b: nat, k: nat): nat { if k == 0 then b else Shifted(b, k - 1) / 2 }

  // Bit i, from the most significant bit of the first byte on.
  function Bit(digest: Word, i: nat): (bit: nat)
    requires i < N
    ensures bit < 2
  {
    Shifted(digest[i / 8], 7 - i % 8) % 2
  }

  // The eight bits of a byte, the most significant first, make the byte.
  lemma BitsMakeBytes(digest: Word, j: nat)
    requires j < 32
    ensures digest[j] ==
      128 * Bit(digest, 8 * j) + 64 * Bit(digest, 8 * j + 1) + 32 * Bit(digest, 8 * j + 2) + 16 * Bit(digest, 8 * j + 3)
      + 8 * Bit(digest, 8 * j + 4) + 4 * Bit(digest, 8 * j + 5) + 2 * Bit(digest, 8 * j + 6) + Bit(digest, 8 * j + 7)
  {
    hide Bit, Shifted;
    BitAt(digest, j, 0);
    BitAt(digest, j, 1);
    BitAt(digest, j, 2);
    BitAt(digest, j, 3);
    BitAt(digest, j, 4);
    BitAt(digest, j, 5);
    BitAt(digest, j, 6);
    BitAt(digest, j, 7);
    ByteIsBits(digest[j]);
  }

  lemma BitAt(digest: Word, j: nat, k: nat)
    requires j < 32 && k < 8
    ensures Bit(digest, 8 * j + k) == Shifted(digest[j], 7 - k) % 2
  {
    assert (8 * j + k) / 8 == j && (8 * j + k) % 8 == k;
  }

  lemma ByteIsBits(b: Byte)
    ensures b == 128 * (Shifted(b, 7) % 2) + 64 * (Shifted(b, 6) % 2) + 32 * (Shifted(b, 5) % 2)
      + 16 * (Shifted(b, 4) % 2) + 8 * (Shifted(b, 3) % 2) + 4 * (Shifted(b, 2) % 2) + 2 * (Shifted(b, 1) % 2)
      + Shifted(b, 0) % 2
  {
    assert Shifted(b, 1) == b / 2 && Shifted(b, 2) == Shifted(b, 1) / 2 && Shifted(b, 3) == Shifted(b, 2) / 2;
    assert Shifted(b, 4) == Shifted(b, 3) / 2 && Shifted(b, 5) == Shifted(b, 4) / 2;
    assert Shifted(b, 6) == Shifted(b, 5) / 2 && Shifted(b, 7) == Shifted(b, 6) / 2;
    assert Shifted(b, 4) < 16 && Shifted(b, 7) < 2;
  }

  lemma ShiftedOut(b: Byte)
    ensures Shifted(b, 8) == 0
  {
    assert Shifted(b, 1) < 128 && Shifted(b, 2) < 64 && Shifted(b, 3) < 32;
    assert Shifted(b, 4) < 16 && Shifted(b, 5) < 8 && Shifted(b, 6) < 4;
    assert Shifted(b, 7) < 2;
  }

  lemma {:induction false} SameShifted(a: Byte, b: Byte, k: nat)
    requires k <= 8 && forall j :: 0 <= j < 8 ==> Shifted(a, j) % 2 == Shifted(b, j) % 2
    ensures Shifted(a, k) == Shifted(b, k)
    decreases 8 - k
  {
    if k == 8 {
      ShiftedOut(a);
      ShiftedOut(b);
    } else {
      SameShifted(a, b, k + 1);
    }
  }

  lemma DigestIsItsBits(d: Word, e: Word)
    requires forall i :: 0 <= i < N ==> Bit(d, i) == Bit(e, i)
    ensures d == e
  {
    forall j | 0 <= j < 32
      ensures d[j] == e[j]
    {
      forall k | 0 <= k < 8
        ensures Shifted(d[j], k) % 2 == Shifted(e[j], k) % 2
      {
        var i := 8 * j + (7 - k);
        assert i / 8 == j && 7 - i % 8 == k;
        assert Bit(d, i) == Bit(e, i);
      }
      SameShifted(d[j], e[j], 0);
    }
  }

  // ---- Keys and signatures -------------------------------------------------

  // The half of the secret key that a digest picks.
  ghost predicate Picks(sk: seq<Word>, digest: Word, sig: seq<Word>)
    requires |sk| == 2 * N
  {
    |sig| == N && forall i :: 0 <= i < N ==> sig[i] == sk[2 * i + Bit(digest, i)]
  }

  ghost predicate KeyOf(h: Hash, sk: seq<Word>, pk: seq<Word>) {
    |sk| == |pk| == 2 * N && forall j :: 0 <= j < 2 * N ==> pk[j] == h(sk[j])
  }

  ghost predicate Accepts(h: Hash, pk: seq<Word>, digest: Word, sig: seq<Word>)
    requires |pk| == 2 * N && |sig| == N
  {
    forall i :: 0 <= i < N ==> h(sig[i]) == pk[2 * i + Bit(digest, i)]
  }

  class LamportKeypair {
    const h: Hash
    const sk: array<Word>
    var publicKey: seq<Word>
    var used: bool

    ghost predicate Valid()
      reads this, sk
    {
      sk.Length == 2 * N && KeyOf(h, sk[..], publicKey)
    }

    // From the numbers that the generator gives.
    constructor (h: Hash, random: seq<Word>)
      requires |random| == 2 * N
      ensures Valid() && fresh(sk) && sk[..] == random && !used && this.h == h
    {
      var secret := new Word[2 * N];
      for j := 0 to 2 * N
        invariant forall k :: 0 <= k < j ==> secret[k] == random[k]
      {
        secret[j] := random[j];
      }
      var pkData: seq<Word> := [];
      for i := 0 to 2 * N
        invariant |pkData| == i && forall k :: 0 <= k < i ==> pkData[k] == h(secret[k])
      {
        pkData := pkData + [h(secret[i])];
      }
      this.h, sk, publicKey, used := h, secret, pkData, false;
    }

    // Only the first call signs.
    method Sign(message: seq<Byte>) returns (r: Result<seq<Word>>)
      requires Valid()
      modifies this`used
      ensures Valid() && used
      ensures r.Ok? <==> !old(used)
      ensures r.Ok? ==> Picks(sk[..], h(message), r.value)
      ensures r.Err? ==> r.error.InvalidKey?
    {
      if used {
        return Err(InvalidKey("Lamport key pair already used. Generate a new key pair for each message."));
      }
      used := true;
      var msgHash := h(message);
      var revealed := [];
      for i := 0 to N
        invariant |revealed| == i && forall k :: 0 <= k < i ==> revealed[k] == sk[2 * k + Bit(msgHash, k)]
      {
        revealed := revealed + [sk[2 * i + Bit(msgHash, i)]];
      }
      r := Ok(revealed);
    }
  }

  method Verify(h: Hash, pk: seq<Word>, message: seq<Byte>, sig: seq<Word>) returns (r: Result<()>)
    requires |pk| == 2 * N && |sig| == N
    ensures r.Ok? <==> Accepts(h, pk, h(message), sig)
    ensures r.Err? ==> r.error == VerificationFailed
  {
    var msgHash := h(message);
    for i := 0 to N
      invariant forall k :: 0 <= k < i ==> h(sig[k]) == pk[2 * k + Bit(msgHash, k)]
    {
      if h(sig[i]) != pk[2 * i + Bit(msgHash, i)] {
        return Err(VerificationFailed);
      }
    }
    r := Ok(());
  }

  // ---- What a signature is good for ----------------------------------------

  // The two secrets at i have the same hash.
  ghost predicate Collide(h: Hash, sk: seq<Word>, i: nat)
    requires |sk| == 2 * N && i < N
  {
    h(sk[2 * i]) == h(sk[2 * i + 1])
  }

  // It is accepted for another digest exactly when the digests differ only
  // where the secrets collide.
  lemma AcceptedExactly(h: Hash, sk: seq<Word>, pk: seq<Word>, digest: Word, other: Word, sig: seq<Word>)
    requires KeyOf(h, sk, pk) && Picks(sk, digest, sig)
    ensures Accepts(h, pk, other, sig) <==>
      forall i :: 0 <= i < N && Bit(digest, i) != Bit(other, i) ==> Collide(h, sk, i)
  {
    forall i | 0 <= i < N
      ensures h(sig[i]) == pk[2 * i + Bit(other, i)] <==> Bit(digest, i) == Bit(other, i) || Collide(h, sk, i)
    {
      PickedAt(h, sk, pk, digest, sig, i);
    }
  }

  lemma PickedAt(h: Hash, sk: seq<Word>, pk: seq<Word>, digest: Word, sig: seq<Word>, i: nat)
    requires KeyOf(h, sk, pk) && Picks(sk, digest, sig) && i < N
    ensures h(sig[i]) == pk[2 * i + Bit(digest, i)] && pk[2 * i] == h(sk[2 * i]) && pk[2 * i + 1] == h(sk[2 * i + 1])
  {
  }

  // With no collisions, it is accepted for the digest it was made for only.
  lemma AcceptedForItsDigest(h: Hash, sk: seq<Word>, pk: seq<Word>, digest: Word, other: Word, sig: seq<Word>)
    requires KeyOf(h, sk, pk) && Picks(sk, digest, sig)
    ensures Accepts(h, pk, digest, sig)
    ensures (forall i :: 0 <= i < N ==> !Collide(h, sk, i)) ==> (Accepts(h, pk, other, sig) <==> other == digest)
  {
    AcceptedExactly(h, sk, pk, digest, digest, sig);
    AcceptedExactly(h, sk, pk, digest, other, sig);
    if (forall i :: 0 <= i < N ==> !Collide(h, sk, i)) && Accepts(h, pk, other, sig) {
      DigestIsItsBits(other, digest);
    }
  }

  // ---- Hex -----------------------------------------------------------------

  function HexDigit(d: int): char
    requires 0 <= d < 16
  {
    if d < 10 then '0' + d as char else 'a' + (d - 10) as char
  }

  // Either case.
  function DigitValue(c: char): (d: int)
    ensures -1 <= d < 16
  {
    if '0' <= c <= '9' then (c - '0') as int
    else if 'a' <= c <= 'f' then 10 + (c - 'a') as int
    else if 'A' <= c <= 'F' then 10 + (c - 'A') as int
    else -1
  }

  function HexEncode(bytes: seq<Byte>): (s: string)
    ensures |s| == 2 * |bytes|
  {
    if bytes == [] then "" else [HexDigit(bytes[0] / 16), HexDigit(bytes[0] % 16)] + HexEncode(bytes[1..])
  }

  function HexDecode(s: string): (r: Result<seq<Byte>>)
    ensures r.Ok? ==> |s| == 2 * |r.value|
  {
    if s == "" then Ok([])
    else if |s| == 1 || DigitValue(s[0]) < 0 || DigitValue(s[1]) < 0 then Err(InvalidKey("hex"))
    else match HexDecode(s[2..])
      case Err(e) => Err(e)
      case Ok(rest) => Ok([(16 * DigitValue(s[0]) + DigitValue(s[1])) as Byte] + rest)
  }

  function Flatten(words: seq<Word>): (bytes: seq<Byte>)
    ensures |bytes| == HASH_LEN * |words|
  {
    if words == [] then [] else words[0] + Flatten(words[1..])
  }

  function Chunks(bytes: seq<Byte>, count: nat): (words: seq<Word>)
    requires |bytes| == HASH_LEN * count
    ensures |words| == count
    decreases count
  {
    if count == 0 then [] else [bytes[..HASH_LEN]] + Chunks(bytes[HASH_LEN..], count - 1)
  }

  // A public key has 2 * N words, a signature N.
  function ToHex(words: seq<Word>): string { HexEncode(Flatten(words)) }

  function FromHex(s: string, count: nat): Result<seq<Word>> {
    match HexDecode(s)
    case Err(e) => Err(e)
    case Ok(bytes) =>
      if |bytes| != HASH_LEN * count then Err(InvalidKey("expected another number of bytes"))
      else Ok(Chunks(bytes, count))
  }

  lemma {:induction false} HexRoundTrip(bytes: seq<Byte>)
    ensures HexDecode(HexEncode(bytes)) == Ok(bytes)
  {
    if bytes != [] {
      var s := HexEncode(bytes);
      HexRoundTrip(bytes[1..]);
      assert s[2..] == HexEncode(bytes[1..]);
      assert DigitValue(s[0]) == bytes[0] / 16 && DigitValue(s[1]) == bytes[0] % 16;
      assert bytes == [bytes[0]] + bytes[1..];
    }
  }

  // The two digits of each byte, the high one first, in small letters.
  lemma {:induction false} HexReads(bytes: seq<Byte>, k: nat)
    requires k < |bytes|
    ensures HexEncode(bytes)[2 * k] == "0123456789abcdef"[bytes[k] / 16]
    ensures HexEncode(bytes)[2 * k + 1] == "0123456789abcdef"[bytes[k] % 16]
  {
    HexDigitIs(bytes[0] / 16);
    HexDigitIs(bytes[0] % 16);
    if k > 0 {
      HexReads(bytes[1..], k - 1);
      assert HexEncode(bytes)[2..] == HexEncode(bytes[1..]);
      assert HexEncode(bytes)[2..][2 * (k - 1)] == HexEncode(bytes)[2 * k];
      assert HexEncode(bytes)[2..][2 * (k - 1) + 1] == HexEncode(bytes)[2 * k + 1];
    }
  }

  lemma HexDigitIs(d: int)
    requires 0 <= d < 16
    ensures HexDigit(d) == "0123456789abcdef"[d]
  {
  }

  predicate Writes(c: char, d: nat) { d < 16 && (c == "0123456789abcdef"[d] || c == "0123456789ABCDEF"[d]) }

  lemma DigitWrites(c: char, d: nat)
    requires d < 16
    ensures DigitValue(c) == d <==> Writes(c, d)
  {
  }

  // A text is decoded to these bytes exactly when it writes their digits, the
  // high one of each byte first, in small or capital letters.
  lemma {:induction false} HexDecodesTo(s: string, bytes: seq<Byte>)
    ensures HexDecode(s) == Ok(bytes) <==> |s| == 2 * |bytes| && WritesAll(s, bytes)
  {
    if |s| >= 2 && bytes != [] {
      HexDecodesTo(s[2..], bytes[1..]);
      DigitWrites(s[0], bytes[0] / 16);
      DigitWrites(s[1], bytes[0] % 16);
      assert bytes == [bytes[0]] + bytes[1..];
      if |s| == 2 * |bytes| { PairsShift(s, bytes); }
      FirstByte(s, bytes[0]);
    }
  }

  predicate WritesByte(high: char, low: char, b: Byte) { Writes(high, b / 16) && Writes(low, b % 16) }

  ghost predicate WritesAll(s: string, bytes: seq<Byte>)
    requires |s| == 2 * |bytes|
  {
    forall k {:trigger bytes[k]} :: 0 <= k < |bytes| ==> WritesByte(s[2 * k], s[2 * k + 1], bytes[k])
  }

  lemma PairsShift(s: string, bytes: seq<Byte>)
    requires bytes != [] && |s| == 2 * |bytes|
    ensures WritesAll(s, bytes) <==> WritesByte(s[0], s[1], bytes[0]) && WritesAll(s[2..], bytes[1..])
  {
    hide WritesByte;
    var t, more := s[2..], bytes[1..];
    if WritesByte(s[0], s[1], bytes[0]) && WritesAll(t, more) {
      forall k | 0 <= k < |bytes|
        ensures WritesByte(s[2 * k], s[2 * k + 1], bytes[k])
      {
        if k > 0 { assert more[k - 1] == bytes[k] && t[2 * (k - 1)] == s[2 * k] && t[2 * (k - 1) + 1] == s[2 * k + 1]; }
      }
    }
    if WritesAll(s, bytes) {
      assert bytes[0] == bytes[0];
      forall k | 0 <= k < |more|
        ensures WritesByte(t[2 * k], t[2 * k + 1], more[k])
      {
        assert more[k] == bytes[k + 1] && t[2 * k] == s[2 * (k + 1)] && t[2 * k + 1] == s[2 * (k + 1) + 1];
      }
    }
  }

  lemma FirstByte(s: string, b: Byte)
    requires |s| >= 2
    ensures DigitValue(s[0]) >= 0 && DigitValue(s[1]) >= 0 && 16 * DigitValue(s[0]) + DigitValue(s[1]) == b
      <==> DigitValue(s[0]) == b / 16 && DigitValue(s[1]) == b % 16
  {
  }

  lemma {:induction false} ChunksRoundTrip(words: seq<Word>)
    ensures Chunks(Flatten(words), |words|) == words
  {
    if words != [] {
      var bytes := Flatten(words);
      ChunksRoundTrip(words[1..]);
      assert bytes[..HASH_LEN] == words[0] && bytes[HASH_LEN..] == Flatten(words[1..]);
    }
  }

  lemma {:induction false} FlattenRoundTrip(bytes: seq<Byte>, count: nat)
    requires |bytes| == HASH_LEN * count
    ensures Flatten(Chunks(bytes, count)) == bytes
  {
    if count > 0 {
      FlattenRoundTrip(bytes[HASH_LEN..], count - 1);
      assert Chunks(bytes, count)[1..] == Chunks(bytes[HASH_LEN..], count - 1);
      assert bytes == bytes[..HASH_LEN] + bytes[HASH_LEN..];
    }
  }

  // Decoding undoes encoding.
  lemma WordsRoundTrip(words: seq<Word>)
    ensures FromHex(ToHex(words), |words|) == Ok(words)
  {
    HexRoundTrip(Flatten(words));
    ChunksRoundTrip(words);
  }

  predicate IsHex(s: string) { |s| % 2 == 0 && forall i :: 0 <= i < |s| ==> DigitValue(s[i]) >= 0 }

  lemma {:induction false} HexDecodesExactly(s: string)
    ensures HexDecode(s).Ok? <==> IsHex(s)
  {
    if |s| >= 2 {
      HexDecodesExactly(s[2..]);
      assert forall i :: 2 <= i < |s| ==> s[i] == s[2..][i - 2];
      if IsHex(s[2..]) && DigitValue(s[0]) >= 0 && DigitValue(s[1]) >= 0 {
        forall i | 0 <= i < |s|
          ensures DigitValue(s[i]) >= 0
        {
          if i >= 2 { assert DigitValue(s[2..][i - 2]) >= 0; }
        }
      }
    }
  }

  // A text is decoded exactly when it is hex of the right length.
  lemma DecodesExactly(s: string, count: nat)
    ensures FromHex(s, count).Ok? <==> IsHex(s) && |s| == 2 * HASH_LEN * count
  {
    HexDecodesExactly(s);
  }
}
