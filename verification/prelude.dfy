// Small shared vocabulary of the model.
module Prelude {
  datatype Option<+T> = None | Some(value: T)

  // Rust's fixed-width unsigned integers, as they occur in configurations.
  type u32 = n: int | 0 <= n < 0x1_0000_0000
  type u64 = n: int | 0 <= n < 0x1_0000_0000_0000_0000

  const U64_MAX: nat := 0xFFFF_FFFF_FFFF_FFFF

  function MinReal(a: real, b: real): real { if a <= b then a else b }

  function MaxReal(a: real, b: real): real { if a <= b then b else a }

  function Min(a: int, b: int): int { if a <= b then a else b }

  function Max(a: int, b: int): int { if a <= b then b else a }

  // Whether t stands in the text at i.
  predicate StandsAt(text: string, i: nat, t: string) { i + |t| <= |text| && text[i..i + |t|] == t }

  // text[a..b]
  function Sub(text: string, a: nat, b: nat): string {
    if a < b <= |text| then Sub(text, a, b - 1) + [text[b - 1]] else ""
  }

  lemma {:induction false} SubIs(text: string, a: nat, b: nat)
    requires a <= b <= |text|
    ensures Sub(text, a, b) == text[a..b]
  {
    if a < b {
      SubIs(text, a, b - 1);
      assert text[a..b] == text[a..b - 1] + [text[b - 1]];
    }
  }

  lemma {:induction false} Join(text: string, a: nat, b: nat, c: nat)
    requires a <= b <= c <= |text|
    ensures Sub(text, a, b) + Sub(text, b, c) == Sub(text, a, c)
  {
    if b < c { Join(text, a, b, c - 1); }
  }
}
