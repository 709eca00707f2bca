// Reverse proxies that may speak for a client: CIDR rules and the walk over
// X-Forwarded-For (crates/firewall/src/lib.rs).
module Proxy {
  import opened Prelude

  // Addresses by family and numeric value; a rule keeps the first `prefix`
  // bits of its base address.
  datatype IpAddr = V4(bits: nat) | V6(bits: nat)

  datatype ProxyRule = ProxyRule(addr: IpAddr, prefix: nat)

  function Width(a: IpAddr): nat { if a.V4? then 32 else 128 }

  function Pow2(n: nat): (p: nat)
    ensures p > 0
  {
    if n == 0 then 1 else 2 * Pow2(n - 1)
  }

  // What ProxyRule::parse guarantees of the rules it returns.
  predicate WellFormedRule(r: ProxyRule) {
    r.prefix <= Width(r.addr) && r.addr.bits < Pow2(Width(r.addr))
  }

  // Comparing under the mask MAX << (width - prefix) compares what is left
  // when the low width - prefix bits are dropped.
  predicate Matches(r: ProxyRule, ip: IpAddr)
    requires WellFormedRule(r)
  {
    && r.addr.V4? == ip.V4?
    && (r.prefix == 0
        || r.addr.bits / Pow2(Width(r.addr) - r.prefix) == ip.bits / Pow2(Width(r.addr) - r.prefix))
  }

  // Bit k of an address, counted from the most significant end.
  function BitOf(x: nat, width: nat, k: nat): nat
    requires k < width
  {
    x / Pow2(width - 1 - k) % 2
  }

  lemma DropBits(x: nat, n: nat)
    ensures x / Pow2(n + 1) == x / Pow2(n) / 2
  {
    var p := Pow2(n);
    var q, r := x / p, x % p;
    assert x == q * p + r;
    assert Pow2(n + 1) == 2 * p;
    var h, b := q / 2, q % 2;
    assert q * p == (2 * h + b) * p == h * (2 * p) + b * p;
    assert 0 <= b * p + r < 2 * p by {
      if b == 0 {} else { assert b == 1; }
    }
    QuotientIs(x, 2 * p, h, b * p + r);
  }

  lemma QuotientIs(x: int, d: int, q: int, r: int)
    requires d > 0 && x == q * d + r && 0 <= r < d
    ensures x / d == q
  {
    var q', r' := x / d, x % d;
    assert x == q' * d + r';
    assert (q - q') * d == r' - r && (q' - q) * d == r - r';
    if q > q' {
      MulAtLeast(q - q', d);
    } else if q < q' {
      MulAtLeast(q' - q, d);
    }
  }

  lemma MulAtLeast(a: int, d: int)
    requires a >= 1 && d > 0
    ensures a * d >= d
  {
    assert a * d == (a - 1) * d + d;
    assert (a - 1) * d >= 0;
  }

  lemma BoundedQuotient(x: nat, n: nat)
    requires x < Pow2(n)
    ensures x / Pow2(n) == 0
  {
    QuotientIs(x, Pow2(n), 0, x);
  }

  // Two numbers agree after dropping n - p low bits exactly when their first
  // p bits agree one by one.
  lemma {:induction false} SharedPrefix(x: nat, y: nat, width: nat, p: nat)
    requires p <= width && x < Pow2(width) && y < Pow2(width)
    ensures x / Pow2(width - p) == y / Pow2(width - p)
       <==> forall k: nat :: k < p ==> BitOf(x, width, k) == BitOf(y, width, k)
    decreases p
  {
    if p == 0 {
      BoundedQuotient(x, width);
      BoundedQuotient(y, width);
    } else {
      SharedPrefix(x, y, width, p - 1);
      DropBits(x, width - p);
      DropBits(y, width - p);
      var a, b := x / Pow2(width - p), y / Pow2(width - p);
      assert width - 1 - (p - 1) == width - p;
      assert BitOf(x, width, p - 1) == a % 2 && BitOf(y, width, p - 1) == b % 2;
      assert a == b <==> a / 2 == b / 2 && a % 2 == b % 2;
    }
  }

  // A rule matches exactly the addresses of its own family that share its
  // first `prefix` bits with the rule's base address.
  lemma MatchesSharesPrefix(r: ProxyRule, ip: IpAddr)
    requires WellFormedRule(r) && ip.bits < Pow2(Width(ip))
    ensures Matches(r, ip)
       <==> r.addr.V4? == ip.V4?
            && forall k: nat :: k < r.prefix ==>
              BitOf(r.addr.bits, Width(r.addr), k) == BitOf(ip.bits, Width(r.addr), k)
  {
    if r.addr.V4? == ip.V4? {
      SharedPrefix(r.addr.bits, ip.bits, Width(r.addr), r.prefix);
    }
  }

  predicate WellFormedRules(rules: seq<ProxyRule>) {
    forall r :: r in rules ==> WellFormedRule(r)
  }

  predicate Trusted(rules: seq<ProxyRule>, ip: IpAddr)
    requires WellFormedRules(rules)
  {
    exists r :: r in rules && Matches(r, ip)
  }

  // An address is trusted exactly when it is of the family of some rule and
  // shares that rule's prefix.
  lemma TrustedExact(rules: seq<ProxyRule>, ip: IpAddr)
    requires WellFormedRules(rules) && ip.bits < Pow2(Width(ip))
    ensures Trusted(rules, ip)
       <==> exists i :: 0 <= i < |rules| && SharesPrefix(rules[i], ip)
  {
    hide Matches, SharesPrefix;
    forall r | r in rules
      ensures Matches(r, ip) <==> SharesPrefix(r, ip)
    {
      MatchesSharesPrefix(r, ip);
      PrefixIs(r, ip);
    }
  }

  ghost predicate SharesPrefix(r: ProxyRule, ip: IpAddr)
    requires WellFormedRule(r)
  {
    && r.addr.V4? == ip.V4?
    && forall k: nat :: k < r.prefix ==> BitOf(r.addr.bits, Width(r.addr), k) == BitOf(ip.bits, Width(r.addr), k)
  }

  lemma PrefixIs(r: ProxyRule, ip: IpAddr)
    requires WellFormedRule(r)
    ensures SharesPrefix(r, ip)
       <==> r.addr.V4? == ip.V4?
            && forall k: nat :: k < r.prefix ==>
              BitOf(r.addr.bits, Width(r.addr), k) == BitOf(ip.bits, Width(r.addr), k)
  {
  }

  // An entry on which the right-to-left walk goes on: a trusted address.
  predicate Hop(rules: seq<ProxyRule>, entry: Option<IpAddr>)
    requires WellFormedRules(rules)
  {
    entry.Some? && Trusted(rules, entry.value)
  }

  // The walk over X-Forwarded-For. Entries are the comma-separated parts, None
  // where a part is no address; splitting a string gives at least one part.
  method ResolveForwardedFor(peer: IpAddr, entries: seq<Option<IpAddr>>, rules: seq<ProxyRule>)
        returns (r: Option<IpAddr>)
    requires WellFormedRules(rules) && |entries| > 0
    ensures !Trusted(rules, peer) ==> r == None
    // The right-most entry that is not a trusted hop decides, if it is an
    // address; a malformed one, or none at all, leaves the left-most entry.
    ensures Trusted(rules, peer) ==>
      forall k :: 0 <= k < |entries| && !Hop(rules, entries[k])
                  && (forall j :: k < j < |entries| ==> Hop(rules, entries[j]))
              ==> r == (if entries[k].Some? then entries[k] else entries[0])
    ensures Trusted(rules, peer) && (forall j :: 0 <= j < |entries| ==> Hop(rules, entries[j])) ==> r == entries[0]
  {
    if !Trusted(rules, peer) {
      return None;
    }
    var i := |entries|;
    while i > 0
      invariant 0 <= i <= |entries|
      invariant forall j :: i <= j < |entries| ==> Hop(rules, entries[j])
    {
      i := i - 1;
      match entries[i] {
        case Some(a) =>
          if !Trusted(rules, a) {
            assert !Hop(rules, entries[i]);
            return Some(a);
          }
        case None =>
          break;
      }
    }
    return entries[0];
  }
}
