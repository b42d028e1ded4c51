/** IPv4 addresses, prefixes and their text form, as the standard library's netip has them,
    with the 32-bit word operations the address pool is computed by. IPv6 text is only recognised. */
module Netip {
  import opened Base

  function Pow2(k: nat): (r: nat)
    ensures r >= 1
  {
    if k == 0 then 1 else 2 * Pow2(k - 1)
  }

  const WORD: nat := 0x1_0000_0000

  type Addr = a: nat | a < WORD

  lemma Pow2Word()
    ensures Pow2(8) == 0x100 && Pow2(16) == 0x1_0000 && Pow2(24) == 0x100_0000 && Pow2(32) == WORD
  {
    assert Pow2(4) == 16 && Pow2(8) == 16 * Pow2(4);
    Pow2Sum(8, 8);
    Pow2Sum(16, 8);
    Pow2Sum(16, 16);
  }

  lemma {:induction false} Pow2Sum(a: nat, b: nat)
    ensures Pow2(a + b) == Pow2(a) * Pow2(b)
  {
    if b > 0 {
      Pow2Sum(a, b - 1);
      DoubleRight(Pow2(a), Pow2(b - 1));
    }
  }

  lemma DoubleRight(x: nat, y: nat)
    ensures 2 * (x * y) == x * (2 * y)
  {
  }

  /** Bitwise or, bit by bit. */
  function Or(a: nat, b: nat): nat
    decreases a + b
  {
    if a == 0 && b == 0 then 0
    else 2 * Or(a / 2, b / 2) + (if a % 2 == 1 || b % 2 == 1 then 1 else 0)
  }

  lemma {:induction false} OrBelow(a: nat, b: nat, k: nat)
    requires a < Pow2(k) && b < Pow2(k)
    ensures Or(a, b) < Pow2(k)
  {
    if k > 0 && a + b > 0 {
      OrBelow(a / 2, b / 2, k - 1);
    }
  }

  /** `a | b` on 32-bit words. */
  function Or32(a: Addr, b: Addr): Addr {
    Pow2Word();
    OrBelow(a, b, 32);
    Or(a, b)
  }

  /** `uint32(x) << k`, one place at a time; bits shifted out of the word are lost. */
  function Shl(x: Addr, k: nat): Addr {
    if k == 0 then x else 2 * Shl(x, k - 1) % WORD
  }

  /** `a >> k` */
  function Shr(a: nat, k: nat): nat {
    if k == 0 then a else Shr(a / 2, k - 1)
  }

  lemma {:induction false} ShlValue(x: Addr, k: nat)
    requires x * Pow2(k) < WORD
    ensures Shl(x, k) == x * Pow2(k)
  {
    if k > 0 {
      DoubleRight(x, Pow2(k - 1));
      ShlValue(x, k - 1);
    }
  }

  /** Shifting right is dividing by 2^k. */
  lemma {:induction false} ShrValue(a: nat, q: nat, k: nat)
    ensures Shr(a, k) == q <==> q * Pow2(k) <= a < q * Pow2(k) + Pow2(k)
  {
    if k > 0 {
      ShrValue(a / 2, q, k - 1);
      DoubleRight(q, Pow2(k - 1));
    }
  }

  lemma {:induction false} OrZero(a: nat)
    ensures Or(a, 0) == a
  {
    if a > 0 {
      OrZero(a / 2);
    }
  }

  /** Or of a multiple of 2^k with a value below 2^k is their sum. */
  lemma {:induction false} OrDisjoint(q: nat, b: nat, k: nat)
    requires b < Pow2(k)
    ensures Or(q * Pow2(k), b) == q * Pow2(k) + b
  {
    if k == 0 {
      OrZero(q);
    } else {
      var a := q * Pow2(k);
      assert a == 2 * (q * Pow2(k - 1));
      OrDisjoint(q, b / 2, k - 1);
      assert a / 2 == q * Pow2(k - 1) && a % 2 == 0;
    }
  }

  // --- prefixes ---

  datatype Prefix = Prefix(addr: Addr, bits: nat)

  predicate ValidPrefix(p: Prefix) { p.bits <= 32 }

  /** The number of addresses a prefix spans. */
  function Span(p: Prefix): (n: nat)
    requires ValidPrefix(p)
    ensures 1 <= n
  {
    Pow2(32 - p.bits)
  }

  /** Host bits cleared. */
  function Masked(p: Prefix): (m: Prefix)
    requires ValidPrefix(p)
    ensures ValidPrefix(m) && m.bits == p.bits
  {
    Prefix(Shl(NetworkBits(p.addr, p.bits), 32 - p.bits), p.bits)
  }

  function NetworkBits(a: Addr, bits: nat): Addr
    requires bits <= 32
  {
    ShrSmaller(a, 32 - bits);
    Shr(a, 32 - bits)
  }

  lemma {:induction false} ShrSmaller(a: nat, k: nat)
    ensures Shr(a, k) <= a
  {
    if k > 0 {
      ShrSmaller(a / 2, k - 1);
    }
  }

  predicate Contains(p: Prefix, a: Addr)
    requires ValidPrefix(p)
  {
    Shr(a, 32 - p.bits) == Shr(p.addr, 32 - p.bits)
  }

  /** netip.Addr.Next: None after the last address. */
  function Next(a: Addr): Option<Addr> {
    if a + 1 < WORD then Some(a + 1) else None
  }

  /** A masked base is a whole number of spans, and its block lies inside the word. */
  lemma MaskedBase(p: Prefix) returns (q: nat)
    requires ValidPrefix(p)
    ensures q == Shr(p.addr, 32 - p.bits)
    ensures Masked(p).addr == q * Span(p)
    ensures Masked(p).addr + Span(p) <= WORD
  {
    var host := 32 - p.bits;
    q := NetworkBits(p.addr, p.bits);
    ShrValue(p.addr, q, host);
    ShlValue(q, host);
    Pow2Word();
    Pow2Sum(p.bits, host);
    BlockFits(q, Pow2(p.bits), Span(p));
  }

  /** A block of n that starts below k * n ends at or below it. */
  lemma BlockFits(q: nat, k: nat, n: nat)
    requires q * n < k * n
    ensures q * n + n <= k * n
  {
    if q >= k {
      MulMono(k, q, n);
      assert false;
    }
    MulMono(q + 1, k, n);
    assert (q + 1) * n == q * n + n;
  }

  lemma MulMono(a: nat, b: nat, n: nat)
    requires a <= b
    ensures a * n <= b * n
  {
    assert b * n - a * n == (b - a) * n;
  }

  lemma MaskedKeepsNetwork(p: Prefix)
    requires ValidPrefix(p)
    ensures Contains(p, Masked(p).addr)
  {
    hide Shl, Pow2;
    var q := MaskedBase(p);
    ShrValue(Masked(p).addr, q, 32 - p.bits);
  }

  /** Membership in a masked prefix is membership in the block of Span addresses at its base. */
  lemma ContainsBlock(p: Prefix, a: Addr)
    requires ValidPrefix(p)
    ensures Contains(Masked(p), a) <==> Masked(p).addr <= a < Masked(p).addr + Span(p)
    ensures Masked(Masked(p)) == Masked(p)
  {
    hide Shr, Shl, Pow2;
    var q := MaskedBase(p);
    ShrValue(Masked(p).addr, q, 32 - p.bits);
    ShrValue(a, q, 32 - p.bits);
  }

  // --- text ---

  /** A decimal field without leading zeros, at most `max`. */
  function ParseField(s: string, max: nat): Option<nat> {
    if s == "" || !AllDigits(s) || (|s| > 1 && s[0] == '0') || DigitsValue(s) > max then None
    else Some(DigitsValue(s))
  }

  lemma ParseFieldRoundTrip(n: nat, max: nat)
    requires n <= max
    ensures ParseField(Digits(n), max) == Some(n)
  {
    DigitsRoundTrip(n);
    if n == 0 {
      assert Digits(n) == ['0'];
    }
  }

  lemma ParseFieldCanonical(s: string, max: nat)
    requires ParseField(s, max).Some?
    ensures Digits(ParseField(s, max).value) == s
  {
    DigitsCanonical(s);
  }

  /** Byte `k` of an address, the most significant one first. */
  function Octet(a: Addr, k: nat): (o: nat)
    requires k < 4
    ensures o < 256
    decreases 4 - k
  {
    if k == 3 then a % 256 else Octet(a / 256, k + 1)
  }

  lemma OctetValues(a: Addr)
    ensures Octet(a, 0) == a / 0x100_0000 && Octet(a, 1) == a / 0x1_0000 % 256
    ensures Octet(a, 2) == a / 0x100 % 256 && Octet(a, 3) == a % 256
  {
    hide Octet;
    FirstOctet(a);
    LowOctets(a);
  }

  lemma FirstOctet(a: Addr)
    ensures Octet(a, 0) == a / 0x100_0000
  {
    OctetAfter(a, 0);
    hide Octet;
    LowOctets(a / 256);
    var n := a / 0x100_0000;
    ThreeBytes(a);
    assert n % 256 == n;
  }

  lemma LowOctets(a: Addr)
    ensures Octet(a, 1) == a / 0x1_0000 % 256 && Octet(a, 2) == a / 0x100 % 256 && Octet(a, 3) == a % 256
  {
    OctetAfter(a, 1);
    OctetAfter(a, 2);
    OctetAfter(a / 256, 2);
    TwoBytes(a);
    hide Octet;
  }

  lemma OctetAfter(a: Addr, k: nat)
    requires k < 3
    ensures Octet(a, k) == Octet(a / 256, k + 1)
    ensures Octet(a, 3) == a % 256 && Octet(a / 256, 3) == a / 256 % 256
  {
  }

  lemma TwoBytes(n: nat)
    ensures n / 256 / 256 == n / 0x1_0000
  {
  }

  lemma ThreeBytes(a: Addr)
    ensures a / 256 / 0x1_0000 == a / 0x100_0000 < 256
  {
  }

  function OctetTexts(a: Addr): seq<string> {
    seq(4, k requires 0 <= k < 4 => Digits(Octet(a, k)))
  }

  /** Dotted decimal. */
  function AddrText(a: Addr): string {
    Join(OctetTexts(a), ".")
  }

  function FromOctets(v: seq<nat>): Addr
    requires |v| == 4 && forall i :: 0 <= i < 4 ==> v[i] < 256
  {
    v[0] * 0x100_0000 + v[1] * 0x1_0000 + v[2] * 0x100 + v[3]
  }

  function ParseV4(s: string): Option<Addr> {
    var f := SplitOn(s, '.');
    if |f| != 4 then None
    else
      var v := seq(4, i requires 0 <= i < 4 => ParseField(f[i], 255));
      if v[0].None? || v[1].None? || v[2].None? || v[3].None? then None
      else
        FieldBound(f[0]); FieldBound(f[1]); FieldBound(f[2]); FieldBound(f[3]);
        Some(FromOctets([v[0].value, v[1].value, v[2].value, v[3].value]))
  }

  lemma FieldBound(s: string)
    ensures ParseField(s, 255).Some? ==> ParseField(s, 255).value < 256
  {
  }

  lemma DigitsAvoid(n: nat, c: char)
    requires !IsDigit(c)
    ensures c !in Digits(n)
  {
    if c in Digits(n) {
      DigitsWithin(n, c);
      assert false;
    }
  }

  lemma OctetsMakeAddr(a: Addr)
    ensures FromOctets([Octet(a, 0), Octet(a, 1), Octet(a, 2), Octet(a, 3)]) == a
  {
    OctetValues(a);
    assert a / 0x100_0000 == a / 256 / 256 / 256;
    assert a / 0x1_0000 == a / 256 / 256;
  }

  lemma OctetsOfAddr(v: seq<nat>)
    requires |v| == 4 && forall i :: 0 <= i < 4 ==> v[i] < 256
    ensures forall k :: 0 <= k < 4 ==> Octet(FromOctets(v), k) == v[k]
  {
    OctetValues(FromOctets(v));
    OctetsOf(v[0], v[1], v[2], v[3]);
  }

  lemma OctetsOf(a: nat, b: nat, c: nat, d: nat)
    requires a < 256 && b < 256 && c < 256 && d < 256
    ensures var w := a * 0x100_0000 + b * 0x1_0000 + c * 0x100 + d;
            w / 0x100_0000 == a && w / 0x1_0000 % 256 == b && w / 0x100 % 256 == c && w % 256 == d
  {
    var w := a * 0x100_0000 + b * 0x1_0000 + c * 0x100 + d;
    assert w / 0x1_0000 == a * 256 + b && w / 0x100 == a * 0x1_0000 + b * 256 + c;
  }

  /** Every address has a text, and that text parses back to it. */
  lemma AddrTextParses(a: Addr)
    ensures ParseV4(AddrText(a)) == Some(a)
  {
    var parts := OctetTexts(a);
    assert parts == Map([Octet(a, 0), Octet(a, 1), Octet(a, 2), Octet(a, 3)], Digits);
    FieldsParse([Octet(a, 0), Octet(a, 1), Octet(a, 2), Octet(a, 3)]);
    OctetsMakeAddr(a);
  }

  lemma FieldsParse(v: seq<nat>)
    requires |v| == 4 && forall i :: 0 <= i < 4 ==> v[i] < 256
    ensures ParseV4(Join(Map(v, Digits), ".")) == Some(FromOctets(v))
  {
    var parts := Map(v, Digits);
    forall p | p in parts ensures '.' !in p {
      var i :| 0 <= i < 4 && p == parts[i];
      DigitsAvoid(v[i], '.');
    }
    SplitOnJoin(parts, '.');
    forall i | 0 <= i < 4 ensures ParseField(parts[i], 255) == Some(v[i]) {
      ParseFieldRoundTrip(v[i], 255);
    }
    assert v == [v[0], v[1], v[2], v[3]];
  }

  /** The text of an IPv4 address is unique: comparing texts is comparing addresses. */
  lemma AddrTextUnique(s: string)
    requires ParseV4(s).Some?
    ensures AddrText(ParseV4(s).value) == s
  {
    var f := SplitOn(s, '.');
    var v := FieldValues(s);
    SplitOnSound(s, '.');
    OctetsOfAddr(v);
    assert OctetTexts(FromOctets(v)) == f;
  }

  lemma FieldValues(s: string) returns (v: seq<nat>)
    requires ParseV4(s).Some?
    ensures |v| == 4 && (forall i :: 0 <= i < 4 ==> v[i] < 256) && ParseV4(s).value == FromOctets(v)
    ensures SplitOn(s, '.') == [Digits(v[0]), Digits(v[1]), Digits(v[2]), Digits(v[3])]
  {
    var f := SplitOn(s, '.');
    v := [ParseField(f[0], 255).value, ParseField(f[1], 255).value,
          ParseField(f[2], 255).value, ParseField(f[3], 255).value];
    ParseFieldCanonical(f[0], 255);
    ParseFieldCanonical(f[1], 255);
    ParseFieldCanonical(f[2], 255);
    ParseFieldCanonical(f[3], 255);
  }

  /** netip.ParsePrefix for IPv4. */
  function ParsePrefix(s: string): (r: Option<Prefix>)
    ensures r.Some? ==> ValidPrefix(r.value)
  {
    var f := SplitOn(s, '/');
    if |f| != 2 then None
    else
      var a, b := ParseV4(f[0]), ParseField(f[1], 32);
      if a.None? || b.None? then None else Some(Prefix(a.value, b.value))
  }

  function PrefixText(p: Prefix): string {
    AddrText(p.addr) + "/" + Digits(p.bits)
  }

  lemma AddrTextWithin(a: Addr, c: char)
    requires !IsDigit(c) && c != '.'
    ensures c !in AddrText(a)
  {
    DigitsAvoid(Octet(a, 0), c);
    DigitsAvoid(Octet(a, 1), c);
    DigitsAvoid(Octet(a, 2), c);
    DigitsAvoid(Octet(a, 3), c);
    var t := OctetTexts(a);
    assert Join(t[..1], ".") == t[0];
    assert t[..2][..1] == t[..1] && t[..3][..2] == t[..2];
    assert Join(t[..2], ".") == t[0] + "." + t[1];
    assert Join(t[..3], ".") == t[0] + "." + t[1] + "." + t[2];
    assert AddrText(a) == t[0] + "." + t[1] + "." + t[2] + "." + t[3];
  }

  lemma PrefixTextParses(p: Prefix)
    requires ValidPrefix(p)
    ensures ParsePrefix(PrefixText(p)) == Some(p)
  {
    AddrTextWithin(p.addr, '/');
    DigitsAvoid(p.bits, '/');
    SplitOnPrefix(AddrText(p.addr), '/', Digits(p.bits));
    SplitOnWhole(Digits(p.bits), '/');
    AddrTextParses(p.addr);
    ParseFieldRoundTrip(p.bits, 32);
  }

  // --- recognising IPv6 literals (section 2.2 of RFC 4291) ---

  predicate IsHex(c: char) {
    IsDigit(c) || 'a' <= c <= 'f' || 'A' <= c <= 'F'
  }

  function HexRun(s: string): (n: nat)
    ensures n <= |s|
  {
    if s != "" && IsHex(s[0]) then 1 + HexRun(s[1..]) else 0
  }

  /** Eight groups, or fewer with one `::` standing for the missing ones. */
  predicate GroupsComplete(n: nat, ellipsis: bool) {
    if n == 8 then !ellipsis else n < 8 && ellipsis
  }

  /** The colon-separated groups of an IPv6 literal, `n` of them already read. */
  predicate V6Groups(s: string, n: nat, ellipsis: bool)
    requires n < 8
    decreases 8 - n
  {
    var d := HexRun(s);
    if d == 0 || d > 4 then false
    else if d < |s| && s[d] == '.' then
      (ellipsis || n == 6) && n <= 6 && ParseV4(s).Some? && GroupsComplete(n + 2, ellipsis)
    else
      var rest := s[d..];
      if rest == "" then GroupsComplete(n + 1, ellipsis)
      else if rest[0] != ':' || |rest| == 1 then false
      else if rest[1] == ':' then
        !ellipsis &&
        if |rest| == 2 then GroupsComplete(n + 1, true)
        else n + 1 < 8 && V6Groups(rest[2..], n + 1, true)
      else n + 1 < 8 && V6Groups(rest[1..], n + 1, ellipsis)
  }

  predicate IsV6Plain(s: string) {
    if |s| >= 2 && s[0] == ':' && s[1] == ':' then
      |s| == 2 || V6Groups(s[2..], 0, true)
    else V6Groups(s, 0, false)
  }

  /** Index of the first `c`, or the length when there is none. */
  function IndexOf(s: string, c: char): (i: nat)
    ensures i <= |s|
    ensures c !in s[..i]
    ensures i < |s| ==> s[i] == c
    ensures i < |s| <==> c in s
  {
    if s == "" || s[0] == c then 0
    else
      var i := 1 + IndexOf(s[1..], c);
      assert s == [s[0]] + s[1..] && s[..i] == [s[0]] + s[1..][..i - 1];
      i
  }

  /** netip.ParseAddr succeeds: the first of `.`, `:` and `%` decides the family. */
  predicate IsLiteral(s: string) {
    var dot, colon, zone := IndexOf(s, '.'), IndexOf(s, ':'), IndexOf(s, '%');
    if dot < colon && dot < zone then ParseV4(s).Some?
    else if colon < zone then
      if zone < |s| then zone + 1 < |s| && IsV6Plain(s[..zone]) else IsV6Plain(s)
    else false
  }
}
