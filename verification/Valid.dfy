/** Validators for text that ends up in a WireGuard configuration, and host:port joining and splitting. */
module Valid {
  import opened Base
  import opened Netip

  // --- routes ---

  /** The canonical masked form of an IPv4 CIDR (section 3.1 of RFC 4632). */
  function CIDR(s: string): Result<string, Error> {
    match ParsePrefix(TrimSpace(s))
    case None => Err(BadRoute(s))
    case Some(p) => Ok(PrefixText(Masked(p)))
  }

  lemma PrefixTextTrimmed(p: Prefix)
    ensures TrimSpace(PrefixText(p)) == PrefixText(p)
  {
    var t := PrefixText(p);
    var first := Digits(Octet(p.addr, 0));
    DigitsRoundTrip(Octet(p.addr, 0));
    DigitsRoundTrip(p.bits);
    JoinFront(OctetTexts(p.addr), ".");
    assert t[0] == first[0] && t[|t| - 1] == Digits(p.bits)[|Digits(p.bits)| - 1];
    TrimSpaceKeeps(t);
  }

  /** Canonicalising is idempotent, and a canonical route is masked. */
  lemma CIDRIdempotent(s: string)
    requires CIDR(s).Ok?
    ensures CIDR(CIDR(s).value) == CIDR(s)
  {
    var p := ParsePrefix(TrimSpace(s)).value;
    PrefixTextTrimmed(Masked(p));
    PrefixTextParses(Masked(p));
    ContainsBlock(p, p.addr);
  }

  /** Two routes have the same canonical form exactly when they cover the same addresses. */
  lemma CIDRSameBlock(s: string, t: string)
    requires CIDR(s).Ok? && CIDR(t).Ok?
    ensures CIDR(s) == CIDR(t) <==>
            var p, q := ParsePrefix(TrimSpace(s)).value, ParsePrefix(TrimSpace(t)).value;
            p.bits == q.bits && forall a: Addr :: Contains(p, a) <==> Contains(q, a)
  {
    hide Masked, Contains, PrefixText, ParsePrefix;
    var p, q := ParsePrefix(TrimSpace(s)).value, ParsePrefix(TrimSpace(t)).value;
    PrefixTextParses(Masked(p));
    PrefixTextParses(Masked(q));
    if p.bits == q.bits {
      SameNetwork(p, q);
    }
  }

  lemma SameNetwork(p: Prefix, q: Prefix)
    requires ValidPrefix(p) && ValidPrefix(q) && p.bits == q.bits
    ensures Masked(p) == Masked(q) <==> forall a: Addr :: Contains(p, a) <==> Contains(q, a)
  {
    hide Shl, Shr;
    MaskedKeepsNetwork(p);
    MaskedKeepsNetwork(q);
    assert Contains(p, p.addr);
  }

  // --- endpoint hosts ---

  const MAX_HOST: nat := 253

  predicate HostChar(c: char) {
    c == '.' || c == '-' || 'a' <= c <= 'z' || 'A' <= c <= 'Z' || IsDigit(c)
  }

  /** A bare host for an Endpoint line: an address literal, or DNS hostname characters only. */
  predicate EndpointHost(h: string) {
    h != "" && |h| <= MAX_HOST &&
    (IsLiteral(h) || forall i :: 0 <= i < |h| ==> HostChar(h[i]))
  }

  const ENDPOINT_NONE: string := "-"
  const MAX_PORT: int := 65535

  /** A locally pinned endpoint: a bare host, an explicit host:port, or "no endpoint". */
  predicate EndpointOverride(v: string) {
    v == ENDPOINT_NONE ||
    match SplitHostPort(v)
    case Ok(hp) =>
      (var n := Atoi(hp.1); n.Some? && 1 <= n.value <= MAX_PORT) && EndpointHost(hp.0)
    case Err(_) => EndpointHost(v)
  }

  // --- net.JoinHostPort, net.SplitHostPort (section 3.2.2 of RFC 3986) ---

  datatype AddrError = MissingPort | TooManyColons | MissingBracket | UnexpectedBracket

  function JoinHostPort(host: string, port: string): string {
    if ':' in host then "[" + host + "]:" + port else host + ":" + port
  }

  /** Index of the last `c`, or -1. */
  function LastIndexOf(s: string, c: char): (i: int)
    ensures -1 <= i < |s|
    ensures i >= 0 ==> s[i] == c
    ensures forall k :: i < k < |s| ==> s[k] != c
  {
    if s == "" then -1
    else if s[|s| - 1] == c then |s| - 1
    else LastIndexOf(s[..|s| - 1], c)
  }

  function SplitHostPort(s: string): Result<(string, string), AddrError> {
    var i := LastIndexOf(s, ':');
    if i < 0 then Err(MissingPort)
    else if s[0] == '[' then
      var end := IndexOf(s, ']');
      if end == |s| then Err(MissingBracket)
      else if end + 1 == |s| then Err(MissingPort)
      else if end + 1 != i then (if s[end + 1] == ':' then Err(TooManyColons) else Err(MissingPort))
      else if '[' in s[1..] || ']' in s[end + 1..] then Err(UnexpectedBracket)
      else Ok((s[1..end], s[i + 1..]))
    else if ':' in s[..i] then Err(TooManyColons)
    else if '[' in s || ']' in s then Err(UnexpectedBracket)
    else Ok((s[..i], s[i + 1..]))
  }

  predicate Bracketed(s: string) {
    '[' in s || ']' in s
  }

  lemma LastIndexIs(s: string, c: char, i: nat)
    requires i < |s| && s[i] == c && c !in s[i + 1..]
    ensures LastIndexOf(s, c) == i
  {
    forall k | i < k < |s| ensures s[k] != c {
      assert s[k] == s[i + 1..][k - i - 1];
    }
  }

  lemma IndexIs(s: string, c: char, i: nat)
    requires i < |s| && s[i] == c && c !in s[..i]
    ensures IndexOf(s, c) == i
  {
    forall k | 0 <= k < i ensures s[k] != c {
      assert s[k] == s[..i][k];
    }
    assert forall k :: 0 <= k < IndexOf(s, c) ==> s[k] == s[..IndexOf(s, c)][k];
  }

  lemma IndexAtMost(s: string, c: char, i: nat)
    requires i < |s| && s[i] == c
    ensures IndexOf(s, c) <= i
  {
    assert forall k :: 0 <= k < IndexOf(s, c) ==> s[k] == s[..IndexOf(s, c)][k];
  }

  /** A plain port has nothing in it that splitting looks for. */
  predicate PlainPort(port: string) {
    ':' !in port && !Bracketed(port)
  }

  /** Splitting what was joined gives host and port back exactly when the host holds no bracket. */
  lemma HostPortRoundTrip(host: string, port: string)
    requires PlainPort(port)
    requires host != ""
    ensures SplitHostPort(JoinHostPort(host, port)) == Ok((host, port)) <==>
            !Bracketed(host)
  {
    if ':' in host {
      BracketedForm(host, port);
    } else {
      PlainForm(host, port);
    }
  }

  lemma PlainForm(host: string, port: string)
    requires PlainPort(port) && host != "" && ':' !in host
    ensures SplitHostPort(host + ":" + port) == Ok((host, port)) <==> !Bracketed(host)
  {
    var s := host + ":" + port;
    var i := |host|;
    assert s[i + 1..] == port && s[..i] == host;
    LastIndexIs(s, ':', i);
    assert forall c :: c in host ==> c in s by {
      forall c | c in host ensures c in s {
        var k :| 0 <= k < |host| && host[k] == c;
        assert s[k] == c;
      }
    }
  }

  lemma BracketedForm(host: string, port: string)
    requires PlainPort(port) && ':' in host
    ensures SplitHostPort("[" + host + "]:" + port) == Ok((host, port)) <==> !Bracketed(host)
  {
    var s := "[" + host + "]:" + port;
    var i := |host| + 2;
    assert s[..i - 1] == "[" + host && s[1..] == host + "]:" + port && s[i..] == ":" + port;
    if ']' in host {
      var k :| 0 <= k < |host| && host[k] == ']';
      ClosesEarly(s, host, k);
    } else {
      assert s[i + 1..] == port && s[1..i - 1] == host;
      LastIndexIs(s, ':', i);
      IndexIs(s, ']', i - 1);
      if '[' in host {
        var k :| 0 <= k < |host| && host[k] == '[';
        assert s[1..][k] == '[';
      }
    }
  }

  /** A closing bracket inside the host cuts the host short. */
  lemma ClosesEarly(s: string, host: string, k: nat)
    requires k < |host| && host[k] == ']' && |s| > |host| && s[..|host| + 1] == "[" + host
    ensures SplitHostPort(s).Ok? ==> SplitHostPort(s).value.0 != host
  {
    assert s[..|host| + 1][k + 1] == ']' && s[0] == s[..|host| + 1][0];
    IndexAtMost(s, ']', k + 1);
  }
}
