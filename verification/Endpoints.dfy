/** Endpoints: what is advertised for a host and a port, and what a client programs for a peer once its
    own overrides are taken into account. */
module Endpoints {
  import opened Base
  import opened Mesh
  import opened Netip
  import opened Valid

  const DEFAULT_PORT: int := 51820

  // --- what a client programs ---

  /** The override for a peer, by its id first and then by its name. */
  function EndpointOverrideFor(overrides: map<string, string>, p: Peer): Option<string> {
    if p.id in overrides then Some(overrides[p.id])
    else if p.name in overrides then Some(overrides[p.name])
    else None
  }

  /** The port of an advertised endpoint, or the default. */
  function AdvertisedPort(endpoint: string): int {
    match SplitHostPort(endpoint)
    case Ok((_, port)) =>
      (match Atoi(port)
       case Some(n) => if n > 0 then n else DEFAULT_PORT
       case None => DEFAULT_PORT)
    case Err(_) => DEFAULT_PORT
  }

  function ResolveEndpoint(overrides: map<string, string>, p: Peer): string {
    match EndpointOverrideFor(overrides, p)
    case None => p.endpoint
    case Some(ov) =>
      if ov == ENDPOINT_NONE then ""
      else if SplitHostPort(ov).Ok? then ov
      else JoinHostPort(ov, Itoa(AdvertisedPort(p.endpoint)))
  }

  // --- accepted hosts ---

  predicate Zoned(h: string) { '%' in h }

  lemma {:induction false} HexRunWithin(s: string)
    ensures forall i :: 0 <= i < HexRun(s) ==> IsHex(s[i])
  {
    if s != "" && IsHex(s[0]) {
      HexRunWithin(s[1..]);
    }
  }

  /** The characters of an address literal without a zone. */
  predicate LiteralChar(c: char) { IsHex(c) || c == ':' || c == '.' }

  predicate LiteralText(s: string) {
    forall i :: 0 <= i < |s| ==> LiteralChar(s[i])
  }

  lemma LiteralParts(a: string, b: string)
    requires LiteralText(a) && LiteralText(b)
    ensures LiteralText(a + b)
  {
  }

  lemma V4Within(s: string)
    requires ParseV4(s).Some?
    ensures LiteralText(s)
  {
    AddrTextUnique(s);
    var a := ParseV4(s).value;
    hide ParseV4, AddrText;
    forall i | 0 <= i < |s| ensures LiteralChar(s[i]) {
      if !IsDigit(s[i]) && s[i] != '.' {
        AddrTextWithin(a, s[i]);
      }
    }
  }

  lemma {:induction false} V6Within(s: string, n: nat, ellipsis: bool)
    requires n < 8 && V6Groups(s, n, ellipsis)
    ensures LiteralText(s)
    decreases 8 - n
  {
    var d := HexRun(s);
    HexRunWithin(s);
    if d < |s| && s[d] == '.' {
      V4Within(s);
    } else {
      var rest := s[d..];
      assert s == s[..d] + rest;
      if rest != "" {
        var skip := if rest[1] == ':' then 2 else 1;
        assert rest == rest[..skip] + rest[skip..];
        if |rest| > 2 || rest[1] != ':' {
          V6Within(rest[skip..], n + 1, ellipsis || skip == 2);
        }
        LiteralParts(rest[..skip], rest[skip..]);
      }
      LiteralParts(s[..d], rest);
    }
  }

  lemma V6PlainWithin(s: string)
    requires IsV6Plain(s)
    ensures LiteralText(s)
  {
    if |s| >= 2 && s[0] == ':' && s[1] == ':' {
      assert s == s[..2] + s[2..];
      if |s| > 2 {
        V6Within(s[2..], 0, true);
      }
      LiteralParts(s[..2], s[2..]);
    } else {
      V6Within(s, 0, false);
    }
  }

  /** A validated host without a zone holds letters, digits, dots, dashes and colons only. */
  lemma HostWithin(h: string)
    requires EndpointHost(h) && !Zoned(h)
    ensures 1 <= |h| <= 253
    ensures forall i :: 0 <= i < |h| ==>
              '0' <= h[i] <= '9' || 'a' <= h[i] <= 'z' || 'A' <= h[i] <= 'Z' ||
              h[i] == '.' || h[i] == '-' || h[i] == ':'
    ensures !Bracketed(h)
  {
    if IsLiteral(h) {
      hide EndpointHost;
      if IndexOf(h, '.') < IndexOf(h, ':') {
        V4Within(h);
      } else {
        V6PlainWithin(h);
      }
    }
  }

  /** A host holding a zone is a literal with a colon before the zone. */
  lemma ZonedStart(h: string)
    requires EndpointHost(h) && Zoned(h)
    ensures !IsSpace(h[0]) && ':' in h
  {
    var zone := IndexOf(h, '%');
    assert h[zone] == '%' && !HostChar('%');
    assert IsLiteral(h);
    if IndexOf(h, '.') < IndexOf(h, ':') && IndexOf(h, '.') < zone {
      V4Within(h);
      assert false;
    } else {
      V6PlainWithin(h[..zone]);
      assert zone > 0 && h[..zone][0] == h[0];
    }
  }

  lemma PortText(n: int)
    requires 0 < n
    ensures PlainPort(Itoa(n))
  {
    DigitsRoundTrip(n);
    var t := Itoa(n);
    forall c | c in t ensures IsDigit(c) {
      DigitsWithin(n, c);
    }
  }

  // --- round trip ---

  /** For a validated host and a positive port, the advertised endpoint splits back into both exactly
      when the host holds no bracket, which only a zone can; and then its port is the one advertised. */
  lemma EndpointRoundTrip(host: string, port: int)
    requires EndpointHost(host) && 0 < port <= MAX_INT
    ensures SplitHostPort(EndpointFrom(host, port)) == Ok((host, Itoa(port))) <==> !Bracketed(host)
    ensures Bracketed(host) ==> Zoned(host)
    ensures !Bracketed(host) ==> AdvertisedPort(EndpointFrom(host, port)) == port
  {
    if Zoned(host) {
      ZonedStart(host);
    } else {
      HostWithin(host);
    }
    TrimSpaceKeeps(host);
    PortText(port);
    HostPortRoundTrip(host, Itoa(port));
    AtoiItoa(port);
    hide EndpointHost, SplitHostPort, JoinHostPort;
    assert EndpointFrom(host, port) == JoinHostPort(host, Itoa(port));
  }

  lemma LoopbackIsLiteral()
    ensures IsV6Plain("::1")
  {
    assert "::1"[2..] == "1" && "1"[1..] == "";
    assert HexRun("1") == 1;
  }

  /** A bracket in a zone is accepted, and the endpoint built from it does not split back. */
  lemma BracketedZone()
    ensures EndpointHost("::1%[") && SplitHostPort(EndpointFrom("::1%[", 51820)) != Ok(("::1%[", Itoa(51820)))
  {
    var h := "::1%[";
    LoopbackIsLiteral();
    IndexIs(h, '%', 3);
    IndexIs(h, ':', 0);
    assert h[..3] == "::1" && h[4] == '[';
    hide IsV6Plain;
    assert IsLiteral(h);
    hide IsLiteral, SplitHostPort, EndpointFrom, Itoa, JoinHostPort;
    EndpointRoundTrip(h, 51820);
  }

  // --- overrides ---

  /** The endpoint text names a validated host and a positive port. */
  predicate NamesEndpoint(e: string) {
    match SplitHostPort(e)
    case Ok((host, port)) => EndpointHost(host) && (var n := Atoi(port); n.Some? && n.value > 0)
    case Err(_) => false
  }

  lemma AdvertisedPortInRange(endpoint: string)
    ensures 0 < AdvertisedPort(endpoint) <= MAX_INT
  {
  }

  /** Pinning a peer with a validated zone-free override: the "none" form leaves it without an
      endpoint, a host:port is used as it is, and a bare host takes the port the peer is advertised
      with, or the default. Whatever is programmed then names a valid host and a positive port. */
  lemma OverrideResolves(overrides: map<string, string>, p: Peer, ov: string)
    requires EndpointOverrideFor(overrides, p) == Some(ov)
    requires EndpointOverride(ov) && !Zoned(ov)
    ensures var e := ResolveEndpoint(overrides, p);
            && (e == "" <==> ov == ENDPOINT_NONE)
            && (ov != ENDPOINT_NONE ==> NamesEndpoint(e))
            && (ov != ENDPOINT_NONE && SplitHostPort(ov).Ok? ==> e == ov)
            && (ov != ENDPOINT_NONE && SplitHostPort(ov).Err? ==>
                  SplitHostPort(e) == Ok((ov, Itoa(AdvertisedPort(p.endpoint)))) &&
                  AdvertisedPort(e) == AdvertisedPort(p.endpoint))
  {
    if ov != ENDPOINT_NONE {
      if SplitHostPort(ov).Ok? {
        hide EndpointHost;
        assert SplitHostPort("").Err?;
      } else {
        var port := AdvertisedPort(p.endpoint);
        AdvertisedPortInRange(p.endpoint);
        HostWithin(ov);
        EndpointRoundTrip(ov, port);
        AtoiItoa(port);
        TrimSpaceKeeps(ov);
        hide EndpointHost, SplitHostPort, JoinHostPort, AdvertisedPort;
        assert ResolveEndpoint(overrides, p) == EndpointFrom(ov, port);
      }
    }
  }

  /** A peer registered with a validated zone-free host keeps the port it listens on when it is pinned
      to a bare host. */
  lemma PinKeepsPort(overrides: map<string, string>, p: Peer, ov: string, host: string, port: int)
    requires EndpointHost(host) && !Zoned(host) && 0 < port <= MAX_INT && p.endpoint == EndpointFrom(host, port)
    requires EndpointOverrideFor(overrides, p) == Some(ov) && ov != ENDPOINT_NONE
    requires EndpointOverride(ov) && !Zoned(ov) && SplitHostPort(ov).Err?
    ensures SplitHostPort(ResolveEndpoint(overrides, p)) == Ok((ov, Itoa(port)))
  {
    HostWithin(host);
    EndpointRoundTrip(host, port);
    OverrideResolves(overrides, p, ov);
  }

  // --- every proper host is accepted ---

  /** Host names of the DNS alphabet and every IPv4 literal are accepted, up to 253 characters. */
  lemma HostAccepted(h: string)
    requires h != "" && |h| <= 253
    requires || ParseV4(h).Some?
             || forall i :: 0 <= i < |h| ==>
                  '0' <= h[i] <= '9' || 'a' <= h[i] <= 'z' || 'A' <= h[i] <= 'Z' || h[i] == '.' || h[i] == '-'
    ensures EndpointHost(h)
  {
    if ParseV4(h).Some? {
      V4Within(h);
      hide ParseV4;
      V4HasNoColon(h);
    }
  }

  lemma V4HasNoColon(h: string)
    requires ParseV4(h).Some?
    ensures forall i :: 0 <= i < |h| ==> HostChar(h[i])
  {
    AddrTextUnique(h);
    var a := ParseV4(h).value;
    hide ParseV4, AddrText;
    forall i | 0 <= i < |h| ensures HostChar(h[i]) {
      if !IsDigit(h[i]) && h[i] != '.' {
        AddrTextWithin(a, h[i]);
      }
    }
  }

  /** An override is accepted exactly when it is the "none" form, a valid host with a port from 1 to 65535,
      or text without a port that is a valid host. */
  lemma OverrideAcceptedIff(ov: string)
    ensures EndpointOverride(ov) <==>
            || ov == "-"
            || (SplitHostPort(ov).Ok? && EndpointHost(SplitHostPort(ov).value.0) &&
                exists n :: Atoi(SplitHostPort(ov).value.1) == Some(n) && 1 <= n <= 65535)
            || (SplitHostPort(ov).Err? && EndpointHost(ov))
  {
    hide EndpointHost, Atoi;
    if SplitHostPort(ov).Ok? && Atoi(SplitHostPort(ov).value.1).Some? {
      var n := Atoi(SplitHostPort(ov).value.1).value;
      assert Atoi(SplitHostPort(ov).value.1) == Some(n);
    }
    hide SplitHostPort;
  }

  /** The default stands in exactly when no positive port is advertised. */
  lemma AdvertisedPortIs(endpoint: string)
    ensures match SplitHostPort(endpoint)
            case Err(_) => AdvertisedPort(endpoint) == 51820
            case Ok((_, port)) =>
              if Atoi(port).Some? && Atoi(port).value > 0 then Atoi(port) == Some(AdvertisedPort(endpoint))
              else AdvertisedPort(endpoint) == 51820
  {
    hide SplitHostPort, Atoi;
  }
}
