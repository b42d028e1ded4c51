/** What each operation of the hub promises its caller: when it is applied, what it then records, what it
    answers and what it leaves alone. Everything here is said of the outcome itself, in terms of the
    request and the registry before. */
module Operations {
  import opened Addresses
  import opened Base
  import opened Effects
  import opened Endpoints
  import opened IpAlloc
  import opened Mesh
  import opened Netip
  import opened PeerSet
  import opened Routes
  import opened Valid

  // --- one record replaced ---

  /** The registry is as before but for the record at `i`, which keeps its id. */
  ghost predicate OneRecord(reg: Registry, reg': Registry, i: nat) {
    && i < |reg.clients| == |reg'.clients|
    && reg' == reg.(clients := reg'.clients)
    && (forall k :: 0 <= k < |reg.clients| && k != i ==> reg'.clients[k] == reg.clients[k])
    && reg'.clients[i].id == reg.clients[i].id
  }

  lemma SetIsOneRecord(reg: Registry, i: nat, c: Client)
    requires i < |reg.clients| && c.id == reg.clients[i].id
    ensures OneRecord(reg, SetClient(reg, i, c), i) && SetClient(reg, i, c).clients[i] == c
  {
  }

  // --- endpoints and the mesh URL ---

  /** The text of an address in a pool holds no colon and no bracket. */
  lemma HostTextPlain(ipRange: string, text: string)
    requires PoolHost(ipRange, text)
    ensures !Bracketed(text) && ':' !in text && ',' !in text && text != ""
  {
    HostNonEmpty(ipRange, text);
    AddrTextUnique(text);
    var a := ParseV4(text).value;
    hide PoolHost, ParseV4, AddrText;
    AddrTextWithin(a, '[');
    AddrTextWithin(a, ']');
    AddrTextWithin(a, ':');
    AddrTextWithin(a, ',');
  }

  /** Where the control plane is reached inside the mesh: nowhere without an address or a port; otherwise
      the scheme, and text that splits into the hub's own address and its control port. */
  ghost predicate ReachesHub(url: string, reg: Registry) {
    var scheme := if reg.tls then "https://" else "http://";
    && (url == "" <==> reg.address == "" || reg.controlPort <= 0)
    && (url != "" ==> scheme <= url)
    && (url != "" ==>
          (SplitHostPort(url[|scheme|..]) == Ok((reg.address, Itoa(reg.controlPort))) <==> !Bracketed(reg.address)))
  }

  lemma AnyPortText(n: int)
    ensures PlainPort(Itoa(n))
  {
    forall c | c in Itoa(n) ensures IsDigit(c) || c == '-' {
      if c != '-' {
        DigitsWithin(if n < 0 then -n else n, c);
      }
    }
  }

  lemma URLReaches(reg: Registry)
    ensures ReachesHub(InternalControlURL(reg), reg)
  {
    if reg.address != "" && reg.controlPort > 0 {
      AnyPortText(reg.controlPort);
      HostPortRoundTrip(reg.address, Itoa(reg.controlPort));
      hide JoinHostPort, SplitHostPort, Itoa;
      AfterScheme(reg, JoinHostPort(reg.address, Itoa(reg.controlPort)));
    }
  }

  lemma AfterScheme(reg: Registry, rest: string)
    requires reg.address != "" && reg.controlPort > 0 && rest == JoinHostPort(reg.address, Itoa(reg.controlPort))
    ensures var url, scheme := InternalControlURL(reg), if reg.tls then "https://" else "http://";
            url == scheme + rest && url[|scheme|..] == rest && scheme <= url && url != ""
  {
    hide JoinHostPort, Itoa;
    var scheme := if reg.tls then "https://" else "http://";
    assert InternalControlURL(reg) == scheme + rest;
  }

  /** The endpoint recorded for a host and a port: none without a host; otherwise both, split back out
      whenever the host holds no bracket. */
  ghost predicate EndpointOf(endpoint: string, host: string, port: int) {
    && (host == "" ==> endpoint == "")
    && (host != "" ==> endpoint == JoinHostPort(host, Itoa(port)))
    && (host != "" ==> (SplitHostPort(endpoint) == Ok((host, Itoa(port))) <==> !Bracketed(host)))
  }

  lemma EndpointFromIs(host: string, port: int)
    requires ValidHostOrEmpty(host)
    ensures EndpointOf(EndpointFrom(host, port), host, port)
  {
    if host == "" {
      assert TrimSpace("") == "";
    } else {
      if Zoned(host) {
        ZonedStart(host);
      } else {
        HostWithin(host);
      }
      TrimSpaceKeeps(host);
      AnyPortText(port);
      HostPortRoundTrip(host, Itoa(port));
      hide EndpointHost, SplitHostPort, JoinHostPort, Itoa;
    }
  }

  // --- heartbeat ---

  /** A heartbeat is served exactly when its host is empty or valid and its client still exists. */
  lemma BeatAppliesIff(reg: Registry, id: string, req: HeartbeatRequest, now: nat)
    ensures Heartbeat(reg, id, req, now).Applied? <==>
            (req.publicEndpoint == "" || EndpointHost(req.publicEndpoint)) && exists c :: c in reg.clients && c.id == id
    ensures Heartbeat(reg, id, req, now).Refused? ==>
            Heartbeat(reg, id, req, now).error ==
              if req.publicEndpoint == "" || EndpointHost(req.publicEndpoint) then ClientGone else BadHost
  {
    hide EndpointHost, BuildPeers, BeatSelf, InternalControlURL;
    FoundIff(reg.clients, id);
  }

  lemma FoundIff(cs: seq<Client>, id: string)
    ensures IndexByID(cs, id) < |cs| <==> exists c :: c in cs && c.id == id
  {
    var i := IndexByID(cs, id);
    if i < |cs| {
      assert cs[i] in cs && cs[i].id == id;
    }
  }

  /** What a served heartbeat records and answers. The caller's record alone changes. It is told the
      address recorded for it, the pool, and where the hub is reached. Its port is the reported one if
      positive, else the recorded one if positive, else the default; a reported host is recorded with that
      port; everything else of the record but the key, the stamps and the reported ids stays. */
  lemma BeatAnswers(reg: Registry, id: string, req: HeartbeatRequest, now: nat, reg': Registry, resp: HeartbeatResponse)
    requires Serves(reg, id, req, now, reg', resp)
    ensures var i := IndexByID(reg.clients, id);
            OneRecord(reg, reg', i) &&
            var c, c' := reg.clients[i], reg'.clients[i];
            && resp.address == c.address == c'.address && resp.ipRange == reg.ipRange
            && ReachesHub(resp.controlURL, reg)
            && c'.listenPort == (if req.listenPort > 0 then req.listenPort
                                 else if c.listenPort > 0 then c.listenPort else reg.clientWGPort)
            && (req.publicEndpoint == "" ==> c'.endpoint == c.endpoint)
            && (req.publicEndpoint != "" ==> EndpointOf(c'.endpoint, req.publicEndpoint, c'.listenPort))
            && c'.publicKey == (if req.publicKey != "" && ValidKey(req.publicKey) then req.publicKey else c.publicKey)
            && c'.lastSeenAt == At(now) && c'.have == req.have
            && c'.name == c.name && c'.tokenHash == c.tokenHash && c'.blacklisted == c.blacklisted
            && c'.createdAt == c.createdAt && c'.routes == c.routes
  {
    var i := IndexByID(reg.clients, id);
    var c := reg.clients[i];
    var c' := BeatSelf(reg, c, req, now);
    SetIsOneRecord(reg, i, c');
    URLReaches(reg);
    BeatRecord(reg, c, req, now);
    hide BuildPeers, InternalControlURL, ReachesHub, EndpointOf, BeatSelf, SetClient, ValidKey, Missing, Gone;
    assert Heartbeat(reg, id, req, now).Applied?;
  }

  lemma BeatRecord(reg: Registry, c: Client, req: HeartbeatRequest, now: nat)
    requires ValidHostOrEmpty(req.publicEndpoint)
    ensures var c' := BeatSelf(reg, c, req, now);
            && c'.listenPort == (if req.listenPort > 0 then req.listenPort
                                 else if c.listenPort > 0 then c.listenPort else reg.clientWGPort)
            && (req.publicEndpoint == "" ==> c'.endpoint == c.endpoint)
            && (req.publicEndpoint != "" ==> EndpointOf(c'.endpoint, req.publicEndpoint, c'.listenPort))
            && c'.publicKey == (if req.publicKey != "" && ValidKey(req.publicKey) then req.publicKey else c.publicKey)
            && c' == c.(listenPort := c'.listenPort, endpoint := c'.endpoint, publicKey := c'.publicKey,
                        updatedAt := c'.updatedAt, lastSeenAt := At(now), have := req.have)
  {
    EndpointFromIs(req.publicEndpoint, BeatSelf(reg, c, req, now).listenPort);
    hide EndpointFrom, EndpointOf, ValidKey;
  }

  // --- registration ---

  /** An address the caller may have: its own, or a pool host held by neither the hub nor another client. */
  ghost predicate MayHave(reg: Registry, c: Client, addr: string) {
    addr == "" || addr == c.address ||
    (PoolHost(reg.ipRange, addr) && addr != reg.address &&
     forall k :: 0 <= k < |reg.clients| ==> reg.clients[k].id == c.id || reg.clients[k].address != addr)
  }

  lemma CheckPasses(reg: Registry, addr: string, exceptID: string)
    ensures CheckAddrFree(reg, addr, exceptID).None? <==>
            PoolHost(reg.ipRange, addr) && addr != reg.address &&
            forall k :: 0 <= k < |reg.clients| ==> reg.clients[k].id == exceptID || reg.clients[k].address != addr
  {
    UsableIsPoolHost(reg.ipRange, addr);
    hide Usable, PoolHost;
  }

  /** A registration is applied exactly with a valid key, an empty or valid host, an existing client and an
      address it may have. */
  lemma RegisterAppliesIff(reg: Registry, id: string, req: RegisterRequest, now: nat)
    ensures Register(reg, id, req, now).Applied? <==>
            && ValidKey(req.publicKey) && (req.publicEndpoint == "" || EndpointHost(req.publicEndpoint))
            && IndexByID(reg.clients, id) < |reg.clients|
            && MayHave(reg, reg.clients[IndexByID(reg.clients, id)], req.requestedAddress)
  {
    CheckPasses(reg, req.requestedAddress, id);
    hide ValidKey, EndpointHost, CheckAddrFree, BuildPeers, JoinSelf, InternalControlURL, PoolHost;
  }

  /** What an applied registration records and answers. The caller's record alone changes: the requested
      port if positive, else the default; the host with that port, or no endpoint; the requested address,
      or the one it had; the new key; both stamps. The answer tells it who it is, its address, the pool,
      where the hub is reached, and the full peer set. */
  lemma RegisterAnswers(reg: Registry, id: string, req: RegisterRequest, now: nat)
    requires Register(reg, id, req, now).Applied?
    ensures Register(reg, id, req, now).reply.Registered?
    ensures var i, reg', resp := IndexByID(reg.clients, id), Register(reg, id, req, now).reg,
                                 Register(reg, id, req, now).reply.registered;
            OneRecord(reg, reg', i) &&
            var c, c' := reg.clients[i], reg'.clients[i];
            && c'.listenPort == (if req.listenPort > 0 then req.listenPort else reg.clientWGPort)
            && EndpointOf(c'.endpoint, req.publicEndpoint, c'.listenPort)
            && c'.address == (if req.requestedAddress != "" then req.requestedAddress else c.address)
            && c'.publicKey == req.publicKey && c'.updatedAt == At(now) && c'.lastSeenAt == At(now)
            && c'.name == c.name && c'.tokenHash == c.tokenHash && c'.blacklisted == c.blacklisted
            && c'.createdAt == c.createdAt && c'.routes == c.routes && c'.have == c.have
            && resp.id == id && resp.name == c.name && resp.address == c'.address && resp.ipRange == reg.ipRange
            && ReachesHub(resp.controlURL, reg) && Held(resp.peers) == Full(reg', id)
  {
    var i := IndexByID(reg.clients, id);
    var c := reg.clients[i];
    URLReaches(reg);
    EndpointFromIs(req.publicEndpoint, JoinSelf(reg, c, req, now).listenPort);
    SetIsOneRecord(reg, i, JoinSelf(reg, c, req, now));
    hide BuildPeers, InternalControlURL, ReachesHub, EndpointOf, EndpointFrom, ValidKey, CheckAddrFree, Held, SetClient,
        ValidHostOrEmpty;
  }

  // --- adding a client ---

  /** A new record as every addition makes it. */
  ghost predicate NewRecord(c: Client, id: string, name: string, token: string, cidrs: seq<string>, now: nat) {
    && c.id == id && c.name == TrimSpace(name) && c.tokenHash == Digest(token) && CanonRoutes(cidrs) == Ok(c.routes)
    && c.publicKey == "" && c.endpoint == "" && c.listenPort == 0 && !c.blacklisted
    && c.createdAt == At(now) && c.lastSeenAt == Unset && c.updatedAt == Unset && c.have == []
  }

  /** The outcome is the registry with one more record, last, which the reply repeats. */
  ghost predicate Appended(reg: Registry, out: Outcome) {
    && out.Applied? && out.reply.Created?
    && out.reg == reg.(clients := reg.clients + [out.reply.client])
  }

  /** The name is free and the routes are routes. */
  ghost predicate Addable(reg: Registry, name: string, cidrs: seq<string>) {
    && TrimSpace(name) != ""
    && (forall c :: c in reg.clients ==> c.name != TrimSpace(name))
    && (forall r :: r in cidrs ==> CIDR(r).Ok?)
  }

  lemma AddableIs(reg: Registry, name: string, cidrs: seq<string>)
    ensures Addable(reg, name, cidrs) <==>
            TrimSpace(name) != "" && IndexByName(reg.clients, TrimSpace(name)) ==
                |reg.clients| && CanonRoutes(cidrs).Ok?
  {
    hide TrimSpace, CIDR;
    CanonRoutesAre(cidrs);
    var i := IndexByName(reg.clients, TrimSpace(name));
    if i < |reg.clients| {
      assert reg.clients[i] in reg.clients;
    }
  }

  lemma AddOutcome(reg: Registry, name: string, address: string, cidrs: seq<string>, id: string, token: string,
                   now: nat)
    ensures var out, picked := AddClient(reg, name, address, cidrs, id, token, now),
                               PickAddress(reg, TrimSpace(address));
            && (out.Applied? <==> Addable(reg, name, cidrs) && picked.Ok?)
            && (out.Applied? ==> Appended(reg, out) && NewRecord(out.reply.client, id, name, token, cidrs, now) &&
                                 out.reply.client.address == picked.value)
  {
    AddableIs(reg, name, cidrs);
    hide Addable, PickAddress, TrimSpace, CanonRoutes, IndexByName;
  }

  /** Adding with an address: applied exactly when the name is new, the routes are valid and the trimmed
      address is a pool host held by neither the hub nor any client, and then at exactly that address. */
  lemma AddReserves(reg: Registry, name: string, address: string, cidrs: seq<string>, id: string, token: string,
                    now: nat)
    requires RegistryOk(reg) && TrimSpace(address) != ""
    ensures var out, addr := AddClient(reg, name, address, cidrs, id, token, now), TrimSpace(address);
            && (out.Applied? <==>
                  Addable(reg, name, cidrs) && PoolHost(reg.ipRange, addr) && addr != reg.address &&
                  forall c :: c in reg.clients ==> c.address != addr)
            && (out.Applied? ==> Appended(reg, out) && NewRecord(out.reply.client, id, name, token, cidrs, now) &&
                                 out.reply.client.address == addr)
  {
    AddOutcome(reg, name, address, cidrs, id, token, now);
    CheckPasses(reg, TrimSpace(address), "");
    assert forall k :: 0 <= k < |reg.clients| ==> reg.clients[k].id != "" && reg.clients[k] in reg.clients;
    hide RegistryOk, Addable, AddClient, Appended, NewRecord, PoolHost, CheckAddrFree, TrimSpace;
  }

  /** Adding without one: applied exactly when the name is new, the routes are valid and some pool host is
      free, and then at the least free host. */
  lemma AddAllocates(reg: Registry, name: string, address: string, cidrs: seq<string>, id: string, token: string,
                     now: nat)
    requires RegistryOk(reg) && TrimSpace(address) == ""
    ensures var out := AddClient(reg, name, address, cidrs, id, token, now);
            && (out.Applied? <==> Addable(reg, name, cidrs) && exists a: Addr :: OpenHost(reg, a))
            && (out.Applied? ==>
                  Appended(reg, out) && NewRecord(out.reply.client, id, name, token, cidrs, now) &&
                  exists a: Addr :: out.reply.client.address == AddrText(a) && OpenHost(reg, a) &&
                                    forall b: Addr :: OpenHost(reg, b) ==> a <= b)
  {
    AddOutcome(reg, name, address, cidrs, id, token, now);
    LeastFree(reg);
    hide RegistryOk, Addable, AddClient, Appended, NewRecord, OpenHost, NextFreeText, UsedAddrs, TrimSpace, AddrText;
  }

  /** An address of the pool that is neither the hub's nor a client's. */
  ghost predicate OpenHost(reg: Registry, a: Addr) {
    && PoolHost(reg.ipRange, AddrText(a)) && AddrText(a) != reg.address
    && forall c :: c in reg.clients ==> c.address != AddrText(a)
  }

  lemma SameText(text: string, a: Addr)
    requires ParseV4(text).Some?
    ensures text == AddrText(a) <==> AddrOf(text) == a
  {
    AddrTextUnique(text);
    AddrTextParses(a);
    hide ParseV4, AddrText;
  }

  lemma OpenHostIs(reg: Registry, p: Prefix, a: Addr)
    requires RegistryOk(reg) && ParsePrefix(reg.ipRange) == Some(p)
    ensures OpenHost(reg, a) <==> IsHost(Masked(p), a) && a !in Taken(UsedAddrs(reg))
  {
    AllAddressed(reg);
    InUseTaken(reg);
    PoolHostIs(reg.ipRange, p, a);
    hide RegistryOk, IsHost, Masked, ParsePrefix, AddrText, UsedAddrs, Taken, ParseV4, AddrOf, PoolHost;
    SameText(reg.address, a);
    ClientAddrSetMember(reg.clients, a);
    forall i | 0 <= i < |reg.clients|
      ensures reg.clients[i].address == AddrText(a) <==> AddrOf(reg.clients[i].address) == a
    {
      SameText(reg.clients[i].address, a);
    }
    assert forall i :: 0 <= i < |reg.clients| ==> reg.clients[i] in reg.clients;
  }

  lemma PoolHostIs(ipRange: string, p: Prefix, a: Addr)
    requires ParsePrefix(ipRange) == Some(p)
    ensures PoolHost(ipRange, AddrText(a)) <==> IsHost(Masked(p), a)
  {
    AddrTextParses(a);
    HostsAreInterior(p, a);
    hide ParsePrefix, ParseV4, AddrText, Masked, Span, IsHost;
  }

  lemma LeastFree(reg: Registry)
    requires RegistryOk(reg)
    ensures var free := NextFreeText(reg.ipRange, UsedAddrs(reg));
            && (free.Ok? <==> exists a: Addr :: OpenHost(reg, a))
            && (free.Ok? ==> exists a: Addr :: free.value == AddrText(a) && OpenHost(reg, a) &&
                                               forall b: Addr :: OpenHost(reg, b) ==> a <= b)
  {
    var p := PoolOf(reg);
    NextFreeIsLeast(reg.ipRange, UsedAddrs(reg), p);
    hide RegistryOk, ParsePrefix, NextFreeText, OpenHost, IsHost, Taken, UsedAddrs, AddrText, Masked;
    forall a: Addr ensures OpenHost(reg, a) <==> IsHost(Masked(p), a) && a !in Taken(UsedAddrs(reg)) {
      OpenHostIs(reg, p, a);
    }
  }

  lemma PoolOf(reg: Registry) returns (p: Prefix)
    requires RegistryOk(reg)
    ensures ParsePrefix(reg.ipRange) == Some(p)
  {
    p := ParsePrefix(reg.ipRange).value;
  }

  // --- one client by name ---

  lemma NamedIff(cs: seq<Client>, name: string)
    ensures IndexByName(cs, name) < |cs| <==> exists c :: c in cs && c.name == name
  {
    var i := IndexByName(cs, name);
    if i < |cs| {
      assert cs[i] in cs && cs[i].name == name;
    }
  }

  /** Renaming: applied exactly when the trimmed new name is non-empty and free and the old one is held;
      then the first client of the old name has the new one and the stamp, and nothing else changes. */
  lemma RenameDoes(reg: Registry, oldName: string, newName: string, now: nat)
    ensures var out, name, i := RenameClient(reg, oldName, newName, now),
                                TrimSpace(newName), IndexByName(reg.clients, oldName);
            && (out.Applied? <==> name != "" && (forall c :: c in reg.clients ==> c.name != name) &&
                                  exists c :: c in reg.clients && c.name == oldName)
            && (out.Applied? ==> out.reply == Done && OneRecord(reg, out.reg, i) &&
                                 out.reg.clients[i] == reg.clients[i].(name := name, updatedAt := At(now)))
  {
    hide TrimSpace;
    NamedIff(reg.clients, oldName);
    NamedIff(reg.clients, TrimSpace(newName));
  }

  /** Rotating a token and setting the flag: applied exactly when the name is held; then that client's token
      or flag is the given one, it is stamped, and nothing else changes. */
  lemma RegenDoes(reg: Registry, name: string, token: string, now: nat)
    ensures var out, i := RegenToken(reg, name, token, now), IndexByName(reg.clients, name);
            && (out.Applied? <==> exists c :: c in reg.clients && c.name == name)
            && (out.Applied? ==> out.reply == Done && OneRecord(reg, out.reg, i) &&
                                 out.reg.clients[i] ==
                                   reg.clients[i].(tokenHash := Digest(token), updatedAt := At(now)))
            && (out.Refused? ==> out.error == NoSuchClient(name))
  {
    NamedIff(reg.clients, name);
  }

  lemma BlacklistDoes(reg: Registry, name: string, blacklisted: bool, now: nat)
    ensures var out, i := SetBlacklist(reg, name, blacklisted, now), IndexByName(reg.clients, name);
            && (out.Applied? <==> exists c :: c in reg.clients && c.name == name)
            && (out.Applied? ==> out.reply == Done && OneRecord(reg, out.reg, i) &&
                                 out.reg.clients[i] ==
                                   reg.clients[i].(blacklisted := blacklisted, updatedAt := At(now)))
            && (out.Refused? ==> out.error == NoSuchClient(name))
  {
    NamedIff(reg.clients, name);
  }

  /** Removing: applied exactly when the name is held; then the first client of that name is gone, the
      others keep record and order, and nothing else changes. */
  lemma RemoveDoes(reg: Registry, name: string)
    ensures var out, i := RemoveClient(reg, name), IndexByName(reg.clients, name);
            && (out.Applied? <==> exists c :: c in reg.clients && c.name == name)
            && (out.Refused? ==> out.error == NoSuchClient(name))
            && (out.Applied? ==>
                  && out.reply == Done && out.reg == reg.(clients := out.reg.clients)
                  && |out.reg.clients| == |reg.clients| - 1
                  && forall k :: 0 <= k < |out.reg.clients| ==>
                       out.reg.clients[k] == reg.clients[if k < i then k else k + 1])
  {
    NamedIff(reg.clients, name);
  }

  // --- routes ---

  /** The node a name stands for: the hub under either of its names, whoever else is called so; otherwise
      the first client of that name. */
  lemma RoutesOfIs(reg: Registry, node: string)
    ensures node == "coordinator" || node == "hub" ==> RoutesOf(reg, node) == Some(reg.routes)
    ensures node != "coordinator" && node != "hub" ==>
            var i := IndexByName(reg.clients, node);
            RoutesOf(reg, node) == (if i < |reg.clients| then Some(reg.clients[i].routes) else None)
    ensures RoutesOf(reg, node).None? <==>
            node != "coordinator" && node != "hub" && forall c :: c in reg.clients ==> c.name != node
  {
    NamedIff(reg.clients, node);
  }

  /** A route edit is applied exactly when every given text is a route, at least one is given, and the node
      exists. */
  lemma RouteEditAppliesIff(op: Op, reg: Registry, now: nat)
    requires op.OpAddRoutes? || op.OpRemoveRoutes?
    ensures Apply(op, reg, now).Applied? <==>
            (forall c :: c in op.cidrs ==> CIDR(c).Ok?) && op.cidrs != [] && RoutesOf(reg, op.node).Some?
  {
    hide CIDR, RoutesOf, SetRoutes, Filter;
    CanonRoutesAre(op.cidrs);
    CanonRoutesEmpty(op.cidrs);
    hide CanonRoutes;
  }

  lemma CanonRoutesEmpty(cidrs: seq<string>)
    ensures CanonRoutes(cidrs) == Ok([]) <==> cidrs == []
  {
    hide CIDR;
  }

  /** An addition keeps the list and appends what it reports; the list then holds what it held and the
      canonical form of every given route, and nothing else. */
  lemma AddRoutesDoes(reg: Registry, node: string, cidrs: seq<string>, now: nat,
                      reg': Registry, added: seq<string>, before: seq<string>)
    requires AddRoutes(reg, node, cidrs, now) == Applied(reg', Routed(added)) && RoutesOf(reg, node) == Some(before)
    ensures RoutesOf(reg', node) == Some(before + added)
    ensures forall r :: r in before + added <==> r in before || exists c :: c in cidrs && CIDR(c) == Ok(r)
    ensures Distinct(added) && forall r :: r in added ==> r !in before
  {
    AddParts(reg, node, cidrs, now);
    CanonRoutesAre(cidrs);
    hide AddRoutes, CIDR, CanonRoutes, SetRoutes, RoutesOf;
    var canon := CanonRoutes(cidrs).value;
    RoutesAfterSet(reg, node, before + added, added != [], now);
    FilterDistinct(canon, r => r !in before);
    forall r ensures r in added <==> r in canon && r !in before {
      FilterMember(canon, r => r !in before, r);
    }
  }

  /** Canonicalising more routes only appends: the first appearance of a route decides its place. */
  lemma {:induction false} CanonRoutesPrefix(cidrs: seq<string>, n: nat)
    requires n <= |cidrs| && CanonRoutes(cidrs).Ok?
    ensures CanonRoutes(cidrs[..n]).Ok? && CanonRoutes(cidrs[..n]).value <= CanonRoutes(cidrs).value
    decreases |cidrs|
  {
    hide CIDR;
    if n == |cidrs| {
      assert cidrs[..n] == cidrs;
    } else {
      var front := cidrs[..|cidrs| - 1];
      assert front[..n] == cidrs[..n];
      CanonRoutesPrefix(front, n);
    }
  }

  // --- authentication ---

  /** A token is let in exactly when it is not blank and some client's stored hash is its own; it is then the
      first such client, whatever its flag. */
  lemma AuthenticateIff(reg: Registry, token: string)
    ensures Authenticate(reg, token).Some? <==>
            TrimSpace(token) != "" && exists c :: c in reg.clients && c.tokenHash == Digest(token)
    ensures Authenticate(reg, token).Some? ==>
            exists i :: 0 <= i < |reg.clients| && Authenticate(reg, token) == Some(reg.clients[i]) &&
                        reg.clients[i].tokenHash == Digest(token) &&
                        forall k :: 0 <= k < i ==> reg.clients[k].tokenHash != Digest(token)
  {
    hide TrimSpace;
    if TrimSpace(token) != "" {
      FirstWithToken(reg.clients, token);
    }
  }

  lemma {:induction false} FirstWithToken(cs: seq<Client>, token: string)
    ensures FindByToken(cs, token).Some? ==>
            exists i :: 0 <= i < |cs| && FindByToken(cs, token) == Some(cs[i]) &&
                        cs[i].tokenHash == Digest(token) &&
                        forall k :: 0 <= k < i ==> cs[k].tokenHash != Digest(token)
  {
    if cs != [] && cs[0].tokenHash != Digest(token) {
      FirstWithToken(cs[1..], token);
      if FindByToken(cs, token).Some? {
        var i :| 0 <= i < |cs[1..]| && FindByToken(cs[1..], token) == Some(cs[1..][i]) &&
                 cs[1..][i].tokenHash == Digest(token) &&
                 forall k :: 0 <= k < i ==> cs[1..][k].tokenHash != Digest(token);
        assert cs[i + 1] == cs[1..][i];
        forall k | 0 <= k < i + 1 ensures cs[k].tokenHash != Digest(token) {
          assert k > 0 ==> cs[k] == cs[1..][k - 1];
        }
      }
    }
  }
}
