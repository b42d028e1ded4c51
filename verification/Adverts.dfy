/** What is advertised and programmed for each node, read back from its text: its own address and exactly
    the routes it carries. */
module Adverts {
  import opened Addresses
  import opened Base
  import opened Effects
  import opened IpAlloc
  import opened Mesh
  import opened Netip
  import opened Operations
  import opened PeerSet
  import opened Routes
  import opened Valid
  import V = Views

  // --- reading a list back ---

  /** Text split at every comma followed by a blank. */
  function SplitList(s: string): (parts: seq<string>)
    ensures |parts| >= 1
  {
    if s == "" then [""]
    else if |s| >= 2 && s[0] == ',' && s[1] == ' ' then [""] + SplitList(s[2..])
    else
      var rest := SplitList(s[1..]);
      [[s[0]] + rest[0]] + rest[1..]
  }

  lemma {:induction false} SplitListPrefix(a: string, b: string)
    requires ',' !in a
    ensures SplitList(a + ", " + b) == [a] + SplitList(b)
  {
    var s := a + ", " + b;
    if a == "" {
      assert s[2..] == b;
    } else {
      assert s[1..] == a[1..] + ", " + b && s[0] == a[0];
      SplitListPrefix(a[1..], b);
      assert a == [a[0]] + a[1..];
    }
  }

  lemma {:induction false} SplitListWhole(a: string)
    requires ',' !in a
    ensures SplitList(a) == [a]
  {
    if a != "" {
      SplitListWhole(a[1..]);
      assert a == [a[0]] + a[1..];
    }
  }

  lemma {:induction false} SplitListJoin(parts: seq<string>)
    requires |parts| >= 1 && forall p :: p in parts ==> ',' !in p
    ensures SplitList(Join(parts, ", ")) == parts
  {
    if |parts| == 1 {
      SplitListWhole(parts[0]);
    } else {
      JoinFront(parts, ", ");
      SplitListPrefix(parts[0], Join(parts[1..], ", "));
      SplitListJoin(parts[1..]);
      assert parts == [parts[0]] + parts[1..];
    }
  }

  // --- one node ---

  lemma RouteNoComma(route: string)
    requires CIDR(route) == Ok(route)
    ensures ',' !in route
  {
    var m := Masked(ParsePrefix(TrimSpace(route)).value);
    AddrTextWithin(m.addr, ',');
    DigitsAvoid(m.bits, ',');
    hide AddrText, Digits, Masked, ParsePrefix, TrimSpace;
    assert route == AddrText(m.addr) + "/" + Digits(m.bits);
  }

  /** The own address, then the routes. */
  function Carries(address: string, routes: seq<string>): seq<string> {
    [address + "/32"] + routes
  }

  lemma ListReads(ipRange: string, address: string, routes: seq<string>)
    requires PoolHost(ipRange, address) && Canonical(routes)
    ensures AllowedIPs(address, routes) == Carries(address, routes)
    ensures SplitList(Join(AllowedIPs(address, routes), ", ")) == Carries(address, routes)
  {
    HostTextPlain(ipRange, address);
    hide PoolHost, CIDR;
    forall r | r in routes ensures ',' !in r {
      RouteNoComma(r);
    }
    assert ',' !in address + "/32";
    assert forall r :: r in Carries(address, routes) ==> r == address + "/32" || r in routes;
    SplitListJoin(Carries(address, routes));
  }

  // --- what is advertised ---

  /** Both registry invariants. */
  ghost predicate SoundRegistry(reg: Registry) {
    RegistryOk(reg) && RoutesOk(reg)
  }

  lemma SoundClient(reg: Registry, k: string)
    requires SoundRegistry(reg) && FindByID(reg.clients, k).Some?
    ensures var c := FindByID(reg.clients, k).value; PoolHost(reg.ipRange, c.address) && Canonical(c.routes)
  {
    hide PoolHost, Canonical;
  }

  /** The record of another client in anybody's full peer set: who it is, its key and endpoint, and text
      that reads back as its address and exactly its routes. */
  lemma ClientAdvertised(reg: Registry, o: string, k: string)
    requires SoundRegistry(reg) && o != HUB_ID && k != HUB_ID && k in Full(reg, o)
    ensures FindByID(reg.clients, k).Some?
    ensures var c, p := FindByID(reg.clients, k).value, Full(reg, o)[k];
            && p.id == k && p.name == c.name && p.publicKey == c.publicKey && p.endpoint == c.endpoint
            && SplitList(p.allowedIPs) == Carries(c.address, c.routes)
  {
    FullIsAdvert(reg, o, k);
    hide SoundRegistry, Full, CIDR, AllowedIPs, Carries, SplitList, Join, PoolHost, Canonical;
    SoundClient(reg, k);
    var c := FindByID(reg.clients, k).value;
    ListReads(reg.ipRange, c.address, c.routes);
  }

  /** The hub's own record likewise: it is there exactly when the hub has a key, at the hub's public host
      with its own port, or without an endpoint when it has no host. */
  lemma HubAdvertised(reg: Registry, o: string)
    requires SoundRegistry(reg) && o != HUB_ID
    ensures "coordinator" in Full(reg, o) <==> reg.publicKey != ""
    ensures reg.publicKey != "" ==>
            var p := Full(reg, o)["coordinator"];
            && p.id == "coordinator" && p.name == "coordinator" && p.publicKey == reg.publicKey
            && EndpointOf(p.endpoint, reg.publicEndpoint, reg.listenPort)
            && SplitList(p.allowedIPs) == Carries(reg.address, reg.routes)
  {
    FullIsAdvert(reg, o, HUB_ID);
    ListReads(reg.ipRange, reg.address, reg.routes) by {
      hide PoolHost, Canonical;
    }
    hide SoundRegistry, Full, AllowedIPs, Carries, SplitList, Join, PoolHost, Canonical, EndpointOf;
    HubEndpoint(reg);
  }

  lemma HubEndpoint(reg: Registry)
    ensures EndpointOf(HubPeer(reg).endpoint, reg.publicEndpoint, reg.listenPort)
  {
    if reg.publicEndpoint != "" {
      AnyPortText(reg.listenPort);
      HostPortRoundTrip(reg.publicEndpoint, Itoa(reg.listenPort));
      hide SplitHostPort, JoinHostPort, Itoa;
    }
  }

  /** The hub's own interface: one peer for every active client, in registry order, with its key, its
      endpoint, its address and exactly its routes, and no keepalive. */
  lemma Programmed(reg: Registry, k: nat)
    requires SoundRegistry(reg) && k < |V.DesiredPeers(reg.clients)|
    ensures |V.DesiredPeers(reg.clients)| == |Filter(reg.clients, Active)|
    ensures var c, w := Filter(reg.clients, Active)[k], V.DesiredPeers(reg.clients)[k];
            && c in reg.clients && !c.blacklisted && c.publicKey != ""
            && w.publicKey == c.publicKey && w.endpoint == c.endpoint && w.keepalive == 0
            && w.allowedIPs == Carries(c.address, c.routes)
  {
    var c := Filter(reg.clients, Active)[k];
    FilterMember(reg.clients, Active, c);
    assert V.DesiredPeers(reg.clients)[k] == V.HubWgPeer(c);
    var i :| 0 <= i < |reg.clients| && reg.clients[i] == c;
    ListReads(reg.ipRange, c.address, c.routes) by {
      hide PoolHost, Canonical;
    }
  }

  // --- route edits reach what is advertised ---

  /** The id a node is advertised under. */
  function NodeID(reg: Registry, node: string): string
    requires RoutesOf(reg, node).Some?
  {
    if IsHub(node) then HUB_ID else reg.clients[IndexByName(reg.clients, node)].id
  }

  /** A node's record in anybody's full set reads back as its address and exactly its routes. */
  lemma NodeAdvertised(reg: Registry, node: string, o: string) returns (address: string)
    requires SoundRegistry(reg) && RoutesOf(reg, node).Some? && o != HUB_ID
    requires NodeID(reg, node) in Full(reg, o)
    ensures SplitList(Full(reg, o)[NodeID(reg, node)].allowedIPs) == Carries(address, RoutesOf(reg, node).value)
    ensures address == if IsHub(node) then reg.address else reg.clients[IndexByName(reg.clients, node)].address
  {
    if IsHub(node) {
      address := reg.address;
      HubAdvertised(reg, o);
    } else {
      var i := IndexByName(reg.clients, node);
      address := reg.clients[i].address;
      FoundAt(reg, i);
      hide SoundRegistry, Full, SplitList, Carries;
      ClientAdvertised(reg, o, reg.clients[i].id);
    }
  }

  lemma FoundAt(reg: Registry, i: nat)
    requires SoundRegistry(reg) && i < |reg.clients|
    ensures FindByID(reg.clients, reg.clients[i].id) == Some(reg.clients[i]) && reg.clients[i].id != HUB_ID
  {
    IndexOfClient(reg.clients, i);
    hide AddressesOk, Canonical, UniqueNames;
  }

  /** After an addition every route it reports is in the node's record of every full set that has one. */
  lemma AddedIsAdvertised(reg: Registry, node: string, cidrs: seq<string>, now: nat, reg': Registry,
                          added: seq<string>, o: string, route: string)
    requires SoundRegistry(reg) && AddRoutes(reg, node, cidrs, now) == Applied(reg', Routed(added))
    requires route in added && o != HUB_ID
    ensures SoundRegistry(reg') && RoutesOf(reg', node).Some?
    ensures NodeID(reg', node) in Full(reg', o) ==>
            route in SplitList(Full(reg', o)[NodeID(reg', node)].allowedIPs)
  {
    hide SoundRegistry, AddRoutes, Full, SplitList, RoutesOf, NodeID;
    EditKeepsSound(OpAddRoutes(node, cidrs), reg, now, reg', Routed(added)) by {
      assert Apply(OpAddRoutes(node, cidrs), reg, now) == AddRoutes(reg, node, cidrs, now);
    }
    AddParts(reg, node, cidrs, now);
    var before := RoutesOf(reg, node).value;
    assert RoutesOf(reg', node) == Some(before + added) by {
      AddRoutesDoes(reg, node, cidrs, now, reg', added, before);
    }
    hide CanonRoutes, SetRoutes, CIDR;
    if NodeID(reg', node) in Full(reg', o) {
      var address := NodeAdvertised(reg', node, o);
      InCarries(address, before + added, route);
    }
  }

  lemma InCarries(address: string, routes: seq<string>, route: string)
    ensures route in Carries(address, routes) <==> route == address + "/32" || route in routes
  {
  }

  /** After a removal a route it reports is in the node's record no longer, unless it is the node's own
      address spelled as a route, which is always there. */
  lemma RemovedIsNotAdvertised(reg: Registry, node: string, cidrs: seq<string>, now: nat, reg': Registry,
                               removed: seq<string>, o: string, route: string)
    requires SoundRegistry(reg) && RemoveRoutes(reg, node, cidrs, now) == Applied(reg', Routed(removed))
    requires route in removed && o != HUB_ID
    ensures SoundRegistry(reg') && RoutesOf(reg', node).Some?
    ensures NodeID(reg', node) in Full(reg', o) ==>
            var address := if IsHub(node) then reg'.address else reg'.clients[IndexByName(reg'.clients, node)].address;
            route in SplitList(Full(reg', o)[NodeID(reg', node)].allowedIPs) <==> route == address + "/32"
  {
    hide SoundRegistry, RemoveRoutes, Full, SplitList, RoutesOf, NodeID, Subsequence;
    EditKeepsSound(OpRemoveRoutes(node, cidrs), reg, now, reg', Routed(removed)) by {
      assert Apply(OpRemoveRoutes(node, cidrs), reg, now) == RemoveRoutes(reg, node, cidrs, now);
    }
    RemoveParts(reg, node, cidrs, now);
    RemoveSplits(reg, node, cidrs, now, reg', removed, RoutesOf(reg, node).value);
    var after := RoutesOf(reg', node).value;
    hide CanonRoutes, SetRoutes, CIDR;
    if NodeID(reg', node) in Full(reg', o) {
      var address := NodeAdvertised(reg', node, o);
      InCarries(address, after, route);
    }
  }

  lemma EditKeepsSound(op: Op, reg: Registry, now: nat, reg': Registry, reply: Reply)
    requires SoundRegistry(reg) && (op.OpAddRoutes? || op.OpRemoveRoutes?)
    requires Apply(op, reg, now) == Applied(reg', reply)
    ensures SoundRegistry(reg')
  {
    hide RegistryOk, RoutesOk, Apply;
    ApplyKeeps(op, reg, now);
    ApplyRoutesOk(op, reg, now);
  }
}
