/** The two views of the mesh agree: what the hub programs into its own interface and what it
    advertises to each client, down to the text both sides print. */
module Views {
  import opened Addresses
  import opened Base
  import opened Mesh
  import opened Netip
  import opened PeerSet
  import R = Render

  // --- the hub's own interface ---

  function HubWgPeer(c: Client): R.WgPeer {
    R.WgPeer(c.publicKey, c.endpoint, AllowedIPs(c.address, c.routes), 0)
  }

  /** The peers of the hub's interface: every active client, in registry order. */
  function DesiredPeers(cs: seq<Client>): seq<R.WgPeer> {
    Map(Filter(cs, Active), HubWgPeer)
  }

  method DesiredInterface(reg: Registry, privateKey: string) returns (r: Result<R.Interface, Error>)
    ensures r == match ParsePrefix(reg.ipRange)
                 case None => Err(BadRange(reg.ipRange))
                 case Some(p) => Ok(R.Interface(privateKey, reg.listenPort,
                                                reg.address + "/" + Itoa(p.bits), DesiredPeers(reg.clients)))
  {
    var range := ParsePrefix(reg.ipRange);
    if range.None? {
      return Err(BadRange(reg.ipRange));
    }
    var peers: seq<R.WgPeer> := [];
    for i := 0 to |reg.clients|
      invariant peers == DesiredPeers(reg.clients[..i])
    {
      var c := reg.clients[i];
      assert reg.clients[..i + 1] == reg.clients[..i] + [c];
      DesiredAppend(reg.clients[..i], [c]);
      DesiredOne(c);
      if c.blacklisted || c.publicKey == "" {
        continue;
      }
      peers := peers + [R.WgPeer(c.publicKey, c.endpoint, AllowedIPs(c.address, c.routes), 0)];
    }
    assert reg.clients[..|reg.clients|] == reg.clients;
    r := Ok(R.Interface(privateKey, reg.listenPort, reg.address + "/" + Itoa(range.value.bits), peers));
  }

  /** The registry's clients without the one at position `i`. */
  function Without(cs: seq<Client>, i: nat): seq<Client>
    requires i < |cs|
  {
    cs[..i] + cs[i + 1..]
  }

  lemma DesiredAppend(a: seq<Client>, b: seq<Client>)
    ensures DesiredPeers(a + b) == DesiredPeers(a) + DesiredPeers(b)
  {
    FilterAppend(a, b, Active);
  }

  lemma DesiredOne(c: Client)
    ensures DesiredPeers([c]) == if Active(c) then [HubWgPeer(c)] else []
  {
    assert [c][..0] == [] && Filter([c][..0], Active) == [];
    assert Filter([c], Active) == if Active(c) then [c] else [];
    assert Map([c], HubWgPeer) == [HubWgPeer(c)];
  }

  /** One client contributes its own record, at its place, exactly when it is active: a blacklisted
      one leaves the interface as if it had been removed. */
  lemma DesiredSplit(cs: seq<Client>, i: nat)
    requires i < |cs|
    ensures DesiredPeers(cs) == DesiredPeers(cs[..i]) + (if Active(cs[i]) then [HubWgPeer(cs[i])] else []) +
                                DesiredPeers(cs[i + 1..])
    ensures DesiredPeers(cs) == DesiredPeers(Without(cs, i)) <==> !Active(cs[i])
  {
    assert cs == cs[..i] + [cs[i]] + cs[i + 1..];
    DesiredAppend(cs[..i] + [cs[i]], cs[i + 1..]);
    DesiredAppend(cs[..i], [cs[i]]);
    DesiredAppend(cs[..i], cs[i + 1..]);
    DesiredOne(cs[i]);
    hide DesiredPeers;
    assert |DesiredPeers(cs)| == |DesiredPeers(Without(cs, i))| + (if Active(cs[i]) then 1 else 0);
  }

  // --- the advertised view ---

  /** The advertised record of a peer and the hub's own record of it say the same. */
  predicate SamePeer(advertised: Peer, programmed: R.WgPeer) {
    && advertised.publicKey == programmed.publicKey
    && advertised.endpoint == programmed.endpoint
    && advertised.allowedIPs == Join(programmed.allowedIPs, ", ")
  }

  ghost predicate SameView(advertised: seq<Peer>, programmed: seq<R.WgPeer>) {
    |advertised| == |programmed| &&
    forall k :: 0 <= k < |advertised| ==> SamePeer(advertised[k], programmed[k])
  }

  lemma {:induction false} ClientPeersAre(cs: seq<Client>, self: string)
    requires forall c :: c in cs ==> c.id != self
    ensures SameView(ClientPeers(cs, self), DesiredPeers(cs))
  {
    if cs != [] {
      var front, c := cs[..|cs| - 1], cs[|cs| - 1];
      ClientPeersAre(front, self);
      assert cs == front + [c];
      DesiredAppend(front, [c]);
      DesiredOne(c);
    }
  }

  lemma {:induction false} ClientPeersAppend(a: seq<Client>, b: seq<Client>, self: string)
    ensures ClientPeers(a + b, self) == ClientPeers(a, self) + ClientPeers(b, self)
  {
    if b == [] {
      assert a + b == a;
    } else {
      assert (a + b)[..|a + b| - 1] == a + b[..|b| - 1];
      ClientPeersAppend(a, b[..|b| - 1], self);
    }
  }

  /** What is advertised to a client, the hub aside, is what the hub programs for everybody else,
      in the same order. */
  lemma ViewsAgree(reg: Registry, i: nat)
    requires UniqueIDs(reg.clients) && i < |reg.clients|
    ensures var self := reg.clients[i].id;
            BuildPeers(reg, self) ==
              (if reg.publicKey != "" then [HubPeer(reg)] else []) + ClientPeers(reg.clients, self) &&
            SameView(ClientPeers(reg.clients, self), DesiredPeers(Without(reg.clients, i)))
  {
    var cs, self := reg.clients, reg.clients[i].id;
    forall c | c in Without(cs, i) ensures c.id != self {
      var k :| 0 <= k < |cs| - 1 && c == Without(cs, i)[k];
      assert c == if k < i then cs[k] else cs[k + 1];
    }
    hide ClientPeers, DesiredPeers, HubPeer, SameView, UniqueIDs, Without;
    SelfSkipped(cs, i);
    ClientPeersAre(Without(cs, i), self);
  }

  lemma SelfSkipped(cs: seq<Client>, i: nat)
    requires i < |cs|
    ensures ClientPeers(cs, cs[i].id) == ClientPeers(Without(cs, i), cs[i].id)
  {
    hide ClientPeers;
    var a, c, b, self := cs[..i], cs[i], cs[i + 1..], cs[i].id;
    assert cs == a + [c] + b;
    ClientPeersAppend(a + [c], b, self);
    ClientPeersAppend(a, [c], self);
    ClientPeersAppend(a, b, self);
    OwnRecord(c);
    assert ClientPeers(a, self) + [] == ClientPeers(a, self);
  }

  lemma OwnRecord(c: Client)
    ensures ClientPeers([c], c.id) == []
  {
    assert [c][..0] == [];
  }

  /** Two clients see each other symmetrically exactly when both are active or neither is. */
  lemma AdvertisedSymmetrically(reg: Registry, a: Client, b: Client)
    requires UniqueIDs(reg.clients) && a in reg.clients && b in reg.clients && a.id != b.id
    ensures (a.id in PeerIDs(BuildPeers(reg, b.id)) <==> b.id in PeerIDs(BuildPeers(reg, a.id))) <==>
            (Active(a) <==> Active(b))
  {
    AdvertisedTo(reg, a, b);
    AdvertisedTo(reg, b, a);
  }

  lemma AdvertisedTo(reg: Registry, a: Client, b: Client)
    requires UniqueIDs(reg.clients) && a in reg.clients && b in reg.clients && a.id != b.id
    ensures a.id in PeerIDs(BuildPeers(reg, b.id)) <==> Active(a)
  {
    var i :| 0 <= i < |reg.clients| && reg.clients[i] == a;
    IndexOfClient(reg.clients, i);
    FullIsAdvert(reg, b.id, a.id);
    HeldKeys(BuildPeers(reg, b.id), a.id);
  }

  // --- the same text on both sides ---

  /** What a client programs for a cached peer, with the endpoint it resolved. */
  function ClientWgPeer(p: Peer, endpoint: string, keepalive: int): R.WgPeer {
    R.WgPeer(p.publicKey, endpoint, [p.allowedIPs], keepalive)
  }

  lemma CleanAppend(a: string, b: string)
    ensures R.Clean(a + b) == R.Clean(a) + R.Clean(b)
  {
    FilterAppend(a, b, c => !R.LineBreak(c));
  }

  /** Cleaning distributes over joining with ", ". */
  lemma {:induction false} CleanJoin(parts: seq<string>)
    ensures R.Clean(Join(parts, ", ")) == Join(R.CleanList(parts), ", ")
  {
    hide R.Clean;
    if |parts| == 0 {
      R.CleanIsOneLine("");
    } else if |parts| >= 2 {
      var front, last := parts[..|parts| - 1], parts[|parts| - 1];
      CleanJoin(front);
      CleanAppend(Join(front, ", ") + ", ", last);
      CleanAppend(Join(front, ", "), ", ");
      R.CleanIsOneLine(", ");
      assert R.CleanList(parts)[..|parts| - 1] == R.CleanList(front);
    }
  }

  lemma ClientLine(p: Peer, endpoint: string, keepalive: int)
    ensures Join(R.CleanList(ClientWgPeer(p, endpoint, keepalive).allowedIPs), ", ") == R.Clean(p.allowedIPs)
  {
  }

  /** The section a client prints for a peer it reaches as advertised is the section the hub prints for
      it plus the keepalive line, byte for byte, exactly when the peer has any allowed address at all. */
  lemma SameSection(p: Peer, hub: R.WgPeer, keepalive: int)
    requires SamePeer(p, hub) && hub.keepalive == 0 && keepalive > 0
    ensures R.PeerEntries(ClientWgPeer(p, p.endpoint, keepalive)) ==
              R.PeerEntries(hub) + [("PersistentKeepalive", Itoa(keepalive))] <==>
            hub.allowedIPs != []
  {
    CleanJoin(hub.allowedIPs);
    hide R.Clean;
    ClientLine(p, p.endpoint, keepalive);
    var mine, theirs := R.PeerEntries(ClientWgPeer(p, p.endpoint, keepalive)), R.PeerEntries(hub);
    hide R.CleanList;
    if hub.allowedIPs == [] {
      assert |mine| == |theirs| + 2;
    }
  }

  lemma DesiredHave(cs: seq<Client>, k: nat)
    requires k < |DesiredPeers(cs)| && forall c :: c in cs ==> c.address != ""
    ensures DesiredPeers(cs)[k].keepalive == 0 && DesiredPeers(cs)[k].allowedIPs != []
  {
    FilterMember(cs, Active, Filter(cs, Active)[k]);
    assert DesiredPeers(cs)[k] == HubWgPeer(Filter(cs, Active)[k]);
  }

  /** In every reachable registry, what a client prints for the others it is advertised is, peer by peer
      and in order, what the hub prints for them plus the keepalive line. */
  lemma SectionsAgree(reg: Registry, i: nat, k: nat, keepalive: int)
    requires RegistryOk(reg) && i < |reg.clients| && keepalive > 0
    requires k < |ClientPeers(reg.clients, reg.clients[i].id)|
    ensures var p := ClientPeers(reg.clients, reg.clients[i].id)[k];
            k < |DesiredPeers(Without(reg.clients, i))| &&
            R.PeerEntries(ClientWgPeer(p, p.endpoint, keepalive)) ==
              R.PeerEntries(DesiredPeers(Without(reg.clients, i))[k]) + [("PersistentKeepalive", Itoa(keepalive))]
  {
    Addressed(reg);
    IdsOk(reg);
    hide DesiredPeers, R.PeerEntries, ClientPeers, RegistryOk, Itoa, ClientWgPeer, SamePeer, UniqueIDs, Without;
    OthersAddressed(reg.clients, i);
    ViewsAgree(reg, i);
    DesiredHave(Without(reg.clients, i), k);
    SameSection(ClientPeers(reg.clients, reg.clients[i].id)[k], DesiredPeers(Without(reg.clients, i))[k], keepalive);
  }

  lemma IdsOk(reg: Registry)
    requires RegistryOk(reg)
    ensures UniqueIDs(reg.clients)
  {
    hide UniqueIDs, AddressesOk, UniqueNames;
  }

  lemma Addressed(reg: Registry)
    requires RegistryOk(reg)
    ensures forall k :: 0 <= k < |reg.clients| ==> reg.clients[k].address != ""
  {
    AllAddressed(reg);
  }

  lemma OthersAddressed(cs: seq<Client>, i: nat)
    requires i < |cs| && forall k :: 0 <= k < |cs| ==> cs[k].address != ""
    ensures forall c :: c in Without(cs, i) ==> c.address != ""
  {
    forall c | c in Without(cs, i) ensures c.address != "" {
      var j :| 0 <= j < |cs| - 1 && Without(cs, i)[j] == c;
      assert c == cs[if j < i then j else j + 1];
    }
  }
}
