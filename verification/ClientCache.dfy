/** The client's side: its cached peer list, kept in one array that a heartbeat's delta overwrites and
    compacts in place, and the interface it makes of it. */
module ClientCache {
  import opened Base
  import opened Endpoints
  import opened Mesh
  import opened Netip
  import opened PeerSet
  import opened Valid
  import R = Render
  import Views

  const DEFAULT_KEEPALIVE: int := 25

  /** The peers a client programs, with the endpoint it resolved for each. */
  function WgPeers(peers: seq<Peer>, overrides: map<string, string>, keepalive: int): seq<R.WgPeer> {
    Map(peers, (p: Peer) => Views.ClientWgPeer(p, ResolveEndpoint(overrides, p), keepalive))
  }

  class ClientConfig {
    var publicKey: string
    var privateKey: string
    var publicEndpoint: string
    var listenPort: int
    var id: string
    var name: string
    var address: string
    var ipRange: string
    var internalURL: string
    var keepalive: int
    var endpointOverrides: map<string, string>
    /** The cached peers are the first `count` entries. */
    var slots: array<Peer>
    var count: nat

    ghost predicate Valid()
      reads this
    {
      count <= slots.Length
    }

    /** The cached peer list. */
    function Peers(): (ps: seq<Peer>)
      requires Valid()
      reads this, slots
      ensures |ps| == count
    {
      slots[..count]
    }

    constructor (publicKey: string, privateKey: string, publicEndpoint: string, listenPort: int)
      ensures Valid() && Peers() == [] && fresh(slots)
      ensures this.publicKey == publicKey && this.publicEndpoint == publicEndpoint && this.listenPort == listenPort
    {
      this.publicKey, this.privateKey := publicKey, privateKey;
      this.publicEndpoint, this.listenPort := publicEndpoint, listenPort;
      id, name, address, ipRange, internalURL, keepalive, endpointOverrides := "", "", "", "", "", 0, map[];
      slots, count := new Peer[0], 0;
    }

    // --- what a heartbeat reports ---

    method PeerIDs() returns (ids: seq<string>)
      requires Valid()
      ensures ids == Mesh.PeerIDs(Peers())
    {
      ids := [];
      for i := 0 to count
        invariant ids == Mesh.PeerIDs(slots[..i])
      {
        assert slots[..i + 1] == slots[..i] + [slots[i]];
        ids := ids + [slots[i].id];
      }
    }

    method Report() returns (req: HeartbeatRequest)
      requires Valid()
      ensures req == HeartbeatRequest(Mesh.PeerIDs(Peers()), publicKey, publicEndpoint, listenPort)
    {
      var have := PeerIDs();
      req := HeartbeatRequest(have, publicKey, publicEndpoint, listenPort);
    }

    // --- the cached list ---

    method Append(p: Peer)
      requires Valid()
      modifies this`slots, this`count, slots
      ensures Valid() && (slots == old(slots) || fresh(slots))
      ensures Peers() == old(Peers()) + [p]
    {
      if count == slots.Length {
        var more := new Peer[2 * count + 1](i requires 0 <= i reads this, slots =>
            if i < slots.Length then slots[i] else p);
        slots := more;
      }
      slots[count] := p;
      count := count + 1;
    }

    /** The positions of the cached peers by id; of two with one id the later. */
    method Index() returns (byID: map<string, nat>)
      requires Valid()
      ensures Indexes(byID, Peers())
    {
      byID := map[];
      for i := 0 to count
        invariant Indexes(byID, slots[..i])
      {
        assert slots[..i + 1] == slots[..i] + [slots[i]];
        IndexSnoc(byID, slots[..i], slots[i]);
        byID := byID[slots[i].id := i];
      }
    }

    method Upsert(p: Peer, byID: map<string, nat>) returns (byID': map<string, nat>)
      requires Valid() && Indexes(byID, Peers())
      modifies this`slots, this`count, slots
      ensures Valid() && (slots == old(slots) || fresh(slots))
      ensures Peers() == PeerSet.Upsert(old(Peers()), p)
      ensures Indexes(byID', Peers())
    {
      ghost var before := Peers();
      if p.id in byID {
        var i := byID[p.id];
        slots[i] := p;
        byID' := byID;
        assert Peers() == before[i := p];
        IndexSet(byID, before, i, p);
      } else {
        Append(p);
        byID' := byID[p.id := count - 1];
        IndexSnoc(byID, before, p);
      }
    }

    /** Drop the listed ids, moving the peers that stay down over the gaps. */
    method Compact(remove: seq<string>)
      requires Valid()
      modifies this`count, slots
      ensures Valid() && Peers() == Drop(old(Peers()), remove)
    {
      var drop := set id | id in remove;
      var kept := 0;
      ghost var before := Peers();
      for i := 0 to count
        invariant kept <= i && count == |before|
        invariant slots[..kept] == Drop(before[..i], remove)
        invariant slots[i..count] == before[i..]
      {
        assert before[..i + 1][..i] == before[..i];
        var p := slots[i];
        assert p == slots[i..count][0] && p == before[i];
        if p.id !in drop {
          slots[kept] := p;
          kept := kept + 1;
          assert slots[..kept] == Drop(before[..i], remove) + [p];
        }
        assert slots[i + 1..count] == before[i + 1..];
      }
      assert before[..count] == before;
      count := kept;
    }

    /** Fold a heartbeat's delta into the cached list. */
    method ApplyDelta(add: seq<Peer>, remove: seq<string>)
      requires Valid()
      modifies this`slots, this`count, slots
      ensures Valid() && (slots == old(slots) || fresh(slots))
      ensures Peers() == PeerSet.ApplyDelta(old(Peers()), add, remove)
    {
      hide PeerSet.Upsert, Indexes;
      var byID := Index();
      for k := 0 to |add|
        invariant Valid() && (slots == old(slots) || fresh(slots))
        invariant Peers() == Upserts(old(Peers()), add[..k])
        invariant Indexes(byID, Peers())
      {
        assert add[..k + 1][..k] == add[..k];
        byID := Upsert(add[k], byID);
      }
      assert add[..|add|] == add;
      if |remove| > 0 {
        Compact(remove);
      } else {
        FilterAll(Peers(), (p: Peer) => p.id !in remove);
      }
    }

    // --- what a reply changes ---

    /** A delivered heartbeat: the delta, and whatever address and range it carries. */
    method TakeBeat(resp: HeartbeatResponse)
      requires Valid()
      modifies this, slots
      ensures Valid() && (slots == old(slots) || fresh(slots))
      ensures Peers() == PeerSet.ApplyDelta(old(Peers()), resp.add, resp.remove)
      ensures address == if resp.address != "" then resp.address else old(address)
      ensures ipRange == if resp.ipRange != "" then resp.ipRange else old(ipRange)
      ensures internalURL == resp.controlURL
      ensures publicKey == old(publicKey) && publicEndpoint == old(publicEndpoint) && listenPort == old(listenPort)
      ensures id == old(id) && name == old(name) && endpointOverrides == old(endpointOverrides)
      ensures privateKey == old(privateKey) && keepalive == old(keepalive)
    {
      ApplyDelta(resp.add, resp.remove);
      if resp.address != "" {
        address := resp.address;
      }
      if resp.ipRange != "" {
        ipRange := resp.ipRange;
      }
      internalURL := resp.controlURL;
    }

    /** A delivered registration: the whole peer set. */
    method TakeRegistration(resp: RegisterResponse)
      requires Valid()
      modifies this
      ensures Valid() && fresh(slots)
      ensures Peers() == resp.peers
      ensures id == resp.id && name == resp.name && address == resp.address && ipRange == resp.ipRange
      ensures internalURL == resp.controlURL && publicKey == old(publicKey) && privateKey == old(privateKey)
    {
      id, name, address, ipRange, internalURL := resp.id, resp.name, resp.address, resp.ipRange, resp.controlURL;
      slots, count := new Peer[|resp.peers|](i requires 0 <= i < |resp.peers| => resp.peers[i]), 0;
      for i := 0 to |resp.peers|
        invariant count == i && slots.Length == |resp.peers| && fresh(slots)
        invariant slots[..i] == resp.peers[..i]
        invariant id == resp.id && name == resp.name && address == resp.address && ipRange == resp.ipRange
        invariant internalURL == resp.controlURL && publicKey == old(publicKey) && privateKey == old(privateKey)
      {
        slots[i] := resp.peers[i];
        count := count + 1;
      }
    }

    // --- the interface ---

    function EffectiveKeepalive(): (k: int)
      reads this
      ensures k > 0 && (keepalive > 0 ==> k == keepalive) && (keepalive <= 0 ==> k == 25)
    {
      if keepalive > 0 then keepalive else DEFAULT_KEEPALIVE
    }

    method DesiredInterface() returns (i: R.Interface)
      requires Valid()
      ensures i == R.Interface(privateKey, listenPort, i.address,
                               WgPeers(Peers(), endpointOverrides, EffectiveKeepalive()))
      ensures var range := ParsePrefix(ipRange);
              i.address == address + "/" + Itoa(if range.Some? then range.value.bits else 32)
    {
      hide ResolveEndpoint;
      var bits := 32;
      if ipRange != "" {
        var range := ParsePrefix(ipRange);
        if range.Some? {
          bits := range.value.bits;
        }
      }
      assert ipRange == "" ==> ParsePrefix(ipRange).None?;
      var peers: seq<R.WgPeer> := [];
      for k := 0 to count
        invariant peers == WgPeers(slots[..k], endpointOverrides, EffectiveKeepalive())
      {
        var p := slots[k];
        assert slots[..k + 1] == slots[..k] + [p];
        peers := peers + [R.WgPeer(p.publicKey, ResolveEndpoint(endpointOverrides, p), [p.allowedIPs],
            EffectiveKeepalive())];
      }
      i := R.Interface(privateKey, listenPort, address + "/" + Itoa(bits), peers);
    }
  }

  // --- positions by id ---

  /** A map holds, for exactly the ids of a list, the last position of each. */
  ghost predicate Indexes(byID: map<string, nat>, ps: seq<Peer>) {
    forall id :: (id in byID <==> LastWithID(ps, id) >= 0) && (id in byID ==> byID[id] == LastWithID(ps, id))
  }

  lemma LastSnoc(ps: seq<Peer>, p: Peer, id: string)
    ensures LastWithID(ps + [p], id) == if id == p.id then |ps| else LastWithID(ps, id)
  {
    assert (ps + [p])[..|ps|] == ps;
  }

  lemma IndexSnoc(byID: map<string, nat>, ps: seq<Peer>, p: Peer)
    requires Indexes(byID, ps)
    ensures Indexes(byID[p.id := |ps|], ps + [p])
  {
    hide LastWithID;
    forall id { LastSnoc(ps, p, id); }
  }

  lemma LastIs(ps: seq<Peer>, id: string, i: int)
    requires -1 <= i < |ps| && (i >= 0 ==> ps[i].id == id) && forall k :: i < k < |ps| ==> ps[k].id != id
    ensures LastWithID(ps, id) == i
  {
  }

  /** Overwriting a peer by one of the same id moves nothing. */
  lemma IndexSet(byID: map<string, nat>, ps: seq<Peer>, i: nat, p: Peer)
    requires Indexes(byID, ps) && i < |ps| && ps[i].id == p.id
    ensures Indexes(byID, ps[i := p])
  {
    hide LastWithID;
    forall id ensures LastWithID(ps[i := p], id) == LastWithID(ps, id) {
      LastIs(ps[i := p], id, LastWithID(ps, id));
    }
  }

  // --- what is programmed ---

  /** What a validated zone-free override makes of a peer's endpoint: nothing for the "none" form, itself
      when it has a port, and otherwise its host with the advertised port. */
  predicate Follows(ov: string, advertised: string, endpoint: string) {
    && (ov == "-" ==> endpoint == "")
    && (ov != "-" && SplitHostPort(ov).Ok? ==> endpoint == ov)
    && (ov != "-" && SplitHostPort(ov).Err? ==>
          SplitHostPort(endpoint) == Ok((ov, Itoa(AdvertisedPort(advertised)))))
  }

  /** Every cached peer is programmed, in order, with its key, its allowed addresses and the keepalive. Its
      endpoint follows the override set for its id, else the one set for its name, and else is the one
      advertised; only a peer's own id or name can pin it. */
  lemma PeersProgrammed(peers: seq<Peer>, overrides: map<string, string>, keepalive: int, k: nat)
    requires k < |peers|
    requires forall key :: key in overrides ==> EndpointOverride(overrides[key]) && !Zoned(overrides[key])
    ensures |WgPeers(peers, overrides, keepalive)| == |peers|
    ensures var p, w := peers[k], WgPeers(peers, overrides, keepalive)[k];
            && w.publicKey == p.publicKey && w.allowedIPs == [p.allowedIPs] && w.keepalive == keepalive
            && (p.id in overrides ==> Follows(overrides[p.id], p.endpoint, w.endpoint))
            && (p.id !in overrides && p.name in overrides ==> Follows(overrides[p.name], p.endpoint, w.endpoint))
            && (p.id !in overrides && p.name !in overrides ==> w.endpoint == p.endpoint)
  {
    var p := peers[k];
    var key := if p.id in overrides then p.id else p.name;
    if key in overrides {
      OverrideResolves(overrides, p, overrides[key]);
    }
    hide EndpointOverride, SplitHostPort, AdvertisedPort;
  }
}
