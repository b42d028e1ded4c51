/** The code that edits the registry: records updated in place, found by loops and linked from a list.
    Every method is tied to the function of module Mesh that says what it does to the registry's
    value, so that all that is proved about those functions holds of this code. */
module Coordinator {
  import opened Base
  import opened IpAlloc
  import opened Mesh
  import opened Routes
  import opened Valid

  /** One named client as the hub stores it. */
  class ClientRecord {
    var id: string
    var name: string
    var tokenHash: Digest
    var address: string
    var publicKey: string
    var endpoint: string
    var listenPort: int
    var blacklisted: bool
    var createdAt: Stamp
    var lastSeenAt: Stamp
    var updatedAt: Stamp
    var routes: seq<string>
    var have: seq<string>

    constructor (id: string, name: string, tokenHash: Digest, address: string, routes: seq<string>, createdAt: Stamp)
      ensures Value() == Client(id, name, tokenHash, address, "", "", 0, false, createdAt, Unset, Unset, routes, [])
    {
      this.id, this.name, this.tokenHash, this.address := id, name, tokenHash, address;
      publicKey, endpoint, listenPort, blacklisted := "", "", 0, false;
      this.createdAt, lastSeenAt, updatedAt := createdAt, Unset, Unset;
      this.routes, have := routes, [];
    }

    /** The record brought up to date by its owner's beat. */
    method Beat(clientPort: int, ghost reg: Registry, req: HeartbeatRequest, now: nat) returns (prevSeen: Stamp)
      requires reg.clientWGPort == clientPort
      modifies this
      ensures prevSeen == old(lastSeenAt)
      ensures Value() == BeatSelf(reg, old(Value()), req, now)
    {
      hide ValidKey, EndpointFrom;
      prevSeen := lastSeenAt;
      if req.publicKey != "" && ValidKey(req.publicKey) {
        publicKey := req.publicKey;
      }
      listenPort := PickPort(PickPort(req.listenPort, listenPort), clientPort);
      if req.publicEndpoint != "" {
        var ep := EndpointFrom(req.publicEndpoint, listenPort);
        if ep != endpoint {
          endpoint := ep;
          updatedAt := At(now);
        }
      }
      have := req.have;
      lastSeenAt := At(now);
    }

    /** The record brought up to date by its owner's registration. */
    method Join(clientPort: int, ghost reg: Registry, req: RegisterRequest, now: nat)
      requires reg.clientWGPort == clientPort
      modifies this
      ensures Value() == JoinSelf(reg, old(Value()), req, now)
    {
      hide EndpointFrom;
      if req.requestedAddress != "" && req.requestedAddress != address {
        address := req.requestedAddress;
      }
      publicKey := req.publicKey;
      listenPort := PickPort(req.listenPort, clientPort);
      endpoint := EndpointFrom(req.publicEndpoint, listenPort);
      updatedAt := At(now);
      lastSeenAt := updatedAt;
    }

    function Value(): Client
      reads this
    {
      Client(id, name, tokenHash, address, publicKey, endpoint, listenPort, blacklisted,
             createdAt, lastSeenAt, updatedAt, routes, have)
    }
  }

  function Values(cs: seq<ClientRecord>): (vs: seq<Client>)
    reads cs
    ensures |vs| == |cs| && forall i :: 0 <= i < |cs| ==> vs[i] == cs[i].Value()
  {
    if cs == [] then [] else Values(cs[..|cs| - 1]) + [cs[|cs| - 1].Value()]
  }

  /** The error or the reply of an outcome. */
  function Reported(out: Outcome): Result<Reply, Error> {
    match out
    case Applied(_, reply) => Ok(reply)
    case Refused(e) => Err(e)
  }

  /** The registry after an outcome. */
  function Stored(reg: Registry, out: Outcome): Registry {
    match out
    case Applied(reg', _) => reg'
    case Refused(_) => reg
  }

  // --- on values ---

  /** Canonicalise, dropping duplicates while keeping the order of first appearance. */
  method Canonicalise(cidrs: seq<string>) returns (r: Result<seq<string>, Error>)
    ensures r == CanonRoutes(cidrs)
  {
    hide CIDR;
    var seen: set<string> := {};
    var out: seq<string> := [];
    for i := 0 to |cidrs|
      invariant CanonRoutes(cidrs[..i]) == Ok(out)
      invariant seen == set x | x in out
    {
      assert cidrs[..i + 1][..i] == cidrs[..i];
      var canon := CIDR(cidrs[i]);
      if canon.Err? {
        RefusedEarly(cidrs, i + 1);
        return Err(canon.error);
      }
      if canon.value in seen {
        continue;
      }
      seen := seen + {canon.value};
      out := out + [canon.value];
    }
    assert cidrs[..|cidrs|] == cidrs;
    r := Ok(out);
  }

  /** The first entry that is not a route decides. */
  lemma {:induction false} RefusedEarly(cidrs: seq<string>, n: nat)
    requires n <= |cidrs| && CanonRoutes(cidrs[..n]).Err?
    ensures CanonRoutes(cidrs) == CanonRoutes(cidrs[..n])
    decreases |cidrs|
  {
    if n == |cidrs| {
      assert cidrs[..n] == cidrs;
    } else {
      var front := cidrs[..|cidrs| - 1];
      assert front[..n] == cidrs[..n];
      RefusedEarly(front, n);
    }
  }

  // --- the configuration of the hub ---

  class CoordinatorConfig {
    var controlPort: int
    var listenPort: int
    var publicEndpoint: string
    var ipRange: string
    var address: string
    var clientWGPort: int
    var publicKey: string
    var tls: bool
    var routes: seq<string>
    var updatedAt: Stamp
    var clients: seq<ClientRecord>

    /** No record is linked twice. */
    ghost predicate Valid()
      reads this
    {
      forall i, j :: 0 <= i < j < |clients| ==> clients[i] != clients[j]
    }

    function View(): Registry
      reads this, clients
    {
      Registry(controlPort, listenPort, publicEndpoint, ipRange, address, clientWGPort, publicKey, tls,
               routes, updatedAt, Values(clients))
    }

    // --- looking things up ---

    method FindByName(name: string) returns (c: ClientRecord?, ghost i: nat)
      ensures i == IndexByName(View().clients, name)
      ensures if i < |clients| then c == clients[i] else c == null
    {
      hide Values;
      for k := 0 to |clients|
        invariant forall j :: 0 <= j < k ==> clients[j].name != name
      {
        if clients[k].name == name {
          FirstNamed(Values(clients), name, k);
          return clients[k], k;
        }
      }
      FirstNamed(Values(clients), name, |clients|);
      return null, |clients|;
    }

    method FindByID(id: string) returns (c: ClientRecord?, ghost i: nat)
      ensures i == IndexByID(View().clients, id)
      ensures if i < |clients| then c == clients[i] else c == null
    {
      hide Values;
      for k := 0 to |clients|
        invariant forall j :: 0 <= j < k ==> clients[j].id != id
      {
        if clients[k].id == id {
          FirstWithID(Values(clients), id, k);
          return clients[k], k;
        }
      }
      FirstWithID(Values(clients), id, |clients|);
      return null, |clients|;
    }

    method Used() returns (used: seq<string>)
      ensures used == UsedAddrs(View())
    {
      hide Values;
      used := [];
      if address != "" {
        used := used + [address];
      }
      ghost var hub := used;
      ghost var cs := Values(clients);
      for k := 0 to |clients|
        invariant used == hub + ClientAddrs(cs[..k])
      {
        assert cs[..k + 1][..k] == cs[..k];
        if clients[k].address != "" {
          used := used + [clients[k].address];
        }
      }
      assert cs[..|clients|] == cs;
    }

    method CheckFree(addr: string, exceptID: string) returns (refusal: Option<Error>)
      ensures refusal == CheckAddrFree(View(), addr, exceptID)
    {
      hide Values, Usable;
      var ok := Usable(ipRange, addr);
      if ok.Err? {
        return Some(ok.error);
      }
      if !ok.value {
        return Some(NotUsable(addr));
      }
      if addr == address {
        return Some(HubAddress(addr));
      }
      for k := 0 to |clients|
        invariant forall j :: 0 <= j < k ==> !(clients[j].id != exceptID && clients[j].address == addr)
      {
        if clients[k].id != exceptID && clients[k].address == addr {
          FirstAt(Values(clients), addr, exceptID, k);
          return Some(AddressTaken(addr, clients[k].name));
        }
      }
      FirstAt(Values(clients), addr, exceptID, |clients|);
      return None;
    }

    // --- administration ---

    method AddClient(name: string, addr: string, cidrs: seq<string>, id: string, token: string, now: nat)
      returns (r: Result<Reply, Error>)
      requires Valid()
      modifies this`clients
      ensures Valid()
      ensures r == Reported(Mesh.AddClient(old(View()), name, addr, cidrs, id, token, now))
      ensures View() == Stored(old(View()), Mesh.AddClient(old(View()), name, addr, cidrs, id, token, now))
    {
      hide Values, CanonRoutes, CheckAddrFree, NextFreeText, UsedAddrs, TrimSpace, IndexByName;
      var name := TrimSpace(name);
      if name == "" {
        return Err(NameRequired);
      }
      var canon := Canonicalise(cidrs);
      if canon.Err? {
        return Err(canon.error);
      }
      var clash, _ := FindByName(name);
      if clash != null {
        return Err(NameTaken(name));
      }
      var free := TrimSpace(addr);
      if free == "" {
        var used := Used();
        var found := NextFree(ipRange, used);
        if found.Err? {
          return Err(found.error);
        }
        free := found.value;
      } else {
        var refusal := CheckFree(free, "");
        if refusal.Some? {
          return Err(refusal.value);
        }
      }
      var c := new ClientRecord(id, name, Digest(token), free, canon.value, At(now));
      clients := clients + [c];
      assert Values(clients) == old(Values(clients)) + [c.Value()];
      r := Ok(Created(c.Value()));
    }

    method RemoveClient(name: string) returns (r: Result<Reply, Error>)
      requires Valid()
      modifies this`clients
      ensures Valid()
      ensures r == Reported(Mesh.RemoveClient(old(View()), name))
      ensures View() == Stored(old(View()), Mesh.RemoveClient(old(View()), name))
    {
      hide Values;
      for i := 0 to |clients|
        invariant clients == old(clients)
        invariant forall j :: 0 <= j < i ==> clients[j].name != name
      {
        if clients[i].name == name {
          FirstNamed(Values(clients), name, i);
          clients := clients[..i] + clients[i + 1..];
          assert Values(clients) == old(Values(clients))[..i] + old(Values(clients))[i + 1..];
          return Ok(Done);
        }
      }
      FirstNamed(Values(clients), name, |clients|);
      return Err(NoSuchClient(name));
    }

    method RenameClient(oldName: string, newName: string, now: nat) returns (r: Result<Reply, Error>)
      requires Valid()
      modifies clients
      ensures Valid()
      ensures r == Reported(Mesh.RenameClient(old(View()), oldName, newName, now))
      ensures View() == Stored(old(View()), Mesh.RenameClient(old(View()), oldName, newName, now))
    {
      hide Values, TrimSpace, IndexByName, SetClient;
      var wanted := TrimSpace(newName);
      if wanted == "" {
        return Err(NameRequired);
      }
      var clash, _ := FindByName(wanted);
      if clash != null {
        return Err(NameTaken(wanted));
      }
      var c, i := FindByName(oldName);
      if c == null {
        return Err(NoSuchClient(oldName));
      }
      c.name, c.updatedAt := wanted, At(now);
      OneChanged(this, old(View()), i);
      r := Ok(Done);
    }

    method RegenToken(name: string, token: string, now: nat) returns (r: Result<Reply, Error>)
      requires Valid()
      modifies clients
      ensures Valid()
      ensures r == Reported(Mesh.RegenToken(old(View()), name, token, now))
      ensures View() == Stored(old(View()), Mesh.RegenToken(old(View()), name, token, now))
    {
      hide Values;
      var c, i := FindByName(name);
      if c == null {
        return Err(NoSuchClient(name));
      }
      c.tokenHash := Digest(token);
      c.updatedAt := At(now);
      OneChanged(this, old(View()), i);
      r := Ok(Done);
    }

    method SetBlacklist(name: string, blacklisted: bool, now: nat) returns (r: Result<Reply, Error>)
      requires Valid()
      modifies clients
      ensures Valid()
      ensures r == Reported(Mesh.SetBlacklist(old(View()), name, blacklisted, now))
      ensures View() == Stored(old(View()), Mesh.SetBlacklist(old(View()), name, blacklisted, now))
    {
      hide Values;
      var c, i := FindByName(name);
      if c == null {
        return Err(NoSuchClient(name));
      }
      c.blacklisted := blacklisted;
      c.updatedAt := At(now);
      OneChanged(this, old(View()), i);
      r := Ok(Done);
    }

    // --- routes ---

    /** The node's record, or null for the hub; nothing when there is no such client. */
    method RoutesTarget(node: string) returns (found: bool, c: ClientRecord?)
      ensures found <==> RoutesOf(View(), node).Some?
      ensures found ==> (c == null <==> IsHub(node))
      ensures c != null ==> var i := IndexByName(View().clients, node); i < |clients| && c == clients[i]
      ensures found ==> RoutesOf(View(), node) == Some(if c == null then routes else c.routes)
    {
      hide Values, IndexByName;
      if IsHub(node) {
        return true, null;
      }
      var found_, _ := FindByName(node);
      return found_ != null, found_;
    }

    /** The node's list replaced, and its update time set when something changed. */
    method SetTarget(node: string, c: ClientRecord?, list: seq<string>, changed: bool, now: nat)
      requires Valid() && RoutesOf(View(), node).Some? && (c == null <==> IsHub(node))
      requires c != null ==> var i := IndexByName(View().clients, node); i < |clients| && c == clients[i]
      modifies this`routes, this`updatedAt, c
      ensures Valid()
      ensures View() == SetRoutes(old(View()), node, list, changed, now)
    {
      hide Values, IndexByName;
      ghost var i := IndexByName(View().clients, node);
      if c == null {
        routes := list;
        if changed {
          updatedAt := At(now);
        }
        assert Values(clients) == old(Values(clients));
      } else {
        c.routes := list;
        if changed {
          c.updatedAt := At(now);
        }
        OneChanged(this, old(View()), i);
      }
    }

    method AddRoutes(node: string, cidrs: seq<string>, now: nat) returns (r: Result<Reply, Error>)
      requires Valid()
      modifies this, clients
      ensures Valid()
      ensures r == Reported(Mesh.AddRoutes(old(View()), node, cidrs, now))
      ensures View() == Stored(old(View()), Mesh.AddRoutes(old(View()), node, cidrs, now))
    {
      hide Values, IndexByName, CanonRoutes, SetRoutes, RoutesOf;
      var canon := Canonicalise(cidrs);
      if canon.Err? {
        return Err(canon.error);
      }
      if canon.value == [] {
        return Err(NoRoutes);
      }
      var found, c := RoutesTarget(node);
      if !found {
        return Err(NoSuchClient(node));
      }
      var before := if c == null then routes else c.routes;
      CanonRoutesAre(cidrs);
      var added := Absent(canon.value, before);
      SetTarget(node, c, before + added, added != [], now);
      r := Ok(Routed(added));
    }

    method RemoveRoutes(node: string, cidrs: seq<string>, now: nat) returns (r: Result<Reply, Error>)
      requires Valid()
      modifies this, clients
      ensures Valid()
      ensures r == Reported(Mesh.RemoveRoutes(old(View()), node, cidrs, now))
      ensures View() == Stored(old(View()), Mesh.RemoveRoutes(old(View()), node, cidrs, now))
    {
      hide Values, IndexByName, CanonRoutes, SetRoutes, RoutesOf;
      var canon := Canonicalise(cidrs);
      if canon.Err? {
        return Err(canon.error);
      }
      if canon.value == [] {
        return Err(NoRoutes);
      }
      var found, c := RoutesTarget(node);
      if !found {
        return Err(NoSuchClient(node));
      }
      var kept, removed := Partition(if c == null then routes else c.routes, canon.value);
      SetTarget(node, c, kept, removed != [], now);
      r := Ok(Routed(removed));
    }

    // --- the two client endpoints ---

    method BuildPeers(selfID: string) returns (peers: seq<Peer>)
      ensures peers == Mesh.BuildPeers(View(), selfID)
    {
      hide Values, AllowedIPs, JoinHostPort, Join, Itoa;
      peers := [];
      if publicKey != "" {
        var endpoint := "";
        if publicEndpoint != "" {
          endpoint := JoinHostPort(publicEndpoint, Itoa(listenPort));
        }
        peers := peers + [Peer(HUB_ID, "coordinator", publicKey, endpoint, Join(AllowedIPs(address, routes), ", "))];
      }
      ghost var hub, cs := peers, Values(clients);
      for k := 0 to |clients|
        invariant peers == hub + ClientPeers(cs[..k], selfID)
      {
        assert cs[..k + 1][..k] == cs[..k];
        var c := clients[k];
        assert cs[k] == c.Value();
        if c.id == selfID || c.blacklisted || c.publicKey == "" {
          continue;
        }
        peers := peers + [Peer(c.id, c.name, c.publicKey, c.endpoint, Join(AllowedIPs(c.address, c.routes), ", "))];
      }
      assert cs[..|clients|] == cs;
    }

    method Enroll(self: ClientRecord, ghost i: nat, req: RegisterRequest, now: nat)
      requires Valid() && i < |clients| && clients[i] == self
      modifies self
      ensures Valid()
      ensures self.Value() == JoinSelf(old(View()), old(self.Value()), req, now)
      ensures View() == SetClient(old(View()), i, self.Value())
    {
      hide Values, JoinSelf, SetClient;
      self.Join(clientWGPort, View(), req, now);
      OneChanged(this, old(View()), i);
    }

    method RegisterReply(self: ClientRecord) returns (r: RegisterResponse)
      ensures r == RegisterResponse(self.id, self.name, self.address, ipRange, InternalControlURL(View()),
                                    Mesh.BuildPeers(View(), self.id))
    {
      hide Values, InternalControlURL, Mesh.BuildPeers;
      var peers := BuildPeers(self.id);
      r := RegisterResponse(self.id, self.name, self.address, ipRange, ControlURL(), peers);
    }

    method HandleRegister(clientID: string, req: RegisterRequest, now: nat) returns (r: Result<Reply, Error>)
      requires Valid()
      modifies clients
      ensures Valid()
      ensures r == Reported(Register(old(View()), clientID, req, now))
      ensures View() == Stored(old(View()), Register(old(View()), clientID, req, now))
    {
      hide Values, IndexByID, ValidKey, ValidHostOrEmpty, CheckAddrFree, JoinSelf, Mesh.BuildPeers, InternalControlURL;
      if !ValidKey(req.publicKey) {
        return Err(BadKey);
      }
      if !ValidHostOrEmpty(req.publicEndpoint) {
        return Err(BadHost);
      }
      var self, i := FindByID(clientID);
      if self == null {
        return Err(ClientGone);
      }
      if req.requestedAddress != "" && req.requestedAddress != self.address {
        var conflict := CheckFree(req.requestedAddress, self.id);
        if conflict.Some? {
          return Err(conflict.value);
        }
      }
      Enroll(self, i, req, now);
      var reply := RegisterReply(self);
      SameURL(old(View()), i, self.Value());
      r := Ok(Registered(reply));
    }

    function ControlURL(): (url: string)
      reads this, clients
      ensures url == InternalControlURL(View())
    {
      if address == "" || controlPort <= 0 then ""
      else (if tls then "https" else "http") + "://" + JoinHostPort(address, Itoa(controlPort))
    }

    method Refresh(self: ClientRecord, ghost i: nat, req: HeartbeatRequest, now: nat) returns (prevSeen: Stamp)
      requires Valid() && i < |clients| && clients[i] == self
      modifies self
      ensures Valid() && prevSeen == old(self.lastSeenAt)
      ensures self.Value() == BeatSelf(old(View()), old(self.Value()), req, now)
      ensures View() == SetClient(old(View()), i, self.Value())
    {
      hide Values, BeatSelf, SetClient;
      prevSeen := self.Beat(clientWGPort, View(), req, now);
      OneChanged(this, old(View()), i);
    }

    method UpdateTimeOf(id: string) returns (s: Stamp)
      ensures s == StampOf(View(), id)
    {
      hide Values, IndexByID;
      if id == HUB_ID {
        return updatedAt;
      }
      var c, _ := FindByID(id);
      s := if c != null then c.updatedAt else Unset;
    }

    /** What the caller lacks or holds outdated, and the ids that are advertised. */
    method Delta(peers: seq<Peer>, held: seq<string>, prevSeen: Stamp) returns (add: seq<Peer>, present: set<string>)
      ensures add == Missing(View(), peers, held, prevSeen)
      ensures present == {HUB_ID} + set id | id in PeerIDs(peers)
    {
      hide View, StampOf;
      var have := set id | id in held;
      add, present := [], {HUB_ID};
      for k := 0 to |peers|
        invariant add == Missing(View(), peers[..k], held, prevSeen)
        invariant present == {HUB_ID} + set id | id in PeerIDs(peers[..k])
      {
        var p := peers[k];
        assert peers[..k + 1][..k] == peers[..k];
        assert PeerIDs(peers[..k + 1]) == PeerIDs(peers[..k]) + [p.id];
        present := present + {p.id};
        var updated := UpdateTimeOf(p.id);
        var changed := Newer(updated, prevSeen);
        if p.id !in have || changed {
          add := add + [p];
        }
      }
      assert peers[..|peers|] == peers;
    }

    method BeatReply(self: ClientRecord, held: seq<string>, prevSeen: Stamp) returns (r: HeartbeatResponse)
      ensures var peers := Mesh.BuildPeers(View(), self.id);
              r == HeartbeatResponse(self.address, ipRange, InternalControlURL(View()),
                                     Missing(View(), peers, held, prevSeen), Gone(peers, held))
    {
      hide Values, InternalControlURL, Mesh.BuildPeers, Missing, Gone, PeerIDs;
      var peers := BuildPeers(self.id);
      var add, present := Delta(peers, held, prevSeen);
      var remove := Dropped(held, present, peers);
      r := HeartbeatResponse(self.address, ipRange, ControlURL(), add, remove);
    }

    method HandleHeartbeat(clientID: string, req: HeartbeatRequest, now: nat) returns (r: Result<Reply, Error>)
      requires Valid()
      modifies clients
      ensures Valid()
      ensures r == Reported(Heartbeat(old(View()), clientID, req, now))
      ensures View() == Stored(old(View()), Heartbeat(old(View()), clientID, req, now))
    {
      hide Values, IndexByID, ValidHostOrEmpty, Mesh.BuildPeers, InternalControlURL, Missing, Gone, PeerIDs, BeatSelf;
      if !ValidHostOrEmpty(req.publicEndpoint) {
        return Err(BadHost);
      }
      var self, i := FindByID(clientID);
      if self == null {
        return Err(ClientGone);
      }
      var prevSeen := Refresh(self, i, req, now);
      var reply := BeatReply(self, req.have, prevSeen);
      SameURL(old(View()), i, self.Value());
      r := Ok(Beaten(reply));
    }
  }

  lemma SameURL(reg: Registry, i: nat, c: Client)
    requires i < |reg.clients|
    ensures InternalControlURL(SetClient(reg, i, c)) == InternalControlURL(reg)
  {
  }

  /** Reported ids that are not advertised. */
  method Dropped(held: seq<string>, present: set<string>, ghost peers: seq<Peer>) returns (remove: seq<string>)
    requires present == {HUB_ID} + set id | id in PeerIDs(peers)
    ensures remove == Gone(peers, held)
  {
    hide PeerIDs;
    remove := [];
    for k := 0 to |held|
      invariant remove == Gone(peers, held[..k])
    {
      assert held[..k + 1][..k] == held[..k];
      var id := held[k];
      if id != HUB_ID && id !in present {
        remove := remove + [id];
      }
    }
    assert held[..|held|] == held;
  }

  /** The canonical routes a list does not have yet, in order. */
  method Absent(canon: seq<string>, target: seq<string>) returns (added: seq<string>)
    requires Distinct(canon)
    ensures added == Filter(canon, r => r !in target)
  {
    var have := set r | r in target;
    added := [];
    for k := 0 to |canon|
      invariant added == Filter(canon[..k], r => r !in target)
      invariant have == (set r | r in target) + (set r | r in added)
      invariant forall r :: r in added ==> r in canon[..k]
    {
      var r := canon[k];
      assert canon[..k + 1][..k] == canon[..k];
      assert r !in canon[..k];
      if r in have {
        continue;
      }
      have := have + {r};
      added := added + [r];
    }
    assert canon[..|canon|] == canon;
  }

  /** The routes that stay and the ones that go, each in order. */
  method Partition(target: seq<string>, canon: seq<string>) returns (kept: seq<string>, removed: seq<string>)
    ensures kept == Filter(target, r => r !in canon)
    ensures removed == Filter(target, r => r in canon)
  {
    var drop := set r | r in canon;
    kept, removed := [], [];
    for k := 0 to |target|
      invariant kept == Filter(target[..k], r => r !in canon)
      invariant removed == Filter(target[..k], r => r in canon)
    {
      assert target[..k + 1][..k] == target[..k];
      if target[k] in drop {
        removed := removed + [target[k]];
        continue;
      }
      kept := kept + [target[k]];
    }
    assert target[..|target|] == target;
  }

  /** Editing one record changes that record of the registry and nothing else. */
  lemma OneChanged(cc: CoordinatorConfig, before: Registry, i: nat)
    requires i < |cc.clients| == |before.clients|
    requires cc.View().(clients := before.clients) == before
    requires forall k :: 0 <= k < |cc.clients| && k != i ==> cc.clients[k].Value() == before.clients[k]
    ensures cc.View() == SetClient(before, i, cc.clients[i].Value())
  {
    assert Values(cc.clients) == before.clients[i := cc.clients[i].Value()];
  }

  lemma FirstNamed(cs: seq<Client>, name: string, i: nat)
    requires i <= |cs| && forall j :: 0 <= j < i ==> cs[j].name != name
    requires i < |cs| ==> cs[i].name == name
    ensures IndexByName(cs, name) == i
  {
  }

  lemma FirstWithID(cs: seq<Client>, id: string, i: nat)
    requires i <= |cs| && forall j :: 0 <= j < i ==> cs[j].id != id
    requires i < |cs| ==> cs[i].id == id
    ensures IndexByID(cs, id) == i
  {
  }

  lemma FirstAt(cs: seq<Client>, addr: string, exceptID: string, i: nat)
    requires i <= |cs| && forall j :: 0 <= j < i ==> !(cs[j].id != exceptID && cs[j].address == addr)
    requires i < |cs| ==> cs[i].id != exceptID && cs[i].address == addr
    ensures IndexByAddr(cs, addr, exceptID) == i
  {
  }
}
