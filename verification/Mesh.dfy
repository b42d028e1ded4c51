/** The registry of the mesh: its records, the peer sets it advertises, and what every
    operation of the control plane does to it. The operations are given as functions from
    a registry to the outcome; module Coordinator has the code that edits it in place. */
module Mesh {
  import opened Base
  import opened IpAlloc
  import opened Netip
  import opened Valid

  // --- records ---

  /** A recorded time to the second; `Unset` is the empty text. */
  datatype Stamp = Unset | At(second: nat)

  /** The comparison of two recorded times that decides what a heartbeat re-sends. */
  predicate Newer(updated: Stamp, seen: Stamp) {
    updated.At? && seen.At? && updated.second > seen.second
  }

  predicate NotAfter(s: Stamp, now: nat) {
    s.At? ==> s.second <= now
  }

  /** A token's stored hash. Hashing is taken to be injective. */
  datatype Digest = Digest(token: string)

  datatype Client = Client(
    id: string, name: string, tokenHash: Digest, address: string, publicKey: string,
    endpoint: string, listenPort: int, blacklisted: bool,
    createdAt: Stamp, lastSeenAt: Stamp, updatedAt: Stamp, routes: seq<string>, have: seq<string>)

  datatype Registry = Registry(
    controlPort: int, listenPort: int, publicEndpoint: string, ipRange: string, address: string,
    clientWGPort: int, publicKey: string, tls: bool,
    routes: seq<string>, updatedAt: Stamp, clients: seq<Client>)

  /** One mesh member as advertised to a client and as cached on it. */
  datatype Peer = Peer(id: string, name: string, publicKey: string, endpoint: string, allowedIPs: string)

  const HUB_ID: string := "coordinator"

  // --- lookups ---

  /** Position of the first client with this id, or the length. */
  function IndexByID(cs: seq<Client>, id: string): (i: nat)
    ensures i <= |cs|
    ensures i < |cs| ==> cs[i].id == id
    ensures forall k :: 0 <= k < i ==> cs[k].id != id
  {
    if cs == [] || cs[0].id == id then 0 else 1 + IndexByID(cs[1..], id)
  }

  function IndexByName(cs: seq<Client>, name: string): (i: nat)
    ensures i <= |cs|
    ensures i < |cs| ==> cs[i].name == name
    ensures forall k :: 0 <= k < i ==> cs[k].name != name
  {
    if cs == [] || cs[0].name == name then 0 else 1 + IndexByName(cs[1..], name)
  }

  function FindByID(cs: seq<Client>, id: string): Option<Client> {
    var i := IndexByID(cs, id);
    if i < |cs| then Some(cs[i]) else None
  }

  // --- what is advertised ---

  function AllowedIPs(addr: string, routes: seq<string>): seq<string> {
    (if addr != "" then [addr + "/32"] else []) + routes
  }

  function HubPeer(reg: Registry): Peer {
    Peer(HUB_ID, "coordinator", reg.publicKey,
         if reg.publicEndpoint != "" then JoinHostPort(reg.publicEndpoint, Itoa(reg.listenPort)) else "",
         Join(AllowedIPs(reg.address, reg.routes), ", "))
  }

  /** Registered and not blacklisted. */
  predicate Active(c: Client) {
    !c.blacklisted && c.publicKey != ""
  }

  function PeerOf(c: Client): Peer {
    Peer(c.id, c.name, c.publicKey, c.endpoint, Join(AllowedIPs(c.address, c.routes), ", "))
  }

  function ClientPeers(cs: seq<Client>, selfID: string): seq<Peer> {
    if cs == [] then []
    else
      var c := cs[|cs| - 1];
      ClientPeers(cs[..|cs| - 1], selfID) + (if c.id == selfID || !Active(c) then [] else [PeerOf(c)])
  }

  /** The peer set advertised to a client: the hub plus every other active client. */
  function BuildPeers(reg: Registry, selfID: string): seq<Peer> {
    (if reg.publicKey != "" then [HubPeer(reg)] else []) + ClientPeers(reg.clients, selfID)
  }

  /** The control plane's address inside the mesh. */
  function InternalControlURL(reg: Registry): string {
    if reg.address == "" || reg.controlPort <= 0 then ""
    else (if reg.tls then "https" else "http") + "://" + JoinHostPort(reg.address, Itoa(reg.controlPort))
  }

  // --- requests and replies ---

  datatype RegisterRequest = RegisterRequest(
    publicKey: string, publicEndpoint: string, listenPort: int, requestedAddress: string)

  datatype HeartbeatRequest = HeartbeatRequest(
    have: seq<string>, publicKey: string, publicEndpoint: string, listenPort: int)

  datatype RegisterResponse = RegisterResponse(
    id: string, name: string, address: string, ipRange: string, controlURL: string, peers: seq<Peer>)

  datatype HeartbeatResponse = HeartbeatResponse(
    address: string, ipRange: string, controlURL: string, add: seq<Peer>, remove: seq<string>)

  datatype Reply =
    | Done
    | Created(client: Client)
    | Routed(routes: seq<string>)
    | Registered(registered: RegisterResponse)
    | Beaten(beaten: HeartbeatResponse)

  /** A function run by the store: a new registry and a reply, or a refusal that saves nothing. */
  datatype Outcome = Applied(reg: Registry, reply: Reply) | Refused(error: Error)

  // --- helpers of the operations ---

  /** Canonical routes without duplicates, in order of first appearance. */
  function CanonRoutes(cidrs: seq<string>): Result<seq<string>, Error> {
    if cidrs == [] then Ok([])
    else
      var front := CanonRoutes(cidrs[..|cidrs| - 1]);
      if front.Err? then front
      else
        match CIDR(cidrs[|cidrs| - 1])
        case Err(e) => Err(e)
        case Ok(r) => Ok(if r in front.value then front.value else front.value + [r])
  }

  function ClientAddrs(cs: seq<Client>): seq<string> {
    if cs == [] then []
    else
      ClientAddrs(cs[..|cs| - 1]) +
      (if cs[|cs| - 1].address != "" then [cs[|cs| - 1].address] else [])
  }

  /** Every address spoken for: the hub's and the clients'. */
  function UsedAddrs(reg: Registry): seq<string> {
    (if reg.address != "" then [reg.address] else []) + ClientAddrs(reg.clients)
  }

  /** First client other than `exceptID` holding this address, or the length. */
  function IndexByAddr(cs: seq<Client>, addr: string, exceptID: string): (i: nat)
    ensures i <= |cs|
    ensures i < |cs| ==> cs[i].id != exceptID && cs[i].address == addr
    ensures forall k :: 0 <= k < i ==> !(cs[k].id != exceptID && cs[k].address == addr)
  {
    if cs == [] || (cs[0].id != exceptID && cs[0].address == addr) then 0
    else 1 + IndexByAddr(cs[1..], addr, exceptID)
  }

  /** A refusal, or None when the address is a usable host claimed by nobody else. */
  function CheckAddrFree(reg: Registry, addr: string, exceptID: string): Option<Error> {
    match Usable(reg.ipRange, addr)
    case Err(e) => Some(e)
    case Ok(false) => Some(NotUsable(addr))
    case Ok(true) =>
      if addr == reg.address then Some(HubAddress(addr))
      else
        var i := IndexByAddr(reg.clients, addr, exceptID);
        if i < |reg.clients| then Some(AddressTaken(addr, reg.clients[i].name)) else None
  }

  predicate IsHub(node: string) {
    node == HUB_ID || node == "hub"
  }

  function PickPort(preferred: int, fallback: int): int {
    if preferred > 0 then preferred else fallback
  }

  function EndpointFrom(host: string, port: int): string {
    if TrimSpace(host) == "" then "" else JoinHostPort(host, Itoa(port))
  }

  predicate KeyChar(c: char) {
    IsDigit(c) || 'a' <= c <= 'z' || 'A' <= c <= 'Z' || c == '+' || c == '/'
  }

  /** Text that base64-decodes to 32 bytes; line breaks are skipped by the decoder. */
  predicate ValidKey(s: string) {
    var t := Filter(s, c => c != '\r' && c != '\n');
    |t| == 44 && t[43] == '=' && forall i :: 0 <= i < 43 ==> KeyChar(t[i])
  }

  predicate ValidHostOrEmpty(h: string) {
    h == "" || EndpointHost(h)
  }

  // --- administration ---

  function AddClient(reg: Registry, name: string, address: string, routes: seq<string>,
                     id: string, token: string, now: nat): Outcome {
    var name := TrimSpace(name);
    if name == "" then Refused(NameRequired)
    else
      match CanonRoutes(routes)
      case Err(e) => Refused(e)
      case Ok(canon) =>
        if IndexByName(reg.clients, name) < |reg.clients| then Refused(NameTaken(name))
        else
          match PickAddress(reg, TrimSpace(address))
          case Err(e) => Refused(e)
          case Ok(addr) =>
            var c := Client(id, name, Digest(token), addr, "", "", 0, false, At(now), Unset, Unset, canon, []);
            Applied(reg.(clients := reg.clients + [c]), Created(c))
  }

  /** The lowest free address when none is asked for; otherwise the one asked for, if free. */
  function PickAddress(reg: Registry, addr: string): Result<string, Error> {
    if addr == "" then NextFreeText(reg.ipRange, UsedAddrs(reg))
    else
      match CheckAddrFree(reg, addr, "")
      case Some(e) => Err(e)
      case None => Ok(addr)
  }

  function RemoveClient(reg: Registry, name: string): Outcome {
    var i := IndexByName(reg.clients, name);
    if i < |reg.clients| then Applied(reg.(clients := reg.clients[..i] + reg.clients[i + 1..]), Done)
    else Refused(NoSuchClient(name))
  }

  function RenameClient(reg: Registry, oldName: string, newName: string, now: nat): Outcome {
    var newName := TrimSpace(newName);
    if newName == "" then Refused(NameRequired)
    else if IndexByName(reg.clients, newName) < |reg.clients| then Refused(NameTaken(newName))
    else
      var i := IndexByName(reg.clients, oldName);
      if i == |reg.clients| then Refused(NoSuchClient(oldName))
      else Applied(SetClient(reg, i, reg.clients[i].(name := newName, updatedAt := At(now))), Done)
  }

  function SetClient(reg: Registry, i: nat, c: Client): Registry
    requires i < |reg.clients|
  {
    reg.(clients := reg.clients[i := c])
  }

  function RegenToken(reg: Registry, name: string, token: string, now: nat): Outcome {
    var i := IndexByName(reg.clients, name);
    if i == |reg.clients| then Refused(NoSuchClient(name))
    else Applied(SetClient(reg, i, reg.clients[i].(tokenHash := Digest(token), updatedAt := At(now))), Done)
  }

  function SetBlacklist(reg: Registry, name: string, blacklisted: bool, now: nat): Outcome {
    var i := IndexByName(reg.clients, name);
    if i == |reg.clients| then Refused(NoSuchClient(name))
    else Applied(SetClient(reg, i, reg.clients[i].(blacklisted := blacklisted, updatedAt := At(now))), Done)
  }

  // --- routes ---

  /** The routes of the node a name stands for. */
  function RoutesOf(reg: Registry, node: string): Option<seq<string>> {
    if IsHub(node) then Some(reg.routes)
    else
      var i := IndexByName(reg.clients, node);
      if i < |reg.clients| then Some(reg.clients[i].routes) else None
  }

  /** The node's routes replaced, and its update time set when `touch`. */
  function SetRoutes(reg: Registry, node: string, routes: seq<string>, touch: bool, now: nat): Registry
    requires RoutesOf(reg, node).Some?
  {
    if IsHub(node) then
      reg.(routes := routes, updatedAt := if touch then At(now) else reg.updatedAt)
    else
      var i := IndexByName(reg.clients, node);
      var c := reg.clients[i];
      SetClient(reg, i, c.(routes := routes, updatedAt := if touch then At(now) else c.updatedAt))
  }

  function AddRoutes(reg: Registry, node: string, cidrs: seq<string>, now: nat): Outcome {
    match CanonRoutes(cidrs)
    case Err(e) => Refused(e)
    case Ok(canon) =>
      if canon == [] then Refused(NoRoutes)
      else
        match RoutesOf(reg, node)
        case None => Refused(NoSuchClient(node))
        case Some(target) =>
          var added := Filter(canon, r => r !in target);
          Applied(SetRoutes(reg, node, target + added, added != [], now), Routed(added))
  }

  function RemoveRoutes(reg: Registry, node: string, cidrs: seq<string>, now: nat): Outcome {
    match CanonRoutes(cidrs)
    case Err(e) => Refused(e)
    case Ok(canon) =>
      if canon == [] then Refused(NoRoutes)
      else
        match RoutesOf(reg, node)
        case None => Refused(NoSuchClient(node))
        case Some(target) =>
          var removed := Filter(target, r => r in canon);
          Applied(SetRoutes(reg, node, Filter(target, r => r !in canon), removed != [], now), Routed(removed))
  }

  // --- the two client endpoints ---

  /** The client a token belongs to. */
  function Authenticate(reg: Registry, token: string): Option<Client> {
    if TrimSpace(token) == "" then None else FindByToken(reg.clients, token)
  }

  function FindByToken(cs: seq<Client>, token: string): (r: Option<Client>)
    ensures r.Some? ==> r.value in cs && r.value.tokenHash == Digest(token)
    ensures r.None? ==> forall c :: c in cs ==> c.tokenHash != Digest(token)
  {
    if cs == [] then None
    else if cs[0].tokenHash == Digest(token) then Some(cs[0])
    else FindByToken(cs[1..], token)
  }

  /** The caller's record after it registers. */
  function JoinSelf(reg: Registry, self: Client, req: RegisterRequest, now: nat): Client {
    var port := PickPort(req.listenPort, reg.clientWGPort);
    self.(
      address := if req.requestedAddress != "" then req.requestedAddress else self.address,
      publicKey := req.publicKey,
      listenPort := port,
      endpoint := EndpointFrom(req.publicEndpoint, port),
      updatedAt := At(now), lastSeenAt := At(now))
  }

  function Register(reg: Registry, clientID: string, req: RegisterRequest, now: nat): Outcome {
    if !ValidKey(req.publicKey) then Refused(BadKey)
    else if !ValidHostOrEmpty(req.publicEndpoint) then Refused(BadHost)
    else
      var i := IndexByID(reg.clients, clientID);
      if i == |reg.clients| then Refused(ClientGone)
      else
        var self := reg.clients[i];
        var moves := req.requestedAddress != "" && req.requestedAddress != self.address;
        var conflict := if moves then CheckAddrFree(reg, req.requestedAddress, self.id) else None;
        if conflict.Some? then Refused(conflict.value)
        else
          var self' := JoinSelf(reg, self, req, now);
          var reg' := SetClient(reg, i, self');
          Applied(reg', Registered(RegisterResponse(self'.id, self'.name, self'.address, reg.ipRange,
                                                    InternalControlURL(reg), BuildPeers(reg', self'.id))))
  }

  /** The caller's record after a beat. */
  function BeatSelf(reg: Registry, self: Client, req: HeartbeatRequest, now: nat): Client {
    var port := PickPort(PickPort(req.listenPort, self.listenPort), reg.clientWGPort);
    var ep := EndpointFrom(req.publicEndpoint, port);
    var moved := req.publicEndpoint != "" && ep != self.endpoint;
    self.(
      publicKey := if req.publicKey != "" && ValidKey(req.publicKey) then req.publicKey else self.publicKey,
      listenPort := port,
      endpoint := if moved then ep else self.endpoint,
      updatedAt := if moved then At(now) else self.updatedAt,
      have := req.have,
      lastSeenAt := At(now))
  }

  /** The recorded update time of a peer: the hub's own, or the client record's. */
  function StampOf(reg: Registry, id: string): Stamp {
    if id == HUB_ID then reg.updatedAt
    else
      match FindByID(reg.clients, id)
      case Some(c) => c.updatedAt
      case None => Unset
  }

  function PeerIDs(ps: seq<Peer>): seq<string> {
    Map(ps, (p: Peer) => p.id)
  }

  /** Peers the caller lacks, or that changed since it was last seen. */
  function Missing(reg: Registry, peers: seq<Peer>, have: seq<string>, prevSeen: Stamp): seq<Peer> {
    Filter(peers, (p: Peer) => p.id !in have || Newer(StampOf(reg, p.id), prevSeen))
  }

  /** Reported ids that are no longer advertised; the hub is never dropped. */
  function Gone(peers: seq<Peer>, have: seq<string>): seq<string> {
    Filter(have, id => id != HUB_ID && id !in PeerIDs(peers))
  }

  function Heartbeat(reg: Registry, clientID: string, req: HeartbeatRequest, now: nat): Outcome {
    if !ValidHostOrEmpty(req.publicEndpoint) then Refused(BadHost)
    else
      var i := IndexByID(reg.clients, clientID);
      if i == |reg.clients| then Refused(ClientGone)
      else
        var self := reg.clients[i];
        var self' := BeatSelf(reg, self, req, now);
        var reg' := SetClient(reg, i, self');
        var peers := BuildPeers(reg', self'.id);
        Applied(reg', Beaten(HeartbeatResponse(self'.address, reg.ipRange, InternalControlURL(reg),
                                               Missing(reg', peers, req.have, self.lastSeenAt),
                                               Gone(peers, req.have))))
  }

  // --- every function the store runs ---

  datatype Op =
    | OpAdd(name: string, address: string, cidrs: seq<string>, id: string, token: string)
    | OpRemove(name: string)
    | OpRename(name: string, newName: string)
    | OpRegen(name: string, token: string)
    | OpBlacklist(name: string, blacklisted: bool)
    | OpAddRoutes(node: string, cidrs: seq<string>)
    | OpRemoveRoutes(node: string, cidrs: seq<string>)
    | OpRegister(id: string, register: RegisterRequest)
    | OpBeat(id: string, beat: HeartbeatRequest)

  function Apply(op: Op, reg: Registry, now: nat): Outcome {
    match op
    case OpAdd(name, address, cidrs, id, token) => AddClient(reg, name, address, cidrs, id, token, now)
    case OpRemove(name) => RemoveClient(reg, name)
    case OpRename(name, newName) => RenameClient(reg, name, newName, now)
    case OpRegen(name, token) => RegenToken(reg, name, token, now)
    case OpBlacklist(name, b) => SetBlacklist(reg, name, b, now)
    case OpAddRoutes(node, cidrs) => AddRoutes(reg, node, cidrs, now)
    case OpRemoveRoutes(node, cidrs) => RemoveRoutes(reg, node, cidrs, now)
    case OpRegister(id, req) => Register(reg, id, req, now)
    case OpBeat(id, req) => Heartbeat(reg, id, req, now)
  }

  /** The registry after running an operation; a refused one leaves it alone. */
  function After(op: Op, reg: Registry, now: nat): Registry {
    match Apply(op, reg, now)
    case Applied(reg', _) => reg'
    case Refused(_) => reg
  }
}
