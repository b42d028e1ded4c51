/** The hub and its clients as one transition system: administration, joins and heartbeats
    interleaved in any order, with requests and responses that may be lost. Each client keeps a
    cached peer list which it only ever changes by a delta; the theorems relate that list to the
    full peer set the hub would have sent. */
module DeltaSync {
  import opened Base
  import opened Effects
  import opened Mesh
  import opened PeerSet

  datatype Request = Join(register: RegisterRequest) | Beat(beat: HeartbeatRequest)

  /** The one request a node may have in flight. An answer remembers, for stating the theorems,
      the full peer set at the moment it was served and the node's doubt then. */
  datatype Flight =
    | Idle
    | Sent(request: Request)
    | Authed(request: Request, clientID: string)
    | Answered(reply: Reply, full: map<string, Peer>, doubtThen: set<string>)

  /** A client machine. `doubt` is history: the ids whose record it may hold stale without the hub
      ever re-sending it. It plays no part in what any step does. */
  datatype Node = Node(
    joined: bool, token: string, publicKey: string, publicEndpoint: string, listenPort: int,
    peers: seq<Peer>, flight: Flight, doubt: set<string>)

  /** `issued` is history: every token ever handed out, with the id it was handed out for. */
  datatype System = System(now: nat, reg: Registry, nodes: map<string, Node>, issued: map<string, string>)

  datatype Event =
    | Tick(seconds: nat)
    | Admin(op: Op)
    | StartJoin(id: string, token: string, publicKey: string, publicEndpoint: string, listenPort: int, address: string)
    | StartBeat(id: string)
    | Auth(id: string)
    | Serve(id: string)
    | Deliver(id: string)
    | Lose(id: string)
    | Leave(id: string)

  // --- history ---

  function MemberIDs(reg: Registry): set<string> {
    set c | c in reg.clients :: c.id
  }

  /** Ids of others whose advertised record changes in the very second node `o` was last served. */
  function Tied(reg: Registry, reg': Registry, o: string, now: nat): set<string> {
    match FindByID(reg.clients, o)
    case None => {}
    case Some(c) =>
      if c.lastSeenAt == At(now)
      then set k | k in {HUB_ID} + MemberIDs(reg') && k != o && Advert(reg', k) != Advert(reg, k)
      else {}
  }

  function NoteTies(nodes: map<string, Node>, reg: Registry, reg': Registry, now: nat): map<string, Node> {
    map o | o in nodes :: nodes[o].(doubt := nodes[o].doubt + Tied(reg, reg', o, now))
  }

  // --- steps ---

  function BeatRequest(n: Node): HeartbeatRequest {
    HeartbeatRequest(PeerIDs(n.peers), n.publicKey, n.publicEndpoint, n.listenPort)
  }

  function Answer(request: Request, clientID: string, reg: Registry, now: nat): Outcome {
    match request
    case Join(r) => Register(reg, clientID, r, now)
    case Beat(r) => Heartbeat(reg, clientID, r, now)
  }

  /** Ids and tokens are drawn at random: never one used before. */
  predicate Fresh(s: System, op: Op) {
    match op
    case OpAdd(_, _, _, id, token) =>
      token !in s.issued && id !in s.issued.Values && id != HUB_ID && TrimSpace(token) != ""
    case OpRegen(_, token) => token !in s.issued && TrimSpace(token) != ""
    case _ => true
  }

  function Issue(s: System, op: Op): map<string, string> {
    match op
    case OpAdd(_, _, _, id, token) => s.issued[token := id]
    case OpRegen(name, token) =>
      var i := IndexByName(s.reg.clients, name);
      if i < |s.reg.clients| then s.issued[token := s.reg.clients[i].id] else s.issued
    case _ => s.issued
  }

  function StepAdmin(s: System, op: Op): System {
    if !Administrative(op) || !Fresh(s, op) then s
    else
      match Apply(op, s.reg, s.now)
      case Refused(_) => s
      case Applied(reg', _) =>
        s.(reg := reg', nodes := NoteTies(s.nodes, s.reg, reg', s.now), issued := Issue(s, op))
  }

  function SetNode(s: System, id: string, n: Node): System {
    s.(nodes := s.nodes[id := n])
  }

  /** The ids a reply brings up to date once it is delivered. */
  function Settled(doubt: set<string>, reply: Reply): set<string> {
    match reply
    case Registered(_) => {}
    case Beaten(b) => doubt - (set k | k in PeerIDs(b.add))
    case _ => doubt
  }

  /** The node's state once its request has been served with this outcome. */
  function AnsweredNode(n: Node, cid: string, reg': Registry, reply: Reply): Node {
    var doubt := Settled(n.doubt, reply);
    n.(flight := Answered(reply, Full(reg', cid), doubt), doubt := doubt)
  }

  function ServeOutcome(s: System, id: string, cid: string, out: Outcome): System
    requires id in s.nodes
  {
    match out
    case Refused(_) => SetNode(s, id, s.nodes[id].(flight := Idle))
    case Applied(reg', reply) =>
      var noted := s.(reg := reg', nodes := NoteTies(s.nodes, s.reg, reg', s.now));
      SetNode(noted, id, AnsweredNode(s.nodes[id], cid, reg', reply))
  }

  function StepServe(s: System, id: string): System
    requires id in s.nodes && s.nodes[id].flight.Authed?
  {
    var f := s.nodes[id].flight;
    ServeOutcome(s, id, f.clientID, Answer(f.request, f.clientID, s.reg, s.now))
  }

  /** The cached list once the answer in flight, if any, has been applied. */
  function View(n: Node): seq<Peer> {
    if n.flight.Answered? then
      match n.flight.reply
      case Registered(r) => r.peers
      case Beaten(b) => ApplyDelta(n.peers, b.add, b.remove)
      case _ => n.peers
    else n.peers
  }

  /** A lost answer leaves whatever it carried undelivered. */
  function LostIDs(f: Flight): set<string> {
    if f.Answered? && f.reply.Beaten? then set k | k in PeerIDs(f.reply.beaten.add) else {}
  }

  function Step(s: System, e: Event): System {
    match e
    case Tick(d) => s.(now := s.now + d)
    case Admin(op) => StepAdmin(s, op)
    case StartJoin(id, token, key, endpoint, port, address) =>
      if (id in s.nodes && (s.nodes[id].joined || !s.nodes[id].flight.Idle?)) ||
         token !in s.issued || s.issued[token] != id || !ValidKey(key) then s
      else
        SetNode(s, id, Node(false, token, key, endpoint, port, [],
                            Sent(Join(RegisterRequest(key, endpoint, port, address))), {}))
    case StartBeat(id) =>
      if id in s.nodes && s.nodes[id].joined && s.nodes[id].flight.Idle?
      then SetNode(s, id, s.nodes[id].(flight := Sent(Beat(BeatRequest(s.nodes[id])))))
      else s
    case Auth(id) =>
      if id in s.nodes && s.nodes[id].flight.Sent? then
        var n := s.nodes[id];
        match Authenticate(s.reg, n.token)
        case None => SetNode(s, id, n.(flight := Idle))
        case Some(c) =>
          SetNode(s, id, n.(flight := if c.blacklisted then Idle else Authed(n.flight.request, c.id)))
      else s
    case Serve(id) =>
      if id in s.nodes && s.nodes[id].flight.Authed? then StepServe(s, id) else s
    case Deliver(id) =>
      if id in s.nodes && s.nodes[id].flight.Answered?
      then SetNode(s, id, s.nodes[id].(joined := true, peers := View(s.nodes[id]), flight := Idle))
      else s
    case Lose(id) =>
      if id in s.nodes
      then SetNode(s, id, s.nodes[id].(flight := Idle, doubt := s.nodes[id].doubt + LostIDs(s.nodes[id].flight)))
      else s
    case Leave(id) =>
      if id in s.nodes && s.nodes[id].flight.Idle? then s.(nodes := s.nodes - {id}) else s
  }

  function Run(s: System, es: seq<Event>): System {
    if es == [] then s else Step(Run(s, es[..|es| - 1]), es[|es| - 1])
  }

  // --- invariant ---

  ghost predicate StampsBy(reg: Registry, now: nat) {
    && NotAfter(reg.updatedAt, now)
    && forall k :: FindByID(reg.clients, k).Some? ==>
         NotAfter(FindByID(reg.clients, k).value.updatedAt, now) &&
         NotAfter(FindByID(reg.clients, k).value.lastSeenAt, now)
  }

  /** A held record that differs from the advertised one, and is not in doubt, has been stamped
      since the holder was last seen. */
  ghost predicate Tracks(reg: Registry, o: string, held: map<string, Peer>, doubt: set<string>) {
    var c := FindByID(reg.clients, o);
    c.Some? ==>
      forall k :: k in held && k != o && k !in doubt && Advert(reg, k).Some? && held[k] != Advert(reg, k).value ==>
        Newer(StampOf(reg, k), c.value.lastSeenAt)
  }

  /** Exactly the ids of the full set, and the same record for every id not in doubt. */
  ghost predicate Agrees(held: map<string, Peer>, full: map<string, Peer>, doubt: set<string>) {
    held.Keys == full.Keys && forall k :: k in full && k !in doubt ==> held[k] == full[k]
  }

  predicate HasView(n: Node) {
    n.joined || n.flight.Answered?
  }

  predicate RequestOf(n: Node, r: Request) {
    match r
    case Join(j) => !n.joined && j.publicKey == n.publicKey
    case Beat(b) => n.joined && b == BeatRequest(n)
  }

  ghost predicate FlightOk(o: string, n: Node) {
    match n.flight
    case Idle => true
    case Sent(r) => RequestOf(n, r)
    case Authed(r, cid) => RequestOf(n, r) && cid == o
    case Answered(reply, full, doubt) =>
      && (reply.Registered? ==> !n.joined)
      && (reply.Beaten? ==> n.joined)
      && (reply.Registered? || reply.Beaten?)
      && Agrees(Held(View(n)), full, doubt)
  }

  ghost predicate NodeOk(reg: Registry, issued: map<string, string>, o: string, n: Node) {
    && n.token in issued && issued[n.token] == o
    && FlightOk(o, n)
    && (n.joined ==> Tracks(reg, o, Held(n.peers), n.doubt + LostIDs(n.flight)))
    && (n.flight.Answered? ==> Tracks(reg, o, Held(View(n)), n.doubt))
    && (HasView(n) ==>
          var c := FindByID(reg.clients, o);
          c.Some? ==> c.value.publicKey == n.publicKey && c.value.lastSeenAt.At?)
  }

  ghost predicate TokensOk(reg: Registry, issued: map<string, string>) {
    && HUB_ID !in issued.Values
    && forall c :: c in reg.clients ==> c.tokenHash.token in issued && issued[c.tokenHash.token] == c.id
  }

  ghost predicate Inv(s: System) {
    && UniqueIDs(s.reg.clients)
    && s.reg.publicKey != ""
    && StampsBy(s.reg, s.now)
    && TokensOk(s.reg, s.issued)
    && forall o :: o in s.nodes ==> NodeOk(s.reg, s.issued, o, s.nodes[o])
  }

  /** The registry as initialised, and no client anywhere. */
  ghost predicate Init(s: System) {
    s.reg.clients == [] && s.reg.updatedAt == Unset && s.reg.publicKey != "" && s.nodes == map[] && s.issued == map[]
  }

  lemma InitInv(s: System)
    requires Init(s)
    ensures Inv(s)
  {
  }

  // --- preservation ---

  lemma EvolvesStamps(reg: Registry, reg': Registry, who: Option<string>, now: nat)
    requires Evolves(reg, reg', who, now) && StampsBy(reg, now)
    ensures StampsBy(reg', now)
  {
    forall k | FindByID(reg'.clients, k).Some?
      ensures NotAfter(FindByID(reg'.clients, k).value.updatedAt, now) &&
              NotAfter(FindByID(reg'.clients, k).value.lastSeenAt, now)
    {
      assert ClientEvolves(FindByID(reg.clients, k), FindByID(reg'.clients, k), who == Some(k), now);
    }
  }

  lemma StampBy(reg: Registry, now: nat, k: string)
    requires StampsBy(reg, now)
    ensures NotAfter(StampOf(reg, k), now)
  {
  }

  lemma MemberFound(reg: Registry, k: string)
    requires Advert(reg, k).Some?
    ensures k in {HUB_ID} + MemberIDs(reg)
  {
    if k != HUB_ID {
      var c := FindByID(reg.clients, k).value;
      assert c in reg.clients;
    }
  }

  /** An observer keeps track across any operation it is not served by: a change it could miss is
      either stamped later than its last beat or shares that beat's second. */
  lemma EvolvesTracks(reg: Registry, reg': Registry, who: Option<string>, now: nat,
                      o: string, held: map<string, Peer>, doubt: set<string>)
    requires Evolves(reg, reg', who, now) && StampsBy(reg, now) && who != Some(o)
    requires FindByID(reg.clients, o).Some? ==> FindByID(reg.clients, o).value.lastSeenAt.At?
    requires Tracks(reg, o, held, doubt)
    ensures Tracks(reg', o, held, doubt + Tied(reg, reg', o, now))
  {
    var c', c := FindByID(reg'.clients, o), FindByID(reg.clients, o);
    assert ClientEvolves(c, c', false, now);
    if c'.Some? {
      forall k | k in held && k != o && k !in doubt + Tied(reg, reg', o, now) && Advert(reg', k).Some? &&
          held[k] != Advert(reg', k).value
        ensures Newer(StampOf(reg', k), c'.value.lastSeenAt)
      {
        AdvertEvolves(reg, reg', who, now, k);
        MemberFound(reg', k);
        StampBy(reg, now, k);
        assert NotAfter(c.value.lastSeenAt, now);
      }
    }
  }

  /** Every other node survives an operation. */
  lemma OthersOk(s: System, reg': Registry, who: Option<string>, issued': map<string, string>, o: string)
    requires Inv(s) && Evolves(s.reg, reg', who, s.now) && who != Some(o) && o in s.nodes
    requires forall t :: t in s.issued ==> t in issued' && issued'[t] == s.issued[t]
    ensures NodeOk(reg', issued', o, s.nodes[o].(doubt := s.nodes[o].doubt + Tied(s.reg, reg', o, s.now)))
  {
    var n := s.nodes[o];
    assert NodeOk(s.reg, s.issued, o, n);
    assert ClientEvolves(FindByID(s.reg.clients, o), FindByID(reg'.clients, o), false, s.now);
    var tied := Tied(s.reg, reg', o, s.now);
    if n.joined {
      EvolvesTracks(s.reg, reg', who, s.now, o, Held(n.peers), n.doubt + LostIDs(n.flight));
      assert n.doubt + LostIDs(n.flight) + tied == n.doubt + tied + LostIDs(n.flight);
    }
    if n.flight.Answered? {
      EvolvesTracks(s.reg, reg', who, s.now, o, Held(View(n)), n.doubt);
    }
  }

  // --- tokens across operations ---

  /** Every record keeps its id and token hash, except the one given a new token. */
  ghost predicate KeepsTokens(reg: Registry, reg': Registry, issued: map<string, string>, issued': map<string,
                              string>) {
    && (forall t :: t in issued ==> t in issued' && issued'[t] == issued[t])
    && HUB_ID !in issued'.Values
    && forall c' :: c' in reg'.clients ==>
         (exists c :: c in reg.clients && c.id == c'.id && c.tokenHash == c'.tokenHash) ||
         (c'.tokenHash.token !in issued && c'.tokenHash.token in issued' && issued'[c'.tokenHash.token] == c'.id)
  }

  lemma SetKeepsTokens(reg: Registry, i: nat, c': Client, issued: map<string, string>)
    requires i < |reg.clients| && c'.id == reg.clients[i].id && c'.tokenHash == reg.clients[i].tokenHash
    requires HUB_ID !in issued.Values
    ensures KeepsTokens(reg, SetClient(reg, i, c'), issued, issued)
  {
    assert reg.clients[i] in reg.clients;
  }

  lemma AnswerKeepsTokens(reg: Registry, request: Request, cid: string, now: nat, issued: map<string, string>)
    requires HUB_ID !in issued.Values
    requires Answer(request, cid, reg, now).Applied?
    ensures KeepsTokens(reg, Answer(request, cid, reg, now).reg, issued, issued)
  {
    var i := IndexByID(reg.clients, cid);
    SetKeepsTokens(reg, i, Answer(request, cid, reg, now).reg.clients[i], issued);
  }

  lemma AdminKeepsTokens(s: System, op: Op)
    requires Administrative(op) && Fresh(s, op) && TokensOk(s.reg, s.issued)
    requires Apply(op, s.reg, s.now).Applied?
    ensures KeepsTokens(s.reg, After(op, s.reg, s.now), s.issued, Issue(s, op))
  {
    var reg' := After(op, s.reg, s.now);
    match op
    case OpAdd(_, _, _, _, _) => AddKeepsTokens(s, op);
    case OpRemove(name) =>
      var i := IndexByName(s.reg.clients, name);
      assert reg'.clients == s.reg.clients[..i] + s.reg.clients[i + 1..];
    case OpRename(name, _) =>
      var i := IndexByName(s.reg.clients, name);
      SetKeepsTokens(s.reg, i, reg'.clients[i], s.issued);
    case OpBlacklist(name, _) =>
      var i := IndexByName(s.reg.clients, name);
      SetKeepsTokens(s.reg, i, reg'.clients[i], s.issued);
    case OpRegen(name, token) => RegenKeepsTokens(s, name, token);
    case OpAddRoutes(node, _) => RouteKeepsTokens(s, op, node);
    case OpRemoveRoutes(node, _) => RouteKeepsTokens(s, op, node);
  }

  lemma AddKeepsTokens(s: System, op: Op)
    requires op.OpAdd? && Fresh(s, op) && HUB_ID !in s.issued.Values
    requires Apply(op, s.reg, s.now).Applied?
    ensures KeepsTokens(s.reg, After(op, s.reg, s.now), s.issued, Issue(s, op))
  {
    IssueValues(s.issued, op.token, op.id);
    var c := Apply(op, s.reg, s.now).reply.client;
    assert After(op, s.reg, s.now).clients == s.reg.clients + [c];
  }

  lemma RegenKeepsTokens(s: System, name: string, token: string)
    requires Fresh(s, OpRegen(name, token)) && TokensOk(s.reg, s.issued)
    requires RegenToken(s.reg, name, token, s.now).Applied?
    ensures KeepsTokens(s.reg, RegenToken(s.reg, name, token, s.now).reg, s.issued, Issue(s, OpRegen(name, token)))
  {
    var cs, i := s.reg.clients, IndexByName(s.reg.clients, name);
    var reg' := RegenToken(s.reg, name, token, s.now).reg;
    IssueValues(s.issued, token, cs[i].id);
    assert cs[i] in cs;
    assert forall k :: 0 <= k < |cs| && k != i ==> reg'.clients[k] == cs[k] && cs[k] in cs;
  }

  lemma RouteKeepsTokens(s: System, op: Op, node: string)
    requires (op.OpAddRoutes? || op.OpRemoveRoutes?) && op.node == node && HUB_ID !in s.issued.Values
    requires Apply(op, s.reg, s.now).Applied?
    ensures KeepsTokens(s.reg, After(op, s.reg, s.now), s.issued, s.issued)
  {
    var reg' := After(op, s.reg, s.now);
    if IsHub(node) {
      assert reg'.clients == s.reg.clients;
    } else {
      var i := IndexByName(s.reg.clients, node);
      SetKeepsTokens(s.reg, i, reg'.clients[i], s.issued);
    }
  }

  lemma IssueValues(issued: map<string, string>, token: string, id: string)
    requires token !in issued
    ensures issued[token := id].Values == issued.Values + {id}
  {
    var after := issued[token := id];
    assert after[token] == id;
    forall v | v in issued.Values ensures v in after.Values {
      var t :| t in issued && issued[t] == v;
      assert after[t] == v;
    }
  }

  // --- serving a request ---

  /** A served beat: after it the view agrees with the full set outside the remaining doubt. */
  lemma BeatServed(reg: Registry, o: string, req: HeartbeatRequest, now: nat, reg': Registry,
                   resp: HeartbeatResponse, ps: seq<Peer>, doubt: set<string>)
    requires UniqueIDs(reg.clients) && reg.publicKey != "" && Serves(reg, o, req, now, reg', resp)
    requires req.have == PeerIDs(ps) && Tracks(reg, o, Held(ps), doubt)
    ensures var view := Held(ApplyDelta(ps, resp.add, resp.remove));
            Agrees(view, Full(reg', o), doubt - (set k | k in PeerIDs(resp.add)))
    ensures Tracks(reg', o, Held(ps), doubt + (set k | k in PeerIDs(resp.add)))
  {
    forall k { BeatServedAt(reg, o, req, now, reg', resp, ps, doubt, k); }
    BeatUndelivered(reg, o, req, now, reg', resp, ps, doubt);
  }

  lemma BeatServedAt(reg: Registry, o: string, req: HeartbeatRequest, now: nat, reg': Registry,
                     resp: HeartbeatResponse, ps: seq<Peer>, doubt: set<string>, k: string)
    requires UniqueIDs(reg.clients) && reg.publicKey != "" && Serves(reg, o, req, now, reg', resp)
    requires req.have == PeerIDs(ps) && Tracks(reg, o, Held(ps), doubt)
    ensures var view, full := Held(ApplyDelta(ps, resp.add, resp.remove)), Full(reg', o);
            (k in view <==> k in full) && (k in full && k !in doubt - (set k | k in PeerIDs(resp.add)) ==>
                view[k] == full[k])
  {
    BeatResult(reg, o, req, now, reg', resp, ps, k);
    DeltaContents(reg, o, req, now, reg', resp, k);
    HeldKeys(resp.add, k);
    HeldKeys(ps, k);
    BeatParts(reg, o, req, now, reg', resp);
    FullIsAdvert(reg', o, k);
    if k in Full(reg', o) {
      SameAdvert(reg, o, req, now, reg', resp, k);
    }
  }

  /** The cache as it was: whatever the answer does not carry is as current as the answer. */
  lemma BeatUndelivered(reg: Registry, o: string, req: HeartbeatRequest, now: nat, reg': Registry,
                        resp: HeartbeatResponse, ps: seq<Peer>, doubt: set<string>)
    requires UniqueIDs(reg.clients) && Serves(reg, o, req, now, reg', resp)
    requires req.have == PeerIDs(ps) && Tracks(reg, o, Held(ps), doubt)
    ensures Tracks(reg', o, Held(ps), doubt + (set k | k in PeerIDs(resp.add)))
  {
    forall k | k in Held(ps) && k != o && k !in doubt && k !in PeerIDs(resp.add) && Advert(reg', k).Some?
      ensures Held(ps)[k] == Advert(reg', k).value
    {
      DeltaContents(reg, o, req, now, reg', resp, k);
      HeldKeys(resp.add, k);
      HeldKeys(ps, k);
      BeatParts(reg, o, req, now, reg', resp);
      FullIsAdvert(reg', o, k);
      SameAdvert(reg, o, req, now, reg', resp, k);
    }
  }

  /** A beat changes nothing of what is advertised for other ids. */
  lemma SameAdvert(reg: Registry, o: string, req: HeartbeatRequest, now: nat, reg': Registry,
                   resp: HeartbeatResponse, k: string)
    requires UniqueIDs(reg.clients) && Serves(reg, o, req, now, reg', resp) && k != o
    ensures Advert(reg', k) == Advert(reg, k) && StampOf(reg', k) == StampOf(reg, k)
  {
    var i := IndexByID(reg.clients, o);
    FindAfterSet(reg.clients, i, reg'.clients[i], k);
  }

  lemma AgreesTracks(reg: Registry, o: string, held: map<string, Peer>, doubt: set<string>)
    requires UniqueIDs(reg.clients) && o != HUB_ID && Agrees(held, Full(reg, o), doubt)
    ensures Tracks(reg, o, held, doubt)
  {
    forall k | k in held && k !in doubt && Advert(reg, k).Some? ensures held[k] == Advert(reg, k).value {
      FullIsAdvert(reg, o, k);
    }
  }

  /** What serving must establish for the node it serves. */
  ghost predicate GoodAnswer(s: System, o: string, reg': Registry, reply: Reply) {
    && o in s.nodes && o != HUB_ID
    && Evolves(s.reg, reg', Some(o), s.now)
    && (var c := FindByID(reg'.clients, o); c.Some? && c.value.publicKey == s.nodes[o].publicKey)
    && (if s.nodes[o].joined then reply.Beaten? else reply.Registered?)
    && var n := AnsweredNode(s.nodes[o], o, reg', reply);
       Agrees(Held(View(n)), Full(reg', o), n.doubt) &&
       (n.joined ==> Tracks(reg', o, Held(n.peers), n.doubt + LostIDs(n.flight)))
  }

  lemma AnsweredOk(s: System, o: string, reg': Registry, reply: Reply)
    requires FindByID(s.reg.clients, o).Some? && GoodAnswer(s, o, reg', reply)
    requires s.nodes[o].token in s.issued && s.issued[s.nodes[o].token] == o
    ensures NodeOk(reg', s.issued, o, AnsweredNode(s.nodes[o], o, reg', reply))
  {
    hide Tracks, PeerOf, Active;
    var n' := AnsweredNode(s.nodes[o], o, reg', reply);
    assert ClientEvolves(FindByID(s.reg.clients, o), FindByID(reg'.clients, o), true, s.now);
    AgreesTracks(reg', o, Held(View(n')), n'.doubt);
  }

  lemma ServedWell(s: System, o: string)
    requires Inv(s) && o in s.nodes && s.nodes[o].flight.Authed?
    ensures var f := s.nodes[o].flight;
            f.clientID == o &&
            match Answer(f.request, o, s.reg, s.now)
            case Refused(_) => true
            case Applied(reg', reply) => FindByID(s.reg.clients, o).Some? && GoodAnswer(s, o, reg', reply)
  {
    assert NodeOk(s.reg, s.issued, o, s.nodes[o]);
    hide GoodAnswer, Register, Heartbeat, Inv, Tracks;
    match s.nodes[o].flight.request
    case Join(req) =>
      if Register(s.reg, o, req, s.now).Applied? {
        JoinServed(s, o, req);
      }
    case Beat(req) =>
      if Heartbeat(s.reg, o, req, s.now).Applied? {
        BeatServedWell(s, o, req);
      }
  }

  lemma JoinServed(s: System, o: string, req: RegisterRequest)
    requires Inv(s) && o in s.nodes && s.nodes[o].flight == Authed(Join(req), o)
    requires Register(s.reg, o, req, s.now).Applied?
    ensures var out := Register(s.reg, o, req, s.now);
            FindByID(s.reg.clients, o).Some? && GoodAnswer(s, o, out.reg, out.reply)
  {
    RegisterReply(s.reg, o, req, s.now);
    RegisterEvolves(s.reg, o, req, s.now);
    assert NodeOk(s.reg, s.issued, o, s.nodes[o]);
    hide Register, Full, Tracks, PeerOf, Active, ClientEvolves;
  }

  lemma BeatServedWell(s: System, o: string, req: HeartbeatRequest)
    requires Inv(s) && o in s.nodes && s.nodes[o].flight == Authed(Beat(req), o)
    requires Heartbeat(s.reg, o, req, s.now).Applied?
    ensures var out := Heartbeat(s.reg, o, req, s.now);
            FindByID(s.reg.clients, o).Some? && GoodAnswer(s, o, out.reg, out.reply)
  {
    assert NodeOk(s.reg, s.issued, o, s.nodes[o]);
    hide Heartbeat, Tracks, GoodAnswer;
    var reg', resp := BeatOutcome(s.reg, o, req, s.now);
    BeatIsGood(s, o, req, reg', resp);
  }

  lemma BeatIsGood(s: System, o: string, req: HeartbeatRequest, reg': Registry, resp: HeartbeatResponse)
    requires UniqueIDs(s.reg.clients) && s.reg.publicKey != "" && Serves(s.reg, o, req, s.now, reg', resp)
    requires o in s.nodes && s.nodes[o].joined && req == BeatRequest(s.nodes[o])
    requires Tracks(s.reg, o, Held(s.nodes[o].peers), s.nodes[o].doubt)
    requires var c := FindByID(s.reg.clients, o); c.Some? ==> c.value.publicKey == s.nodes[o].publicKey
    ensures FindByID(s.reg.clients, o).Some? && GoodAnswer(s, o, reg', Beaten(resp))
  {
    hide Heartbeat, Full, BeatSelf, Evolves, Tracks, Agrees, Held, ApplyDelta, Missing, Gone, UniqueIDs, PeerIDs,
        FindByID, BuildPeers;
    var n := s.nodes[o];
    BeatParts(s.reg, o, req, s.now, reg', resp);
    BeatEvolves(s.reg, o, req, s.now);
    BeatServed(s.reg, o, req, s.now, reg', resp, n.peers, n.doubt);
    BeatAnswered(n, o, reg', resp);
    SetPlus(n.doubt, set k | k in PeerIDs(resp.add));
  }

  lemma BeatAnswered(n: Node, o: string, reg': Registry, resp: HeartbeatResponse)
    ensures var m, added := AnsweredNode(n, o, reg', Beaten(resp)), set k | k in PeerIDs(resp.add);
            m.peers == n.peers && m.joined == n.joined && View(m) == ApplyDelta(n.peers, resp.add, resp.remove) &&
            m.doubt == n.doubt - added && LostIDs(m.flight) == added
  {
  }

  lemma SetPlus(a: set<string>, b: set<string>)
    ensures a - b + b == a + b
  {
  }

  lemma BeatOutcome(reg: Registry, o: string, req: HeartbeatRequest, now: nat)
      returns (reg': Registry, resp: HeartbeatResponse)
    requires Heartbeat(reg, o, req, now).Applied?
    ensures Heartbeat(reg, o, req, now) == Applied(reg', Beaten(resp))
  {
    reg', resp := Heartbeat(reg, o, req, now).reg, Heartbeat(reg, o, req, now).reply.beaten;
  }

  lemma RegisterReply(reg: Registry, o: string, req: RegisterRequest, now: nat)
    requires UniqueIDs(reg.clients) && Register(reg, o, req, now).Applied?
    ensures var out := Register(reg, o, req, now);
            out.reply.Registered? && Held(out.reply.registered.peers) == Full(out.reg, o) && o != HUB_ID &&
            FindByID(reg.clients, o).Some?
  {
  }

  lemma TokensKept(reg: Registry, reg': Registry, issued: map<string, string>, issued': map<string, string>)
    requires TokensOk(reg, issued) && KeepsTokens(reg, reg', issued, issued')
    ensures TokensOk(reg', issued')
  {
  }

  // --- every step ---

  lemma ServeInv(s: System, o: string)
    requires Inv(s) && o in s.nodes && s.nodes[o].flight.Authed?
    ensures Inv(StepServe(s, o))
  {
    ServedWell(s, o);
    var request := s.nodes[o].flight.request;
    var out := Answer(request, o, s.reg, s.now);
    assert NodeOk(s.reg, s.issued, o, s.nodes[o]);
    if out.Applied? {
      AnswerKeepsTokens(s.reg, request, o, s.now, s.issued);
      AppliedInv(s, o, out.reg, out.reply);
    } else {
      RefusedInv(s, o);
    }
  }

  lemma RefusedInv(s: System, o: string)
    requires Inv(s) && o in s.nodes && !s.nodes[o].flight.Answered?
    ensures Inv(SetNode(s, o, s.nodes[o].(flight := Idle)))
  {
    var s' := SetNode(s, o, s.nodes[o].(flight := Idle));
    assert NodeOk(s.reg, s.issued, o, s.nodes[o]);
    forall x | x in s'.nodes ensures NodeOk(s'.reg, s'.issued, x, s'.nodes[x]) {
      assert x != o ==> NodeOk(s.reg, s.issued, x, s.nodes[x]);
    }
  }

  lemma AppliedInv(s: System, o: string, reg': Registry, reply: Reply)
    requires Inv(s) && o in s.nodes && FindByID(s.reg.clients, o).Some? && GoodAnswer(s, o, reg', reply)
    requires KeepsTokens(s.reg, reg', s.issued, s.issued)
    ensures Inv(ServeOutcome(s, o, o, Applied(reg', reply)))
  {
    hide View, Tied, AnsweredNode, ClientEvolves;
    var s' := ServeOutcome(s, o, o, Applied(reg', reply));
    EvolvesStamps(s.reg, reg', Some(o), s.now);
    TokensKept(s.reg, reg', s.issued, s.issued);
    assert NodeOk(s.reg, s.issued, o, s.nodes[o]);
    AnsweredOk(s, o, reg', reply);
    forall x | x in s'.nodes ensures NodeOk(reg', s.issued, x, s'.nodes[x]) {
      if x != o {
        OthersOk(s, reg', Some(o), s.issued, x);
      }
    }
  }

  lemma AdminInv(s: System, op: Op)
    requires Inv(s)
    ensures Inv(StepAdmin(s, op))
  {
    if Administrative(op) && Fresh(s, op) && Apply(op, s.reg, s.now).Applied? {
      if op.OpAdd? {
        FreshIsNew(s, op.id);
      }
      AdminEvolves(op, s.reg, s.now);
      AdminKeepsTokens(s, op);
      forall x | x in s.nodes ensures x in s.issued.Values {
        assert NodeOk(s.reg, s.issued, x, s.nodes[x]);
        assert s.issued[s.nodes[x].token] == x;
      }
      AdminAppliedInv(s, Owner(op), After(op, s.reg, s.now), Issue(s, op));
    }
  }

  lemma FreshIsNew(s: System, id: string)
    requires TokensOk(s.reg, s.issued) && id !in s.issued.Values && id != HUB_ID
    ensures NewID(s.reg, id)
  {
    forall i | 0 <= i < |s.reg.clients| ensures s.reg.clients[i].id in s.issued.Values {
      var c := s.reg.clients[i];
      assert c in s.reg.clients && s.issued[c.tokenHash.token] == c.id;
    }
  }

  lemma AdminAppliedInv(s: System, who: Option<string>, reg': Registry, issued': map<string, string>)
    requires Inv(s) && Evolves(s.reg, reg', who, s.now) && KeepsTokens(s.reg, reg', s.issued, issued')
    requires who.Some? ==> who.value !in s.nodes
    ensures Inv(s.(reg := reg', nodes := NoteTies(s.nodes, s.reg, reg', s.now), issued := issued'))
  {
    hide View, Tied, ClientEvolves;
    EvolvesStamps(s.reg, reg', who, s.now);
    TokensKept(s.reg, reg', s.issued, issued');
    forall x | x in s.nodes
      ensures NodeOk(reg', issued', x, s.nodes[x].(doubt := s.nodes[x].doubt + Tied(s.reg, reg', x, s.now)))
    {
      OthersOk(s, reg', who, issued', x);
    }
  }

  /** A step that only replaces one node's own state. */
  lemma NodeInv(s: System, o: string, n: Node)
    requires Inv(s) && NodeOk(s.reg, s.issued, o, n)
    ensures Inv(SetNode(s, o, n))
  {
    hide NodeOk;
  }

  /** Giving up on an answer leaves in doubt only what the answer carried. */
  lemma LoseOk(s: System, o: string)
    requires Inv(s) && o in s.nodes
    ensures var n := s.nodes[o];
            NodeOk(s.reg, s.issued, o, n.(flight := Idle, doubt := n.doubt + LostIDs(n.flight)))
  {
    hide Tracks;
    var n := s.nodes[o];
    assert NodeOk(s.reg, s.issued, o, n);
    assert n.doubt + LostIDs(n.flight) + LostIDs(Idle) == n.doubt + LostIDs(n.flight);
  }
}
