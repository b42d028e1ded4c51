/** The two boundaries of delta synchronisation, over runs: what a hub never sends again, and runs from
    a freshly initialised hub that get there. */
module Boundaries {
  import opened Addresses
  import opened Base
  import C = Coordinator
  import opened DeltaSync
  import opened DeltaTheorems
  import opened Effects
  import opened IpAlloc
  import opened Mesh
  import opened Netip
  import opened PeerSet
  import opened Safety

  // --- runs in pieces ---

  lemma {:induction false} RunAppend(s: System, a: seq<Event>, b: seq<Event>)
    ensures Run(s, a + b) == Run(Run(s, a), b)
  {
    hide Step;
    if b == [] {
      assert a + b == a;
    } else {
      assert (a + b)[..|a + b| - 1] == a + b[..|b| - 1];
      RunAppend(s, a, b[..|b| - 1]);
    }
  }

  lemma RunOne(s: System, e: Event)
    ensures Run(s, [e]) == Step(s, e)
  {
    hide Step;
    assert [e][..0] == [];
  }

  lemma RunFour(s: System, a: Event, b: Event, c: Event, d: Event)
    ensures Run(s, [a, b, c, d]) == Step(Step(Step(Step(s, a), b), c), d)
  {
    hide Step;
    RunOne(s, a);
    RunAppend(s, [a], [b]);
    RunOne(Run(s, [a]), b);
    RunAppend(s, [a, b], [c]);
    RunOne(Run(s, [a, b]), c);
    RunAppend(s, [a, b, c], [d]);
    RunOne(Run(s, [a, b, c]), d);
    assert [a] + [b] == [a, b] && [a, b] + [c] == [a, b, c] && [a, b, c] + [d] == [a, b, c, d];
  }

  // --- one undisturbed beat ---

  /** The next beat of the node will be answered. */
  predicate LetIn(s: System, id: string) {
    && id in s.nodes && s.nodes[id].joined && s.nodes[id].flight.Idle?
    && ValidHostOrEmpty(s.nodes[id].publicEndpoint)
    && var c := Authenticate(s.reg, s.nodes[id].token); c.Some? && !c.value.blacklisted
  }

  function Beating(id: string): seq<Event> {
    [StartBeat(id), Auth(id), Serve(id), Deliver(id)]
  }

  lemma LetInIs(s: System, id: string)
    requires Inv(s) && LetIn(s, id)
    ensures FindByID(s.reg.clients, id) == Authenticate(s.reg, s.nodes[id].token) && id != HUB_ID
  {
    assert NodeOk(s.reg, s.issued, id, s.nodes[id]);
    ResolvesToOwner(s, s.nodes[id].token);
    AuthenticatedIsFound(s, s.nodes[id].token);
    assert s.issued[s.nodes[id].token] in s.issued.Values;
  }

  /** The node's beat on its way, let in. */
  function Standing(s: System, id: string): System
    requires id in s.nodes
  {
    SetNode(s, id, s.nodes[id].(flight := Authed(Beat(BeatRequest(s.nodes[id])), id)))
  }

  lemma BeatStands(s: System, id: string)
    requires Inv(s) && LetIn(s, id)
    ensures Step(Step(s, StartBeat(id)), Auth(id)) == Standing(s, id)
  {
    LetInIs(s, id);
    hide Authenticate, Inv, FindByID;
    var n := s.nodes[id];
    var s1 := SetNode(s, id, n.(flight := Sent(Beat(BeatRequest(n)))));
    assert Step(s, StartBeat(id)) == s1;
    assert Authenticate(s.reg, n.token).value.id == id by {
      FoundHasID(s.reg, id);
    }
    assert s1.nodes[id := n.(flight := Authed(Beat(BeatRequest(n)), id))] == Standing(s, id).nodes;
  }

  lemma FoundHasID(reg: Registry, id: string)
    ensures FindByID(reg.clients, id).Some? ==> FindByID(reg.clients, id).value.id == id
  {
  }

  /** What serving a request gives, when it is not refused. */
  lemma ServedBy(s: System, id: string, request: Request)
    requires id in s.nodes && s.nodes[id].flight == Authed(request, id)
    requires Answer(request, id, s.reg, s.now).Applied?
    ensures var s', out := Step(s, Serve(id)), Answer(request, id, s.reg, s.now);
            && s'.reg == out.reg && s'.now == s.now && s'.issued == s.issued && s'.nodes.Keys == s.nodes.Keys
            && s'.nodes[id] == AnsweredNode(s.nodes[id], id, out.reg, out.reply)
  {
    hide Answer, Tied, AnsweredNode;
  }

  lemma BeatIsServed(s: System, id: string) returns (resp: HeartbeatResponse)
    requires Inv(s) && LetIn(s, id)
    ensures var s3 := Step(Standing(s, id), Serve(id));
            && Serves(s.reg, id, BeatRequest(s.nodes[id]), s.now, s3.reg, resp)
            && s3.now == s.now && s3.issued == s.issued && id in s3.nodes
            && s3.nodes[id] == AnsweredNode(Standing(s, id).nodes[id], id, s3.reg, Beaten(resp))
  {
    LetInIs(s, id);
    var req := BeatRequest(s.nodes[id]);
    HeartbeatServes(s.reg, id, req, s.now);
    hide Inv, Authenticate, Heartbeat, Step, AnsweredNode;
    var reg';
    reg', resp := BeatOutcome(s.reg, id, req, s.now);
    ServedBy(Standing(s, id), id, Beat(req));
  }

  lemma HeartbeatServes(reg: Registry, id: string, req: HeartbeatRequest, now: nat)
    requires ValidHostOrEmpty(req.publicEndpoint) && FindByID(reg.clients, id).Some?
    ensures Heartbeat(reg, id, req, now).Applied?
  {
  }

  /** After an undisturbed beat the hub's record of the caller is the caller's beat, the node holds what
      the delta makes of its list, and the next beat will be let in too. */
  lemma BeatLands(s: System, id: string) returns (resp: HeartbeatResponse)
    requires Inv(s) && LetIn(s, id)
    ensures var s' := Run(s, Beating(id));
            && Inv(s') && LetIn(s', id) && s'.now == s.now
            && Serves(s.reg, id, BeatRequest(s.nodes[id]), s.now, s'.reg, resp)
            && s'.nodes[id].peers == ApplyDelta(s.nodes[id].peers, resp.add, resp.remove)
  {
    resp := BeatIsServed(s, id);
    var s3 := Step(Standing(s, id), Serve(id));
    StillLetIn(s, id, s3.reg, resp);
    RunInv(s, Beating(id));
    RunFour(s, StartBeat(id), Auth(id), Serve(id), Deliver(id));
    BeatStands(s, id);
    Delivered(s3, id);
    hide Heartbeat, Authenticate, Inv, BeatRequest, ApplyDelta, Step, Run, ValidHostOrEmpty, Full, Settled;
  }

  lemma Delivered(s: System, id: string)
    requires id in s.nodes && s.nodes[id].flight.Answered?
    ensures var s', n := Step(s, Deliver(id)), s.nodes[id];
            && s'.reg == s.reg && s'.now == s.now && s'.issued == s.issued && id in s'.nodes
            && s'.nodes[id] == n.(joined := true, peers := View(n), flight := Idle)
  {
  }

  lemma StillLetIn(s: System, id: string, reg': Registry, resp: HeartbeatResponse)
    requires Inv(s) && LetIn(s, id) && Serves(s.reg, id, BeatRequest(s.nodes[id]), s.now, reg', resp)
    ensures var c := Authenticate(reg', s.nodes[id].token); c.Some? && !c.value.blacklisted
  {
    LetInIs(s, id);
    var token, req := s.nodes[id].token, BeatRequest(s.nodes[id]);
    var i := IndexByID(s.reg.clients, id);
    assert s.reg.clients[i].tokenHash == Digest(token) && !s.reg.clients[i].blacklisted;
    SameFirstToken(s.reg.clients, i, reg'.clients[i], token);
  }

  /** Replacing a record by one with the same token hash and flag changes who a token resolves to in
      nothing that matters. */
  lemma {:induction false} SameFirstToken(cs: seq<Client>, i: nat, c': Client, token: string)
    requires i < |cs| && c'.tokenHash == cs[i].tokenHash && c'.blacklisted == cs[i].blacklisted
    ensures FindByToken(cs[i := c'], token).Some? <==> FindByToken(cs, token).Some?
    ensures FindByToken(cs, token).Some? ==>
            FindByToken(cs[i := c'], token).value.blacklisted == FindByToken(cs, token).value.blacklisted
  {
    if i > 0 {
      SameFirstToken(cs[1..], i - 1, c', token);
      assert cs[i := c'][1..] == cs[1..][i - 1 := c'];
    } else {
      assert cs[i := c'][1..] == cs[1..];
    }
  }

  // --- what is never sent again ---

  /** The node holds a record of `k` other than the advertised one, and that one is not stamped after
      the node was last seen. */
  ghost predicate Stale(s: System, id: string, k: string) {
    && id in s.nodes && k != id
    && k in Held(s.nodes[id].peers) && Advert(s.reg, k).Some?
    && Held(s.nodes[id].peers)[k] != Advert(s.reg, k).value
    && FindByID(s.reg.clients, id).Some?
    && !Newer(StampOf(s.reg, k), FindByID(s.reg.clients, id).value.lastSeenAt)
  }

  /** Such a record survives a beat, at any later time: the node keeps the same wrong record, the hub
      goes on advertising the other one, and the node is as stale as before. */
  lemma StaleOnce(s: System, id: string, k: string, d: nat)
    requires Inv(s) && LetIn(s, id) && Stale(s, id, k)
    ensures var s' := Run(Step(s, Tick(d)), Beating(id));
            && Inv(s') && LetIn(s', id) && Stale(s', id, k)
            && Held(s'.nodes[id].peers)[k] == Held(s.nodes[id].peers)[k]
            && Advert(s'.reg, k) == Advert(s.reg, k)
  {
    var t := Step(s, Tick(d));
    StepInv(s, Tick(d));
    assert LetIn(t, id);
    var resp := BeatLands(t, id);
    var s' := Run(t, Beating(id));
    LetInIs(s, id);
    hide Inv, Run, Step, Heartbeat, Held, ApplyDelta, Advert, StampOf, FindByID, LetIn;
    BeatKeepsStale(t.reg, id, BeatRequest(t.nodes[id]), t.now, s'.reg, resp, t.nodes[id].peers, k) by {
      assert Inv(t);
    }
  }

  lemma BeatKeepsStale(reg: Registry, id: string, req: HeartbeatRequest, now: nat, reg': Registry,
                       resp: HeartbeatResponse, ps: seq<Peer>, k: string)
    requires UniqueIDs(reg.clients) && StampsBy(reg, now) && Serves(reg, id, req, now, reg', resp)
    requires req.have == PeerIDs(ps) && k != id && k in Held(ps) && Advert(reg, k).Some?
    requires FindByID(reg.clients, id).Some? && !Newer(StampOf(reg, k), FindByID(reg.clients, id).value.lastSeenAt)
    ensures var after := Held(ApplyDelta(ps, resp.add, resp.remove));
            k in after && after[k] == Held(ps)[k]
    ensures Advert(reg', k) == Advert(reg, k)
    ensures FindByID(reg'.clients, id).Some?
    ensures !Newer(StampOf(reg', k), FindByID(reg'.clients, id).value.lastSeenAt)
  {
    BeatResult(reg, id, req, now, reg', resp, ps, k);
    SameAdvert(reg, id, req, now, reg', resp, k);
    LastSeenIsNow(reg, id, req, now, reg', resp);
    StampBy(reg, now, k);
    BeatParts(reg, id, req, now, reg', resp);
    FullIsAdvert(reg', id, k);
  }

  /** Beats at any later times. */
  function DeltaBeats(id: string, delays: seq<nat>): seq<Event> {
    if delays == [] then [] else DeltaBeats(id, delays[..|delays| - 1]) + [Tick(delays[|delays| - 1])] + Beating(id)
  }

  /** However many beats follow, and whenever, the node keeps the wrong record as long as the hub's own
      does not change again. */
  lemma {:induction false} StaleForever(s: System, id: string, k: string, delays: seq<nat>)
    requires Inv(s) && LetIn(s, id) && Stale(s, id, k)
    ensures var s' := Run(s, DeltaBeats(id, delays));
            && Inv(s') && LetIn(s', id) && Stale(s', id, k)
            && Held(s'.nodes[id].peers)[k] == Held(s.nodes[id].peers)[k]
            && Advert(s'.reg, k) == Advert(s.reg, k)
  {
    hide Inv, LetIn, Step, Held, Advert;
    if delays != [] {
      var front, d := delays[..|delays| - 1], delays[|delays| - 1];
      StaleForever(s, id, k, front);
      var t := Run(s, DeltaBeats(id, front));
      RunAppend(s, DeltaBeats(id, front), [Tick(d)]);
      RunOne(t, Tick(d));
      RunAppend(s, DeltaBeats(id, front) + [Tick(d)], Beating(id));
      StaleOnce(t, id, k, d);
    }
  }

  function Serving(id: string): seq<Event> {
    [StartBeat(id), Auth(id), Serve(id)]
  }

  lemma ServingLands(s: System, id: string) returns (resp: HeartbeatResponse)
    requires Inv(s) && LetIn(s, id)
    ensures var t := Run(s, Serving(id));
            && Inv(t) && t.now == s.now && t.issued == s.issued && id in t.nodes
            && Serves(s.reg, id, BeatRequest(s.nodes[id]), s.now, t.reg, resp)
            && t.nodes[id] == AnsweredNode(Standing(s, id).nodes[id], id, t.reg, Beaten(resp))
  {
    hide Inv, LetIn, Step, BeatRequest, AnsweredNode, Heartbeat;
    resp := BeatIsServed(s, id);
    RunInv(s, Serving(id));
    RunTwo(s, StartBeat(id), Auth(id));
    RunAppend(s, [StartBeat(id), Auth(id)], [Serve(id)]);
    assert [StartBeat(id), Auth(id)] + [Serve(id)] == Serving(id);
    RunOne(Run(s, [StartBeat(id), Auth(id)]), Serve(id));
    BeatStands(s, id);
  }

  lemma RunTwo(s: System, a: Event, b: Event)
    ensures Run(s, [a, b]) == Step(Step(s, a), b)
  {
    hide Step;
    RunOne(s, a);
    RunAppend(s, [a], [b]);
    RunOne(Run(s, [a]), b);
    assert [a] + [b] == [a, b];
  }

  /** An answer that is served and lost: whatever differing records the node held it is stale for, although
      the answer carried those stamped since the node was last seen. */
  lemma LostIsStale(s: System, id: string, k: string)
    requires Inv(s) && LetIn(s, id)
    requires k != id && k in Held(s.nodes[id].peers) && Advert(s.reg, k).Some?
    requires Held(s.nodes[id].peers)[k] != Advert(s.reg, k).value
    ensures var t := Run(s, Serving(id));
            && id in t.nodes && t.nodes[id].flight.Answered? && t.nodes[id].flight.reply.Beaten?
            && var add := Held(t.nodes[id].flight.reply.beaten.add);
               (k in add <==> Newer(StampOf(s.reg, k), FindByID(s.reg.clients, id).value.lastSeenAt)) &&
               (k in add ==> add[k] == Advert(s.reg, k).value)
    ensures var u := Step(Run(s, Serving(id)), Lose(id));
            && Inv(u) && LetIn(u, id) && Stale(u, id, k)
            && u.nodes[id].peers == s.nodes[id].peers && Advert(u.reg, k) == Advert(s.reg, k)
  {
    var resp := ServingLands(s, id);
    var t := Run(s, Serving(id));
    var req, u := BeatRequest(s.nodes[id]), Step(t, Lose(id));
    StillLetIn(s, id, t.reg, resp);
    StepInv(t, Lose(id));
    LetInIs(s, id);
    LostNode(t, id);
    LostCarries(s.reg, id, req, s.now, t.reg, resp, s.nodes[id].peers, k);
    hide Step, Run, Inv, Heartbeat, Held, Advert, StampOf, FindByID, Authenticate, Full, DeltaSync.Settled,
        ValidHostOrEmpty;
  }

  lemma LostNode(s: System, id: string)
    requires id in s.nodes
    ensures var u := Step(s, Lose(id));
            && u.reg == s.reg && u.now == s.now && id in u.nodes
            && u.nodes[id].(doubt := {}) == s.nodes[id].(flight := Idle, doubt := {})
  {
  }

  lemma LostCarries(reg: Registry, id: string, req: HeartbeatRequest, now: nat, reg': Registry,
                    resp: HeartbeatResponse, ps: seq<Peer>, k: string)
    requires UniqueIDs(reg.clients) && StampsBy(reg, now) && Serves(reg, id, req, now, reg', resp)
    requires req.have == PeerIDs(ps) && k != id && k in Held(ps) && Advert(reg, k).Some?
    ensures FindByID(reg.clients, id).Some?
    ensures k in Held(resp.add) <==> Newer(StampOf(reg, k), FindByID(reg.clients, id).value.lastSeenAt)
    ensures k in Held(resp.add) ==> Held(resp.add)[k] == Advert(reg, k).value
    ensures Advert(reg', k) == Advert(reg, k)
    ensures FindByID(reg'.clients, id).Some? && !Newer(StampOf(reg', k), FindByID(reg'.clients, id).value.lastSeenAt)
  {
    DeltaContents(reg, id, req, now, reg', resp, k);
    SameAdvert(reg, id, req, now, reg', resp, k);
    LastSeenIsNow(reg, id, req, now, reg', resp);
    StampBy(reg, now, k);
    BeatParts(reg, id, req, now, reg', resp);
    FullIsAdvert(reg', id, k);
    HeldKeys(ps, k);
  }

  // --- joining undisturbed ---

  function Joining(id: string, token: string, key: string): seq<Event> {
    [StartJoin(id, token, key, "", 0, ""), Auth(id), Serve(id), Deliver(id)]
  }

  function JoinRequest(key: string): RegisterRequest {
    RegisterRequest(key, "", 0, "")
  }

  lemma JoinStands(s: System, id: string, token: string, key: string)
    requires Inv(s) && id !in s.nodes && token in s.issued && s.issued[token] == id && ValidKey(key)
    requires var c := Authenticate(s.reg, token); c.Some? && !c.value.blacklisted
    ensures Step(Step(s, StartJoin(id, token, key, "", 0, "")), Auth(id)) ==
            SetNode(s, id, Node(false, token, key, "", 0, [], Authed(Join(JoinRequest(key)), id), {}))
    ensures FindByID(s.reg.clients, id).Some?
  {
    ResolvesToOwner(s, token);
    AuthenticatedIsFound(s, token);
    hide Authenticate, Inv, FindByID, ValidKey;
    var n := Node(false, token, key, "", 0, [], Sent(Join(JoinRequest(key))), {});
    var s1 := SetNode(s, id, n);
    assert Step(s, StartJoin(id, token, key, "", 0, "")) == s1;
    assert s1.nodes[id := n.(flight := Authed(Join(JoinRequest(key)), id))] ==
           s.nodes[id := n.(flight := Authed(Join(JoinRequest(key)), id))];
  }

  lemma RegisterServes(reg: Registry, id: string, key: string, now: nat)
    requires ValidKey(key) && FindByID(reg.clients, id).Some?
    ensures var out := Register(reg, id, JoinRequest(key), now);
            out.Applied? && out.reply.Registered? && out.reply.registered.peers == BuildPeers(out.reg, id)
  {
    hide ValidKey, CheckAddrFree, BuildPeers;
  }

  /** A client that joins undisturbed ends with the full peer set. */
  lemma JoinLands(s: System, id: string, token: string, key: string)
    requires Inv(s) && id !in s.nodes && token in s.issued && s.issued[token] == id && ValidKey(key)
    requires var c := Authenticate(s.reg, token); c.Some? && !c.value.blacklisted
    ensures var s', reg' := Run(s, Joining(id, token, key)), Register(s.reg, id, JoinRequest(key), s.now).reg;
            && Register(s.reg, id, JoinRequest(key), s.now).Applied?
            && Inv(s') && s'.reg == reg' && s'.now == s.now && s'.issued == s.issued
            && s'.nodes.Keys == s.nodes.Keys + {id}
            && s'.nodes[id] == Node(true, token, key, "", 0, BuildPeers(reg', id), Idle, {})
  {
    JoinStands(s, id, token, key);
    RegisterServes(s.reg, id, key, s.now);
    RunInv(s, Joining(id, token, key));
    RunFour(s, StartJoin(id, token, key, "", 0, ""), Auth(id), Serve(id), Deliver(id));
    hide Inv, Run, Authenticate, ValidKey, Register, BuildPeers, Step;
    JoinDelivers(s, id, token, key);
  }

  lemma JoinDelivers(s: System, id: string, token: string, key: string)
    requires var out := Register(s.reg, id, JoinRequest(key), s.now);
             out.Applied? && out.reply.Registered? && out.reply.registered.peers == BuildPeers(out.reg, id)
    ensures var s2 := SetNode(s, id, Node(false, token, key, "", 0, [], Authed(Join(JoinRequest(key)), id), {}));
            var s', reg' := Step(Step(s2, Serve(id)), Deliver(id)), Register(s.reg, id, JoinRequest(key), s.now).reg;
            && s'.reg == reg' && s'.now == s.now && s'.issued == s.issued && s'.nodes.Keys == s.nodes.Keys + {id}
            && s'.nodes[id] == Node(true, token, key, "", 0, BuildPeers(reg', id), Idle, {})
  {
    var s2 := SetNode(s, id, Node(false, token, key, "", 0, [], Authed(Join(JoinRequest(key)), id), {}));
    hide Register, BuildPeers, Step, Full;
    ServedBy(s2, id, Join(JoinRequest(key)));
    Delivered(Step(s2, Serve(id)), id);
    OnlyNode(Step(s2, Serve(id)), id);
  }

  lemma OnlyNode(s: System, id: string)
    requires id in s.nodes
    ensures Step(s, Deliver(id)).nodes.Keys == s.nodes.Keys
  {
  }

  // --- a hub with two clients ---

  /** A hub as it is initialised. */
  function NewHub(ipRange: string, address: string, key: string): Registry {
    Registry(51821, 51820, "", ipRange, address, 51820, key, false, [], Unset, [])
  }

  function Start(hub: Registry): System {
    System(0, hub, map[], map[])
  }

  /** A pool with room for two clients beside the hub. */
  ghost predicate Roomy(hub: Registry) {
    && hub == NewHub(hub.ipRange, hub.address, hub.publicKey) && hub.publicKey != ""
    && RegistryOk(hub)
    && ParsePrefix(hub.ipRange).Some? && ParsePrefix(hub.ipRange).value.bits <= 29
  }

  /** Every prefix of up to 29 bits makes such a pool, with the hub at its default address. */
  lemma RoomyPool(p: Prefix, key: string)
    requires p.bits <= 29 && key != ""
    ensures FirstHost(PrefixText(p)).Ok?
    ensures Roomy(NewHub(PrefixText(p), FirstHost(PrefixText(p)).value, key))
  {
    PrefixTextParses(p);
    hide PrefixText, ParsePrefix, RegistryOk, FirstHost;
    FirstHostExists(PrefixText(p));
    InitialRegistry(NewHub(PrefixText(p), FirstHost(PrefixText(p)).value, key));
  }

  lemma FirstHostExists(range: string)
    requires ParsePrefix(range).Some?
    ensures FirstHost(range).Ok?
  {
    hide ParsePrefix;
  }

  function KeyOf(c: char): string {
    seq(43, _ => c) + "="
  }

  lemma KeyOfValid(c: char)
    requires KeyChar(c)
    ensures ValidKey(KeyOf(c))
  {
    FilterAll(KeyOf(c), x => x != '\r' && x != '\n');
  }

  predicate Named(c: Client, id: string, name: string, token: string) {
    c.id == id && c.name == name && c.tokenHash == Digest(token) && !c.blacklisted
  }

  /** The two clients, of which the second is called `name`. */
  predicate Pair(reg: Registry, name: string) {
    |reg.clients| == 2 && Named(reg.clients[0], "A", "a", "ta") && Named(reg.clients[1], "B", name, "tb")
  }

  lemma PairLookups(reg: Registry, name: string)
    requires Pair(reg, name) && name != "a"
    ensures IndexByID(reg.clients, "A") == 0 && IndexByID(reg.clients, "B") == 1
    ensures IndexByName(reg.clients, name) == 1
    ensures forall other :: other != "a" && other != name ==> IndexByName(reg.clients, other) == 2
    ensures FindByID(reg.clients, "A") == Some(reg.clients[0]) && FindByID(reg.clients, "B") == Some(reg.clients[1])
  {
    var cs := reg.clients;
    assert "A"[0] != "B"[0];
    C.FirstWithID(cs, "A", 0);
    C.FirstWithID(cs, "B", 1);
    C.FirstNamed(cs, name, 1);
    forall other | other != "a" && other != name ensures IndexByName(cs, other) == 2 {
      C.FirstNamed(cs, other, 2);
    }
  }

  lemma PairTokens(reg: Registry, name: string)
    requires Pair(reg, name)
    ensures Authenticate(reg, "ta") == Some(reg.clients[0])
    ensures Authenticate(reg, "tb") == Some(reg.clients[1])
    ensures !reg.clients[0].blacklisted && !reg.clients[1].blacklisted
  {
    TrimSpaceKeeps("ta");
    TrimSpaceKeeps("tb");
    assert "ta"[1] != "tb"[1];
    var more := reg.clients[1..];
    assert more[0] == reg.clients[1];
    assert FindByToken(more, "tb") == Some(reg.clients[1]);
  }

  /** Registering one of the two. */
  lemma PairRegisters(reg: Registry, name: string, i: nat, key: string, now: nat)
    requires Pair(reg, name) && name != "a" && i < 2
    requires Register(reg, reg.clients[i].id, JoinRequest(key), now).Applied?
    ensures var reg' := Register(reg, reg.clients[i].id, JoinRequest(key), now).reg;
            && Pair(reg', name) && reg'.clients[1 - i] == reg.clients[1 - i]
            && reg'.clients[i].publicKey == key
            && reg'.clients[i].lastSeenAt == At(now) && reg'.clients[i].updatedAt == At(now)
  {
    PairLookups(reg, name);
    hide ValidKey, CheckAddrFree, EndpointFrom, BuildPeers, InternalControlURL;
  }

  lemma AddStep(s: System, name: string, id: string, token: string)
    requires RegistryOk(s.reg) && s.nodes == map[] && |s.reg.clients| <= 1 && |name| == 1 && !IsSpace(name[0])
    requires ParsePrefix(s.reg.ipRange).Some? && ParsePrefix(s.reg.ipRange).value.bits <= 29
    requires IndexByName(s.reg.clients, name) == |s.reg.clients|
    requires Fresh(s, OpAdd(name, "", [], id, token)) && DrawsNewID(OpAdd(name, "", [], id, token), s.reg)
    ensures var s' := Step(s, Admin(OpAdd(name, "", [], id, token)));
            && |s'.reg.clients| == |s.reg.clients| + 1
            && s'.reg == s.reg.(clients := s.reg.clients + [s'.reg.clients[|s.reg.clients|]])
            && Named(s'.reg.clients[|s.reg.clients|], id, name, token)
            && s'.now == s.now && s'.nodes == map[] && s'.issued == s.issued[token := id]
            && RegistryOk(s'.reg)
  {
    var op := OpAdd(name, "", [], id, token);
    Room(s.reg, ParsePrefix(s.reg.ipRange).value);
    ApplyKeeps(op, s.reg, s.now);
    TrimSpaceKeeps(name);
    AddApplies(s.reg, name, id, token, s.now);
    NoNodes(s.reg, After(op, s.reg, s.now), s.now);
    hide RegistryOk, NextFreeText, UsedAddrs, ParsePrefix, Fresh, AddClient, NoteTies, TrimSpace, IndexByName,
        DrawsNewID, Step;
    AdminApplies(s, op);
  }

  lemma AdminApplies(s: System, op: Op)
    requires Administrative(op) && Fresh(s, op) && Apply(op, s.reg, s.now).Applied?
    ensures var reg' := After(op, s.reg, s.now);
            Step(s, Admin(op)) == s.(reg := reg', nodes := NoteTies(s.nodes, s.reg, reg', s.now),
                issued := Issue(s, op))
  {
    hide Apply, Fresh, NoteTies, Issue;
  }

  lemma NoNodes(reg: Registry, reg': Registry, now: nat)
    ensures NoteTies(map[], reg, reg', now) == map[]
  {
  }

  lemma Room(reg: Registry, p: Prefix)
    requires RegistryOk(reg) && ParsePrefix(reg.ipRange) == Some(p) && p.bits <= 29 && |reg.clients| <= 1
    ensures NextFreeText(reg.ipRange, UsedAddrs(reg)).Ok?
  {
    PoolCount(reg, p);
    hide *;
    SixHosts(p.bits);
  }

  lemma {:induction false} SixHosts(bits: nat)
    requires bits <= 29
    ensures Pow2(32 - bits) >= 8
    decreases 29 - bits
  {
    if bits < 29 {
      SixHosts(bits + 1);
    } else {
      assert Pow2(3) == 2 * Pow2(2);
    }
  }

  lemma AddApplies(reg: Registry, name: string, id: string, token: string, now: nat)
    requires name != "" && TrimSpace(name) == name && IndexByName(reg.clients, name) == |reg.clients|
    requires NextFreeText(reg.ipRange, UsedAddrs(reg)).Ok?
    ensures var out := AddClient(reg, name, "", [], id, token, now);
            && out.Applied? && out.reply.Created? && Named(out.reply.client, id, name, token)
            && out.reg == reg.(clients := reg.clients + [out.reply.client])
  {
    assert TrimSpace("") == "";
    hide NextFreeText, UsedAddrs, IndexByName, CheckAddrFree;
  }

  const ADD_BOTH: seq<Event> := [Admin(OpAdd("a", "", [], "A", "ta")), Admin(OpAdd("b", "", [], "B", "tb"))]

  lemma BothAdded(hub: Registry)
    requires Roomy(hub)
    ensures var s := Run(Start(hub), ADD_BOTH);
            && Inv(s) && Pair(s.reg, "b") && s.now == 0 && s.nodes == map[]
            && s.issued == map["ta" := "A", "tb" := "B"]
            && s.reg == hub.(clients := s.reg.clients)
  {
    var s0, add1, add2 := Start(hub), ADD_BOTH[0], ADD_BOTH[1];
    InitInv(s0);
    RunInv(s0, ADD_BOTH);
    RunAppend(s0, [add1], [add2]);
    RunOne(s0, add1);
    RunOne(Run(s0, [add1]), add2);
    assert [add1] + [add2] == ADD_BOTH;
    TrimSpaceKeeps("ta");
    TrimSpaceKeeps("tb");
    hide Inv, Run, Step, RegistryOk, ParsePrefix, TrimSpace;
    AddStep(s0, "a", "A", "ta");
    var s1 := Step(s0, add1);
    SecondIsNew(s1);
    AddStep(s1, "b", "B", "tb");
  }

  lemma SecondIsNew(s1: System)
    requires s1.issued == map["ta" := "A"] && |s1.reg.clients| == 1 && Named(s1.reg.clients[0], "A", "a", "ta")
    ensures Fresh(s1, OpAdd("b", "", [], "B", "tb")) && DrawsNewID(OpAdd("b", "", [], "B", "tb"), s1.reg)
    ensures IndexByName(s1.reg.clients, "b") == 1
    ensures s1.issued["tb" := "B"] == map["ta" := "A", "tb" := "B"]
  {
    TrimSpaceKeeps("tb");
    assert "ta"[1] != "tb"[1] && "A"[0] != "B"[0] && "a"[0] != "b"[0];
    C.FirstNamed(s1.reg.clients, "b", 1);
    C.FirstWithID(s1.reg.clients, "B", 1);
    forall v | v in s1.issued.Values ensures v == "A" {
    }
    assert |HUB_ID| == 11;
  }

  function SettingUp(): seq<Event> {
    ADD_BOTH + Joining("B", "tb", KeyOf('B')) + [Tick(1)] + Joining("A", "ta", KeyOf('A'))
  }

  /** Both registered, `A` in the second the clock shows and undisturbed since; it holds `B` under the
      name the hub advertises. */
  ghost predicate Joined(s: System) {
    && Inv(s) && Pair(s.reg, "b") && LetIn(s, "A") && s.now == 1
    && s.reg.clients[1].publicKey != ""
    && s.reg.clients[0].lastSeenAt == At(1)
    && Held(s.nodes["A"].peers) == Full(s.reg, "A")
    && s.nodes["A"].publicEndpoint == "" && s.nodes["A"].listenPort == 0
  }

  /** One of the two joins. */
  lemma PairJoins(s: System, i: nat, id: string, token: string, key: string)
    requires Inv(s) && Pair(s.reg, "b") && i < 2 && s.reg.clients[i].id == id &&
        s.reg.clients[i].tokenHash == Digest(token)
    requires id !in s.nodes && token in s.issued && s.issued[token] == id && ValidKey(key)
    ensures var s' := Run(s, Joining(id, token, key));
            && Inv(s') && Pair(s'.reg, "b") && s'.now == s.now && s'.issued == s.issued
            && s'.nodes.Keys == s.nodes.Keys + {id}
            && s'.nodes[id] == Node(true, token, key, "", 0, BuildPeers(s'.reg, id), Idle, {})
            && s'.reg.clients[i].publicKey == key && s'.reg.clients[i].lastSeenAt == At(s.now)
            && s'.reg.clients[1 - i] == s.reg.clients[1 - i]
  {
    PairTokens(s.reg, "b");
    hide Inv, Run, Register, Joining, Authenticate, ValidKey, BuildPeers;
    JoinLands(s, id, token, key);
    PairRegisters(s.reg, "b", i, key, s.now);
  }

  lemma DistinctTexts()
    ensures "ta" != "tb" && "A" != "B" && "a" != "b" && "c" != "b" && "c" != "a"
    ensures "A" != HUB_ID && "B" != HUB_ID
  {
    assert "ta"[1] != "tb"[1] && "A"[0] != "B"[0] && "a"[0] != "b"[0] && "c"[0] != "b"[0] && "c"[0] != "a"[0];
    assert |HUB_ID| == 11;
  }

  lemma BHasJoined(hub: Registry)
    requires Roomy(hub)
    ensures var s := Run(Start(hub), ADD_BOTH + Joining("B", "tb", KeyOf('B')));
            && Inv(s) && Pair(s.reg, "b") && s.now == 0 && "A" !in s.nodes
            && s.issued == map["ta" := "A", "tb" := "B"] && s.reg.clients[1].publicKey == KeyOf('B')
  {
    BothAdded(hub);
    RunAppend(Start(hub), ADD_BOTH, Joining("B", "tb", KeyOf('B')));
    KeyOfValid('B');
    DistinctTexts();
    hide Inv, Run, Joining, KeyOf, ValidKey, Roomy, Start, BuildPeers;
    PairJoins(Run(Start(hub), ADD_BOTH), 1, "B", "tb", KeyOf('B'));
  }

  lemma AJoins(s: System)
    requires Inv(s) && Pair(s.reg, "b") && s.now == 1 && "A" !in s.nodes
    requires s.issued == map["ta" := "A", "tb" := "B"] && s.reg.clients[1].publicKey != ""
    ensures Joined(Run(s, Joining("A", "ta", KeyOf('A'))))
  {
    KeyOfValid('A');
    DistinctTexts();
    hide Inv, Run, Joining, Authenticate, KeyOf, ValidKey, BuildPeers, Held;
    PairJoins(s, 0, "A", "ta", KeyOf('A'));
    hide Pair, Joined;
    AsJoined(Run(s, Joining("A", "ta", KeyOf('A'))), KeyOf('A'));
  }

  lemma AsJoined(s: System, key: string)
    requires Inv(s) && Pair(s.reg, "b") && s.now == 1 && "A" in s.nodes
    requires s.reg.clients[1].publicKey != "" && s.reg.clients[0].lastSeenAt == At(1)
    requires s.nodes["A"] == Node(true, "ta", key, "", 0, BuildPeers(s.reg, "A"), Idle, {})
    ensures Joined(s)
  {
    PairTokens(s.reg, "b");
    hide Inv, Authenticate, BuildPeers, Held, Named;
  }

  lemma BothJoined(hub: Registry)
    requires Roomy(hub)
    ensures Joined(Run(Start(hub), SettingUp()))
  {
    var first := ADD_BOTH + Joining("B", "tb", KeyOf('B'));
    var s3 := Run(Start(hub), first);
    BHasJoined(hub);
    TickOne(s3);
    RunAppend(Start(hub), first, [Tick(1)]);
    RunOne(s3, Tick(1));
    RunAppend(Start(hub), first + [Tick(1)], Joining("A", "ta", KeyOf('A')));
    assert KeyOf('B') != "";
    hide Inv, Run, Step, Joining, KeyOf, Roomy, Start, Joined;
    AJoins(Step(s3, Tick(1)));
  }

  lemma TickOne(s: System)
    requires Inv(s)
    ensures Inv(Step(s, Tick(1))) && Step(s, Tick(1)) == s.(now := s.now + 1)
  {
    StepInv(s, Tick(1));
    hide Inv;
  }

  const RENAME: Event := Admin(OpRename("b", "c"))

  /** Renaming `B`: the hub advertises the new name, stamped with the second the clock shows. */
  lemma Renamed(s: System)
    requires Inv(s) && Pair(s.reg, "b") && s.reg.clients[1].publicKey != "" && LetIn(s, "A")
    ensures var s' := Step(s, RENAME);
            && Inv(s') && Pair(s'.reg, "c") && s'.reg.clients[0] == s.reg.clients[0] && LetIn(s', "A")
            && s'.now == s.now && s'.nodes["A"].peers == s.nodes["A"].peers
            && s'.nodes["A"].(doubt := {}) == s.nodes["A"].(doubt := {})
            && Advert(s.reg, "B").Some? && Advert(s.reg, "B").value.name == "b"
            && Advert(s'.reg, "B").Some? && Advert(s'.reg, "B").value.name == "c"
            && StampOf(s'.reg, "B") == At(s.now)
  {
    var reg' := RenameClient(s.reg, "b", "c", s.now).reg;
    PairLookups(s.reg, "b");
    TrimSpaceKeeps("c");
    DistinctTexts();
    assert RenameClient(s.reg, "b", "c", s.now) == Applied(reg', Done) && Pair(reg', "c");
    StepInv(s, RENAME);
    PairLookups(reg', "c");
    PairTokens(s.reg, "b");
    PairTokens(reg', "c");
    hide Inv, Authenticate, RenameClient, Tied, IndexByID, IndexByName, AllowedIPs, FindByID, Step;
    AdminApplies(s, RENAME.op);
    TokenOfA(s);
  }

  /** The node `A` uses the token it was handed out. */
  lemma TokenOfA(s: System)
    requires Inv(s) && Pair(s.reg, "b") && LetIn(s, "A")
    ensures s.nodes["A"].token == "ta"
  {
    LetInIs(s, "A");
    PairLookups(s.reg, "b");
  }

  /** A rename in the second of the observer's last serving is never sent. In every pool with room, the
      following run of a fresh hub ends, after any number of further beats at any times, with `A` holding
      `B` under the old name while the hub advertises the new one. */
  lemma SameSecondIsMissed(hub: Registry, delays: seq<nat>)
    requires Roomy(hub)
    ensures var s := Run(Start(hub), SettingUp() + [RENAME] + DeltaBeats("A", delays));
            && "A" in s.nodes && s.nodes["A"].joined
            && "B" in Held(s.nodes["A"].peers) && Held(s.nodes["A"].peers)["B"].name == "b"
            && "B" in Full(s.reg, "A") && Full(s.reg, "A")["B"].name == "c"
  {
    var s5 := Run(Start(hub), SettingUp());
    BothJoined(hub);
    RunAppend(Start(hub), SettingUp(), [RENAME]);
    RunOne(s5, RENAME);
    RunAppend(Start(hub), SettingUp() + [RENAME], DeltaBeats("A", delays));
    hide Run, Step, SettingUp, Inv, LetIn, Held, Full, Joined, Stale, Advert, Roomy, Start;
    RenameMakesStale(s5);
    var s6 := Step(s5, RENAME);
    StaleForever(s6, "A", "B", delays);
    AdvertisedIs(Run(s6, DeltaBeats("A", delays)), "A", "B");
    LetInJoined(Run(s6, DeltaBeats("A", delays)), "A");
  }

  lemma LetInJoined(s: System, id: string)
    requires LetIn(s, id)
    ensures id in s.nodes && s.nodes[id].joined
  {
    hide Authenticate;
  }

  lemma RenameMakesStale(s: System)
    requires Joined(s)
    ensures var s' := Step(s, RENAME);
            && Inv(s') && LetIn(s', "A") && Stale(s', "A", "B")
            && Held(s'.nodes["A"].peers)["B"].name == "b" && Advert(s'.reg, "B").value.name == "c"
  {
    hide Inv, LetIn, Step, Held, Full, Advert;
    assert "A" in s.nodes by {
      LetInJoined(s, "A");
    }
    Renamed(s);
    HeldNameB(s);
    PairLookups(Step(s, RENAME).reg, "c");
    DistinctTexts();
    LetInJoined(Step(s, RENAME), "A");
  }

  lemma HeldNameB(s: System)
    requires Inv(s) && LetIn(s, "A") && Advert(s.reg, "B").Some? && Advert(s.reg, "B").value.name == "b"
    requires Held(s.nodes["A"].peers) == Full(s.reg, "A")
    ensures "B" in Held(s.nodes["A"].peers) && Held(s.nodes["A"].peers)["B"].name == "b"
  {
    LetInIs(s, "A");
    DistinctTexts();
    FullIsAdvert(s.reg, "A", "B");
  }

  lemma AdvertisedIs(s: System, id: string, k: string)
    requires Inv(s) && LetIn(s, id) && k != id && Advert(s.reg, k).Some?
    ensures k in Full(s.reg, id) && Full(s.reg, id)[k] == Advert(s.reg, k).value
  {
    LetInIs(s, id);
    FullIsAdvert(s.reg, id, k);
  }

  /** A rename carried only by a lost answer is never sent again: one second later than in the run above
      it is served to `A`, the answer is lost, and any number of further beats leave the old name. */
  lemma LostAnswerIsMissed(hub: Registry, delays: seq<nat>)
    requires Roomy(hub)
    ensures var t := Run(Start(hub), SettingUp() + [Tick(1), RENAME] + Serving("A"));
            && "A" in t.nodes && t.nodes["A"].flight.Answered? && t.nodes["A"].flight.reply.Beaten?
            && "B" in Held(t.nodes["A"].flight.reply.beaten.add)
            && Held(t.nodes["A"].flight.reply.beaten.add)["B"].name == "c"
            && var s := Run(t, [Lose("A")] + DeltaBeats("A", delays));
            && "A" in s.nodes && s.nodes["A"].joined
            && "B" in Held(s.nodes["A"].peers) && Held(s.nodes["A"].peers)["B"].name == "b"
            && "B" in Full(s.reg, "A") && Full(s.reg, "A")["B"].name == "c"
  {
    var s5 := Run(Start(hub), SettingUp());
    BothJoined(hub);
    RunAppend(Start(hub), SettingUp(), [Tick(1), RENAME]);
    RunAppend(Start(hub), SettingUp() + [Tick(1), RENAME], Serving("A"));
    RunTwo(s5, Tick(1), RENAME);
    StepInv(s5, Tick(1));
    var s6 := Step(s5, Tick(1));
    assert s6 == s5.(now := 2);
    assert LetIn(s6, "A");
    hide Run, Step, SettingUp, Inv, LetIn, Held, Full;
    Renamed(s6);
    var s7 := Step(s6, RENAME);
    assert Advert(s5.reg, "B") == Advert(s6.reg, "B");
    HeldNameB(s5);
    PairLookups(s7.reg, "c");
    LostIsStale(s7, "A", "B");
    var t := Run(s7, Serving("A"));
    RunAppend(t, [Lose("A")], DeltaBeats("A", delays));
    RunOne(t, Lose("A"));
    var u := Step(t, Lose("A"));
    StaleForever(u, "A", "B", delays);
    AdvertisedIs(Run(u, DeltaBeats("A", delays)), "A", "B");
  }
}
