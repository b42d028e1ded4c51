/** The theorems about delta synchronisation, over every run of the system. */
module DeltaTheorems {
  import opened Base
  import opened DeltaSync
  import opened Effects
  import opened Mesh
  import opened PeerSet

  // --- every reachable state ---

  lemma StepInv(s: System, e: Event)
    requires Inv(s)
    ensures Inv(Step(s, e))
  {
    hide NodeOk, StampsBy, TokensOk, UniqueIDs, StepAdmin, StepServe, Authenticate, View;
    match e
    case Tick(d) => TickInv(s, d);
    case Admin(op) => AdminInv(s, op);
    case StartJoin(id, token, key, endpoint, port, address) => JoinInv(s, e);
    case StartBeat(id) => BeatInv(s, id);
    case Auth(id) => AuthInv(s, id);
    case Serve(id) =>
      if id in s.nodes && s.nodes[id].flight.Authed? {
        ServeInv(s, id);
      }
    case Deliver(id) => DeliverInv(s, id);
    case Lose(id) =>
      if id in s.nodes {
        LoseOk(s, id);
        NodeInv(s, id, Step(s, e).nodes[id]);
      }
    case Leave(id) =>
  }

  lemma TickInv(s: System, d: nat)
    requires Inv(s)
    ensures Inv(s.(now := s.now + d))
  {
    hide NodeOk;
  }

  lemma JoinInv(s: System, e: Event)
    requires Inv(s) && e.StartJoin?
    ensures Inv(Step(s, e))
  {
    var s' := Step(s, e);
    if s' != s {
      assert NodeOk(s.reg, s.issued, e.id, s'.nodes[e.id]);
      NodeInv(s, e.id, s'.nodes[e.id]);
    }
  }

  lemma BeatInv(s: System, id: string)
    requires Inv(s)
    ensures Inv(Step(s, StartBeat(id)))
  {
    if id in s.nodes && s.nodes[id].joined && s.nodes[id].flight.Idle? {
      var n := s.nodes[id];
      assert NodeOk(s.reg, s.issued, id, n);
      var n' := n.(flight := Sent(Beat(BeatRequest(n))));
      assert LostIDs(n'.flight) == LostIDs(n.flight);
      NodeInv(s, id, n');
    }
  }

  /** A token only ever resolves to the client it was issued for. */
  lemma ResolvesToOwner(s: System, token: string)
    requires TokensOk(s.reg, s.issued) && token in s.issued
    ensures Authenticate(s.reg, token).Some? ==> Authenticate(s.reg, token).value.id == s.issued[token]
  {
  }

  lemma AuthInv(s: System, id: string)
    requires Inv(s)
    ensures Inv(Step(s, Auth(id)))
  {
    if id in s.nodes && s.nodes[id].flight.Sent? {
      var n := s.nodes[id];
      assert NodeOk(s.reg, s.issued, id, n);
      ResolvesToOwner(s, n.token);
      var n' := Step(s, Auth(id)).nodes[id];
      hide Authenticate, Tracks;
      assert LostIDs(n'.flight) == LostIDs(n.flight);
      assert NodeOk(s.reg, s.issued, id, n');
      NodeInv(s, id, n');
    }
  }

  lemma DeliverInv(s: System, id: string)
    requires Inv(s)
    ensures Inv(Step(s, Deliver(id)))
  {
    if id in s.nodes && s.nodes[id].flight.Answered? {
      var n := s.nodes[id];
      assert NodeOk(s.reg, s.issued, id, n);
      var n' := n.(joined := true, peers := View(n), flight := Idle);
      assert n.doubt + LostIDs(Idle) == n.doubt;
      NodeInv(s, id, n');
    }
  }

  lemma {:induction false} RunInv(s: System, es: seq<Event>)
    requires Inv(s)
    ensures Inv(Run(s, es))
  {
    if es != [] {
      RunInv(s, es[..|es| - 1]);
      StepInv(Run(s, es[..|es| - 1]), es[|es| - 1]);
    }
  }

  // --- what a delivered answer leaves behind ---

  /** Steps that leave a node's pending answer pending. */
  predicate Spares(e: Event, id: string) {
    e != Deliver(id) && e != Lose(id)
  }

  lemma AnswerWaits(s: System, e: Event, id: string)
    requires id in s.nodes && s.nodes[id].flight.Answered? && Spares(e, id)
    ensures var s' := Step(s, e);
            id in s'.nodes && s'.nodes[id].flight == s.nodes[id].flight && s'.nodes[id].peers == s.nodes[id].peers
  {
  }

  lemma {:induction false} AnswerWaitsRun(s: System, es: seq<Event>, id: string)
    requires id in s.nodes && s.nodes[id].flight.Answered? && forall e :: e in es ==> Spares(e, id)
    ensures var s' := Run(s, es);
            id in s'.nodes && s'.nodes[id].flight == s.nodes[id].flight && s'.nodes[id].peers == s.nodes[id].peers
  {
    if es != [] {
      AnswerWaitsRun(s, es[..|es| - 1], id);
      AnswerWaits(Run(s, es[..|es| - 1]), es[|es| - 1], id);
    }
  }

  /** Nothing a step does puts node `o` in doubt: it does not lose a heartbeat's answer, and no
      advertised record changes within the second in which the hub last served it. */
  predicate CalmStep(s: System, e: Event, o: string) {
    && !(e == Lose(o) && o in s.nodes && LostIDs(s.nodes[o].flight) != {})
    && Tied(s.reg, Step(s, e).reg, o, s.now) == {}
  }

  predicate Calm(s: System, es: seq<Event>, o: string) {
    es == [] || (Calm(s, es[..|es| - 1], o) && CalmStep(Run(s, es[..|es| - 1]), es[|es| - 1], o))
  }

  lemma CalmKeepsTrust(s: System, e: Event, o: string)
    requires CalmStep(s, e, o) && (o in s.nodes ==> s.nodes[o].doubt == {})
    ensures o in Step(s, e).nodes ==> Step(s, e).nodes[o].doubt == {}
  {
  }

  lemma {:induction false} CalmRun(s: System, es: seq<Event>, o: string)
    requires Calm(s, es, o) && (o in s.nodes ==> s.nodes[o].doubt == {})
    ensures o in Run(s, es).nodes ==> Run(s, es).nodes[o].doubt == {}
  {
    if es != [] {
      CalmRun(s, es[..|es| - 1], o);
      CalmKeepsTrust(Run(s, es[..|es| - 1]), es[|es| - 1], o);
    }
  }

  /** Delta synchronisation refines full synchronisation. Take any run up to the moment the hub
      serves a request of node `id`, let anything happen until the answer is delivered: the node then
      holds exactly the ids the hub advertised to it at the moment of serving, and for every id not
      in doubt the advertised record. In a calm run nothing is in doubt and the cache is the full set. */
  lemma DeltaRefinesFull(s0: System, before: seq<Event>, id: string, during: seq<Event>)
    requires Init(s0)
    requires forall e :: e in during ==> Spares(e, id)
    requires var s1 := Run(s0, before);
             id in s1.nodes && s1.nodes[id].flight.Authed? && Step(s1, Serve(id)).nodes[id].flight.Answered?
    ensures var s2 := Step(Run(s0, before), Serve(id));
            var s4 := Step(Run(s2, during), Deliver(id));
            && id in s4.nodes && s4.nodes[id].joined
            && Agrees(Held(s4.nodes[id].peers), Full(s2.reg, id), s2.nodes[id].doubt)
            && (Calm(s0, before, id) ==> Held(s4.nodes[id].peers) == Full(s2.reg, id))
  {
    hide Step, Full, View, Held;
    var s1 := Run(s0, before);
    InitInv(s0);
    RunInv(s0, before);
    if Calm(s0, before, id) {
      CalmRun(s0, before, id);
    }
    StepInv(s1, Serve(id));
    ServedFull(s1, id);
    AnswerLands(Step(s1, Serve(id)), during, id);
  }

  lemma AnswerLands(s2: System, during: seq<Event>, id: string)
    requires Inv(s2) && id in s2.nodes && s2.nodes[id].flight.Answered?
    requires forall e :: e in during ==> Spares(e, id)
    ensures var s4, f := Step(Run(s2, during), Deliver(id)), s2.nodes[id].flight;
            id in s4.nodes && s4.nodes[id].joined && Agrees(Held(s4.nodes[id].peers), f.full, f.doubtThen)
  {
    assert NodeOk(s2.reg, s2.issued, id, s2.nodes[id]);
    hide Agrees, Tracks, ApplyDelta, Held;
    AnswerWaitsRun(s2, during, id);
    DeliverLands(Run(s2, during), id);
    assert View(Run(s2, during).nodes[id]) == View(s2.nodes[id]);
  }

  lemma DeliverLands(s: System, id: string)
    requires id in s.nodes && s.nodes[id].flight.Answered?
    ensures var s' := Step(s, Deliver(id));
            id in s'.nodes && s'.nodes[id].joined && s'.nodes[id].peers == View(s.nodes[id])
  {
  }

  /** What is remembered in the answer is the full set of the registry just saved. */
  lemma ServedFull(s: System, id: string)
    requires Inv(s) && id in s.nodes && s.nodes[id].flight.Authed?
    ensures id in Step(s, Serve(id)).nodes
    ensures var n' := Step(s, Serve(id)).nodes[id];
            n'.flight.Answered? ==>
              n'.flight.full == Full(Step(s, Serve(id)).reg, id) && n'.flight.doubtThen == n'.doubt &&
              n'.doubt <= s.nodes[id].doubt
  {
    assert NodeOk(s.reg, s.issued, id, s.nodes[id]);
  }

  /** In every reachable state a heartbeat about to be served repeats the key on record. */
  lemma BeatsRepeatKey(s: System, id: string)
    requires Inv(s) && id in s.nodes && s.nodes[id].flight.Authed? && s.nodes[id].flight.request.Beat?
    ensures var c := FindByID(s.reg.clients, id);
            s.nodes[id].flight.clientID == id &&
            (c.Some? ==> c.value.publicKey == s.nodes[id].flight.request.beat.publicKey)
  {
    assert NodeOk(s.reg, s.issued, id, s.nodes[id]);
  }

  /** So serving it changes nobody's key. */
  lemma BeatsKeepKeys(s: System, id: string, k: string)
    requires Inv(s) && id in s.nodes && s.nodes[id].flight.Authed? && s.nodes[id].flight.request.Beat?
    requires FindByID(s.reg.clients, k).Some?
    ensures var c' := FindByID(Step(s, Serve(id)).reg.clients, k);
            c'.Some? && c'.value.publicKey == FindByID(s.reg.clients, k).value.publicKey
  {
    BeatsRepeatKey(s, id);
    BeatKeepsKey(s.reg, id, s.nodes[id].flight.request.beat, s.now, k);
    hide Heartbeat, Inv;
  }

  lemma BeatKeepsKey(reg: Registry, id: string, req: HeartbeatRequest, now: nat, k: string)
    requires UniqueIDs(reg.clients) && FindByID(reg.clients, k).Some?
    requires Heartbeat(reg, id, req, now).Applied? ==>
               FindByID(reg.clients, id).Some? && req.publicKey == FindByID(reg.clients, id).value.publicKey
    ensures Heartbeat(reg, id, req, now).Applied? ==>
            var c' := FindByID(Heartbeat(reg, id, req, now).reg.clients, k);
            c'.Some? && c'.value.publicKey == FindByID(reg.clients, k).value.publicKey
  {
    if Heartbeat(reg, id, req, now).Applied? {
      var i := IndexByID(reg.clients, id);
      FindAfterSet(reg.clients, i, BeatSelf(reg, reg.clients[i], req, now), k);
    }
  }

  // --- one beat, exactly ---

  /** One delivered beat makes the cache equal to the full set if and only if every held record that
      differs from the advertised one is stamped after the client was last seen, and the client does
      not hold a hub that no longer has a key. */
  lemma BeatExact(reg: Registry, id: string, req: HeartbeatRequest, now: nat, reg': Registry,
                  resp: HeartbeatResponse, ps: seq<Peer>)
    requires UniqueIDs(reg.clients) && Serves(reg, id, req, now, reg', resp) && req.have == PeerIDs(ps)
    ensures var prev := FindByID(reg.clients, id).value.lastSeenAt;
            Held(ApplyDelta(ps, resp.add, resp.remove)) == Full(reg', id) <==>
            (reg.publicKey != "" || HUB_ID !in PeerIDs(ps)) &&
            forall k :: k in Held(ps) && k in Full(reg', id) && Held(ps)[k] != Full(reg', id)[k] ==>
              Newer(StampOf(reg', k), prev)
  {
    var after, full := Held(ApplyDelta(ps, resp.add, resp.remove)), Full(reg', id);
    var prev := FindByID(reg.clients, id).value.lastSeenAt;
    BeatParts(reg, id, req, now, reg', resp);
    forall k { BeatResult(reg, id, req, now, reg', resp, ps, k); }
    HeldKeys(ps, HUB_ID);
    FullIsAdvert(reg', id, HUB_ID);
    hide Full, Held, ApplyDelta, Heartbeat, Missing, Gone, StampOf, PeerIDs, UniqueIDs;
    MapsAgree(after, full, Held(ps), k => Newer(StampOf(reg', k), prev));
  }

  lemma MapsAgree(after: map<string, Peer>, full: map<string, Peer>, held: map<string, Peer>, newer: string -> bool)
    requires forall k :: k in full ==> k in after
    requires forall k :: k in full && (k !in held || newer(k)) ==> after[k] == full[k]
    requires forall k :: k in full && k in held && !newer(k) ==> after[k] == held[k]
    requires forall k :: k !in full ==> (k in after <==> k in held && k == HUB_ID)
    ensures after == full <==>
            (HUB_ID in held ==> HUB_ID in full) &&
            forall k :: k in held && k in full && held[k] != full[k] ==> newer(k)
  {
    assert after.Keys == full.Keys <==> (HUB_ID in held ==> HUB_ID in full);
    if after.Keys == full.Keys && forall k :: k in held && k in full && held[k] != full[k] ==> newer(k) {
      assert forall k :: k in full ==> after[k] == full[k];
    }
  }

  /** Membership heals in one beat: whatever was lost before, and whatever list without duplicates
      the client holds, a delivered beat leaves no duplicates and exactly the advertised ids, if and
      only if the hub has a key or is not held; Add and Remove never share an id. */
  lemma MembershipHeals(reg: Registry, id: string, req: HeartbeatRequest, now: nat, reg': Registry,
                        resp: HeartbeatResponse, ps: seq<Peer>)
    requires UniqueIDs(reg.clients) && Serves(reg, id, req, now, reg', resp)
    requires req.have == PeerIDs(ps) && DistinctIDs(ps)
    ensures DistinctIDs(ApplyDelta(ps, resp.add, resp.remove))
    ensures Held(ApplyDelta(ps, resp.add, resp.remove)).Keys == Full(reg', id).Keys <==>
            (reg.publicKey != "" || HUB_ID !in PeerIDs(ps))
    ensures forall k :: k in PeerIDs(resp.add) ==> k !in resp.remove
  {
    hide Full, Held, ApplyDelta, Heartbeat, Missing, Gone, StampOf, DistinctIDs;
    ApplyDeltaHeld(ps, resp.add, resp.remove);
    BeatParts(reg, id, req, now, reg', resp);
    forall k ensures k in PeerIDs(resp.add) ==> k !in resp.remove {
      DeltaContents(reg, id, req, now, reg', resp, k);
      HeldKeys(resp.add, k);
    }
    forall k { BeatResult(reg, id, req, now, reg', resp, ps, k); }
    HeldKeys(ps, HUB_ID);
    FullIsAdvert(reg', id, HUB_ID);
  }

  // --- quiescence ---

  /** Nothing an observer is shown, and nothing of its own record, has changed. */
  ghost predicate SameFor(reg1: Registry, reg2: Registry, id: string) {
    && FindByID(reg2.clients, id).Some? && FindByID(reg1.clients, id).Some?
    && FindByID(reg2.clients, id).value.lastSeenAt == FindByID(reg1.clients, id).value.lastSeenAt
    && forall k :: k != id ==> Advert(reg2, k) == Advert(reg1, k) && StampOf(reg2, k) == StampOf(reg1, k)
  }

  /** If nothing shown to a client changes between two of its delivered beats, the second carries
      nothing and leaves the cached list as it is, order included. */
  lemma Quiescent(reg0: Registry, id: string, req1: HeartbeatRequest, t1: nat, reg1: Registry, resp1: HeartbeatResponse,
                  ps: seq<Peer>, reg2: Registry, req2: HeartbeatRequest, t2: nat, reg3: Registry,
                      resp2: HeartbeatResponse)
    requires UniqueIDs(reg0.clients) && Serves(reg0, id, req1, t1, reg1, resp1) && req1.have == PeerIDs(ps)
    requires StampsBy(reg1, t1)
    requires UniqueIDs(reg2.clients) && SameFor(reg1, reg2, id)
    requires Serves(reg2, id, req2, t2, reg3, resp2)
    requires req2.have == PeerIDs(ApplyDelta(ps, resp1.add, resp1.remove))
    ensures resp2.add == [] && resp2.remove == []
    ensures var held := ApplyDelta(ps, resp1.add, resp1.remove); ApplyDelta(held, resp2.add, resp2.remove) == held
  {
    var held := ApplyDelta(ps, resp1.add, resp1.remove);
    BeatParts(reg0, id, req1, t1, reg1, resp1);
    BeatParts(reg2, id, req2, t2, reg3, resp2);
    forall k ensures k !in PeerIDs(resp2.add) && k !in resp2.remove {
      SecondBeatEmpty(reg0, id, req1, t1, reg1, resp1, ps, reg2, req2, t2, reg3, resp2, k);
    }
    HasMember(PeerIDs(resp2.add));
    HasMember(resp2.remove);
    FilterAll(held, (p: Peer) => p.id !in resp2.remove);
  }

  lemma HasMember<T>(s: seq<T>)
    ensures s != [] ==> exists x :: x in s
  {
    if s != [] {
      assert s[0] in s;
    }
  }

  lemma SecondBeatEmpty(reg0: Registry, id: string, req1: HeartbeatRequest, t1: nat, reg1: Registry,
                        resp1: HeartbeatResponse,
                        ps: seq<Peer>, reg2: Registry, req2: HeartbeatRequest, t2: nat, reg3: Registry,
                        resp2: HeartbeatResponse, k: string)
    requires UniqueIDs(reg0.clients) && Serves(reg0, id, req1, t1, reg1, resp1) && req1.have == PeerIDs(ps)
    requires StampsBy(reg1, t1)
    requires UniqueIDs(reg2.clients) && SameFor(reg1, reg2, id)
    requires Serves(reg2, id, req2, t2, reg3, resp2)
    requires req2.have == PeerIDs(ApplyDelta(ps, resp1.add, resp1.remove))
    ensures k !in PeerIDs(resp2.add) && k !in resp2.remove
  {
    var held := ApplyDelta(ps, resp1.add, resp1.remove);
    BeatParts(reg0, id, req1, t1, reg1, resp1);
    BeatParts(reg2, id, req2, t2, reg3, resp2);
    BeatResult(reg0, id, req1, t1, reg1, resp1, ps, k);
    DeltaContents(reg2, id, req2, t2, reg3, resp2, k);
    HeldKeys(resp2.add, k);
    HeldKeys(held, k);
    hide Heartbeat, ApplyDelta, Held, Full, BeatSelf;
    FullIsAdvert(reg1, id, k);
    FullIsAdvert(reg3, id, k);
    if k != id {
      SameAdvert(reg2, id, req2, t2, reg3, resp2, k);
      StampBy(reg1, t1, k);
      LastSeenIsNow(reg0, id, req1, t1, reg1, resp1);
    }
  }

  lemma LastSeenIsNow(reg: Registry, id: string, req: HeartbeatRequest, now: nat, reg': Registry,
                      resp: HeartbeatResponse)
    requires UniqueIDs(reg.clients) && Serves(reg, id, req, now, reg', resp)
    ensures FindByID(reg'.clients, id).Some? && FindByID(reg'.clients, id).value.lastSeenAt == At(now)
  {
    BeatParts(reg, id, req, now, reg', resp);
  }

  /** A heartbeat about to be served reports the ids its node holds, and serving it gives the answer the
      hub computes from them. */
  lemma BeatServedAs(s: System, id: string) returns (resp: HeartbeatResponse)
    requires Inv(s) && id in s.nodes && s.nodes[id].flight.Authed? && s.nodes[id].flight.request.Beat?
    requires Step(s, Serve(id)).nodes[id].flight.Answered?
    ensures var n, s' := s.nodes[id], Step(s, Serve(id));
            && n.flight.request.beat.have == PeerIDs(n.peers)
            && Serves(s.reg, id, n.flight.request.beat, s.now, s'.reg, resp)
            && s'.now == s.now && s'.nodes[id].flight.reply == Beaten(resp) && s'.nodes[id].peers == n.peers
  {
    assert NodeOk(s.reg, s.issued, id, s.nodes[id]);
    hide Inv, Tracks, Heartbeat, Full, Tied, Held;
    var req := s.nodes[id].flight.request.beat;
    assert Heartbeat(s.reg, id, req, s.now).Applied?;
    var reg';
    reg', resp := BeatOutcome(s.reg, id, req, s.now);
  }

  /** The same over runs. Serve a heartbeat of a node, deliver the answer whenever, and let anything happen
      that leaves what the hub shows the node, and the node's list, as they were: the next heartbeat is
      answered with nothing, and delivering that answer leaves the list as it is, order included. */
  lemma QuietRun(s0: System, before: seq<Event>, id: string, during: seq<Event>, between: seq<Event>)
    requires Init(s0) && forall e :: e in during ==> Spares(e, id)
    requires var s1 := Run(s0, before);
             id in s1.nodes && s1.nodes[id].flight.Authed? && s1.nodes[id].flight.request.Beat? &&
             Step(s1, Serve(id)).nodes[id].flight.Answered?
    requires var s2 := Step(Run(s0, before), Serve(id)); var s4 := Step(Run(s2, during), Deliver(id));
             var s5 := Run(s4, between);
             && id in s4.nodes && id in s5.nodes && s5.nodes[id].peers == s4.nodes[id].peers
             && SameFor(s2.reg, s5.reg, id)
             && s5.nodes[id].flight.Authed? && s5.nodes[id].flight.request.Beat?
             && Step(s5, Serve(id)).nodes[id].flight.Answered?
    ensures var s2 := Step(Run(s0, before), Serve(id)); var s4 := Step(Run(s2, during), Deliver(id));
            var s6 := Step(Run(s4, between), Serve(id));
            && s6.nodes[id].flight.reply.Beaten?
            && s6.nodes[id].flight.reply.beaten.add == [] && s6.nodes[id].flight.reply.beaten.remove == []
            && id in Step(s6, Deliver(id)).nodes && Step(s6, Deliver(id)).nodes[id].peers == s4.nodes[id].peers
  {
    hide Step, Inv, SameFor, View, Init;
    InitInv(s0);
    RunInv(s0, before);
    var s1 := Run(s0, before);
    StepInv(s1, Serve(id));
    ServedFull(s1, id);
    var s2 := Step(s1, Serve(id));
    RunInv(s2, during);
    StepInv(Run(s2, during), Deliver(id));
    var s4 := Step(Run(s2, during), Deliver(id));
    RunInv(s4, between);
    AnswerWaitsRun(s2, during, id);
    DeliverLands(Run(s2, during), id);
    ServedFull(Run(s4, between), id);
    SecondBeatOf(s1, id, Run(s2, during), Run(s4, between));
  }

  lemma SecondBeatOf(s1: System, id: string, s3: System, s5: System)
    requires Inv(s1) && Inv(Step(s1, Serve(id))) && Inv(s5) && id in s1.nodes && id in s3.nodes && id in s5.nodes
    requires s1.nodes[id].flight.Authed? && s1.nodes[id].flight.request.Beat?
    requires id in Step(s1, Serve(id)).nodes
    requires var n2 := Step(s1, Serve(id)).nodes[id];
             n2.flight.Answered? && s3.nodes[id].flight == n2.flight && s3.nodes[id].peers == n2.peers
    requires s5.nodes[id].flight.Authed? && s5.nodes[id].flight.request.Beat? &&
        s5.nodes[id].peers == View(s3.nodes[id])
    requires SameFor(Step(s1, Serve(id)).reg, s5.reg, id)
    requires id in Step(s5, Serve(id)).nodes && Step(s5, Serve(id)).nodes[id].flight.Answered?
    ensures var s6 := Step(s5, Serve(id));
            && s6.nodes[id].flight.reply.Beaten?
            && s6.nodes[id].flight.reply.beaten.add == [] && s6.nodes[id].flight.reply.beaten.remove == []
            && id in Step(s6, Deliver(id)).nodes && Step(s6, Deliver(id)).nodes[id].peers == s5.nodes[id].peers
  {
    var n1, n5 := s1.nodes[id], s5.nodes[id];
    var resp1 := BeatServedAs(s1, id);
    var resp2 := BeatServedAs(s5, id);
    var s2, s6 := Step(s1, Serve(id)), Step(s5, Serve(id));
    DeliverLands(s6, id);
    hide Step, Heartbeat, SameFor, ApplyDelta, Held;
    assert UniqueIDs(s1.reg.clients) && UniqueIDs(s5.reg.clients) && StampsBy(s2.reg, s1.now);
    hide Inv, UniqueIDs, StampsBy;
    Quiescent(s1.reg, id, n1.flight.request.beat, s1.now, s2.reg, resp1, n1.peers,
              s5.reg, n5.flight.request.beat, s5.now, s6.reg, resp2);
  }
}
