/** Who is let in: blacklisting and token resolution over whole runs. */
module Safety {
  import opened Base
  import opened DeltaSync
  import opened DeltaTheorems
  import opened Effects
  import opened IpAlloc
  import opened Mesh
  import opened PeerSet
  import V = Views

  function NamedID(reg: Registry, name: string): Option<string> {
    var i := IndexByName(reg.clients, name);
    if i < |reg.clients| then Some(reg.clients[i].id) else None
  }

  predicate OpRemoves(op: Op, reg: Registry, k: string) {
    op.OpRemove? && NamedID(reg, op.name) == Some(k)
  }

  predicate OpRotates(op: Op, reg: Registry, k: string) {
    op.OpRegen? && NamedID(reg, op.name) == Some(k)
  }

  predicate OpFlags(op: Op, reg: Registry, k: string) {
    op.OpBlacklist? && NamedID(reg, op.name) == Some(k)
  }

  /** What one operation makes of a client's presence, token and flag. */
  predicate Affects(op: Op, reg: Registry, k: string, c: Client, after: Option<Client>) {
    if OpRemoves(op, reg, k) then after.None?
    else
      && after.Some?
      && after.value.tokenHash == (if OpRotates(op, reg, k) then Digest(op.token) else c.tokenHash)
      && after.value.blacklisted == (if OpFlags(op, reg, k) then op.blacklisted else c.blacklisted)
  }

  /** Of all of administration, only removing a client takes it away, only rotating its token changes
      its token, and only setting its flag changes its flag. */
  lemma AdminAffects(op: Op, reg: Registry, now: nat, k: string)
    requires UniqueIDs(reg.clients) && Administrative(op)
    requires op.OpAdd? ==> NewID(reg, op.id)
    requires FindByID(reg.clients, k).Some?
    ensures Affects(op, reg, k, FindByID(reg.clients, k).value, FindByID(After(op, reg, now).clients, k))
  {
    hide AddClient, RemoveClient, RenameClient, RegenToken, SetBlacklist, AddRoutes, RemoveRoutes, FindByID;
    if Apply(op, reg, now).Applied? {
      match op
      case OpAdd(_, _, _, _, _) => AddAffects(op, reg, now, k);
      case OpRemove(_) => RemoveAffects(op, reg, now, k);
      case OpRename(name, _) => OneAffected(op, reg, now, IndexByName(reg.clients, name), k);
      case OpRegen(name, _) => OneAffected(op, reg, now, IndexByName(reg.clients, name), k);
      case OpBlacklist(name, _) => OneAffected(op, reg, now, IndexByName(reg.clients, name), k);
      case OpAddRoutes(node, _) => RoutesKeep(op, node, reg, now, k);
      case OpRemoveRoutes(node, _) => RoutesKeep(op, node, reg, now, k);
    } else {
      RefusedNames(op, reg, now, k);
    }
  }

  /** Removing, rotating and flagging are refused only when nobody has the name. */
  lemma RefusedNames(op: Op, reg: Registry, now: nat, k: string)
    requires Apply(op, reg, now).Refused?
    ensures !OpRemoves(op, reg, k) && !OpRotates(op, reg, k) && !OpFlags(op, reg, k)
  {
    hide AddClient, RenameClient, AddRoutes, RemoveRoutes, Register, Heartbeat;
  }

  lemma AddAffects(op: Op, reg: Registry, now: nat, k: string)
    requires UniqueIDs(reg.clients) && op.OpAdd? && NewID(reg, op.id) && FindByID(reg.clients, k).Some?
    requires Apply(op, reg, now).Applied?
    ensures Affects(op, reg, k, FindByID(reg.clients, k).value, FindByID(After(op, reg, now).clients, k))
  {
    hide NextFreeText, CheckAddrFree, CanonRoutes, TrimSpace;
    FindAfterAppend(reg.clients, Apply(op, reg, now).reply.client, k);
  }

  lemma RemoveAffects(op: Op, reg: Registry, now: nat, k: string)
    requires UniqueIDs(reg.clients) && op.OpRemove? && FindByID(reg.clients, k).Some?
    requires Apply(op, reg, now).Applied?
    ensures Affects(op, reg, k, FindByID(reg.clients, k).value, FindByID(After(op, reg, now).clients, k))
  {
    FindAfterSplice(reg.clients, IndexByName(reg.clients, op.name), k);
  }

  lemma OneAffected(op: Op, reg: Registry, now: nat, i: nat, k: string)
    requires UniqueIDs(reg.clients) && FindByID(reg.clients, k).Some?
    requires (op.OpRename? || op.OpRegen? || op.OpBlacklist?) && i == IndexByName(reg.clients, op.name)
    requires Apply(op, reg, now).Applied?
    ensures Affects(op, reg, k, FindByID(reg.clients, k).value, FindByID(After(op, reg, now).clients, k))
  {
    hide TrimSpace;
    FindAfterSet(reg.clients, i, After(op, reg, now).clients[i], k);
    IndexOfClient(reg.clients, i);
  }

  lemma RoutesKeep(op: Op, node: string, reg: Registry, now: nat, k: string)
    requires UniqueIDs(reg.clients) && (op.OpAddRoutes? || op.OpRemoveRoutes?) && op.node == node
    requires Apply(op, reg, now).Applied? && FindByID(reg.clients, k).Some?
    ensures Affects(op, reg, k, FindByID(reg.clients, k).value, FindByID(After(op, reg, now).clients, k))
  {
    hide CanonRoutes, Filter;
    if !IsHub(node) {
      var i := IndexByName(reg.clients, node);
      FindAfterSet(reg.clients, i, After(op, reg, now).clients[i], k);
      IndexOfClient(reg.clients, i);
    }
  }

  lemma AnswerKeeps(request: Request, cid: string, reg: Registry, now: nat, k: string)
    requires UniqueIDs(reg.clients) && Answer(request, cid, reg, now).Applied? && FindByID(reg.clients, k).Some?
    ensures var c, c' := FindByID(reg.clients, k).value, FindByID(Answer(request, cid, reg, now).reg.clients, k);
            c'.Some? && c'.value.blacklisted == c.blacklisted && c'.value.tokenHash == c.tokenHash &&
            (k != cid ==> c'.value == c)
  {
    var i := IndexByID(reg.clients, cid);
    FindAfterSet(reg.clients, i, Answer(request, cid, reg, now).reg.clients[i], k);
  }

  /** An event that removes client `k`. */
  predicate Removes(s: System, e: Event, k: string) {
    e.Admin? && OpRemoves(e.op, s.reg, k)
  }

  /** An event that gives client `k` another token. */
  predicate Rotates(s: System, e: Event, k: string) {
    e.Admin? && OpRotates(e.op, s.reg, k) && Fresh(s, e.op)
  }

  /** An event that sets the flag of client `k`. */
  predicate Flags(s: System, e: Event, k: string) {
    e.Admin? && OpFlags(e.op, s.reg, k)
  }

  /** What one step makes of a client: it goes away exactly when it is removed, its token changes exactly
      when it is rotated, and its flag becomes what it is set to and otherwise stays. */
  lemma StepAffects(s: System, e: Event, k: string)
    requires Inv(s) && FindByID(s.reg.clients, k).Some?
    ensures var c, after := FindByID(s.reg.clients, k).value, FindByID(Step(s, e).reg.clients, k);
            && (after.None? <==> Removes(s, e, k))
            && (after.Some? ==> (after.value.tokenHash != c.tokenHash <==> Rotates(s, e, k)))
            && (after.Some? ==> after.value.blacklisted == if Flags(s, e, k) then e.op.blacklisted else c.blacklisted)
  {
    hide Apply, Answer, NodeOk;
    if e.Admin? && Administrative(e.op) && Fresh(s, e.op) {
      if e.op.OpAdd? {
        FreshIsNew(s, e.op.id);
      }
      AdminAffects(e.op, s.reg, s.now, k);
      KnownToken(s, k);
    } else if e.Serve? && e.id in s.nodes && s.nodes[e.id].flight.Authed? {
      var f := s.nodes[e.id].flight;
      if Answer(f.request, f.clientID, s.reg, s.now).Applied? {
        AnswerKeeps(f.request, f.clientID, s.reg, s.now, k);
      }
    }
  }

  lemma KnownToken(s: System, k: string)
    requires TokensOk(s.reg, s.issued) && FindByID(s.reg.clients, k).Some?
    ensures FindByID(s.reg.clients, k).value.tokenHash.token in s.issued
  {
    assert FindByID(s.reg.clients, k).value in s.reg.clients;
  }

  // --- blacklisting ---

  predicate Blacklisted(reg: Registry, c: string) {
    FindByID(reg.clients, c).Some? && FindByID(reg.clients, c).value.blacklisted
  }

  /** An event that ends a client's blacklisting: it lifts the flag, or removes the client. */
  predicate Lifts(s: System, e: Event, c: string) {
    Removes(s, e, c) || (Flags(s, e, c) && !e.op.blacklisted)
  }

  /** No event of the run lifts the blacklisting of `c`; its token may be rotated, it may be renamed,
      routed or blacklisted again. */
  predicate NeverLifted(s: System, es: seq<Event>, c: string) {
    es == [] || (NeverLifted(s, es[..|es| - 1], c) && !Lifts(Run(s, es[..|es| - 1]), es[|es| - 1], c))
  }

  /** One step ends a blacklisting exactly when it lifts it. */
  lemma StepStaysBlacklisted(s: System, e: Event, c: string)
    requires Inv(s) && Blacklisted(s.reg, c)
    ensures Blacklisted(Step(s, e).reg, c) <==> !Lifts(s, e, c)
  {
    StepAffects(s, e, c);
    hide Step, Inv;
  }

  lemma {:induction false} StaysBlacklisted(s: System, es: seq<Event>, c: string)
    requires Inv(s) && Blacklisted(s.reg, c) && NeverLifted(s, es, c)
    ensures Inv(Run(s, es)) && Blacklisted(Run(s, es).reg, c)
  {
    RunInv(s, es);
    hide Step, Inv, Blacklisted, Lifts;
    if es != [] {
      StaysBlacklisted(s, es[..|es| - 1], c);
      StepStaysBlacklisted(Run(s, es[..|es| - 1]), es[|es| - 1], c);
    }
  }

  /** Until it is lifted, in every state of the run the client is in nobody's full peer set, and the hub's
      own interface is what it would be without that client. */
  lemma HiddenThroughout(s: System, es: seq<Event>, c: string, o: string)
    requires Inv(s) && Blacklisted(s.reg, c) && NeverLifted(s, es, c) && o != HUB_ID
    ensures var cs, i := Run(s, es).reg.clients, IndexByID(Run(s, es).reg.clients, c);
            && c !in Full(Run(s, es).reg, o)
            && i < |cs| && V.DesiredPeers(cs) == V.DesiredPeers(V.Without(cs, i))
  {
    StaysBlacklisted(s, es, c);
    hide Run, Full, V.DesiredPeers, V.Without;
    BlacklistedUnadvertised(Run(s, es).reg, o, c);
    V.DesiredSplit(Run(s, es).reg.clients, IndexByID(Run(s, es).reg.clients, c));
  }

  /** While blacklisted, a client is advertised to nobody, and every beat that reports it is told to
      remove it. */
  lemma BlacklistHides(reg: Registry, c: string, o: string, req: HeartbeatRequest, now: nat,
                       reg': Registry, resp: HeartbeatResponse)
    requires UniqueIDs(reg.clients) && Blacklisted(reg, c)
    requires Serves(reg, o, req, now, reg', resp)
    ensures c !in Full(reg, o) && c !in PeerIDs(resp.add)
    ensures c in req.have ==> c in resp.remove
  {
    BeatParts(reg, o, req, now, reg', resp);
    FullIsAdvert(reg, o, c);
    FullIsAdvert(reg', o, c);
    AnswerKeeps(Beat(req), o, reg, now, c);
    DeltaContents(reg, o, req, now, reg', resp, c);
    HeldKeys(resp.add, c);
    var k := FindByID(reg.clients, c).value;
    assert k in reg.clients && k.id == c;
  }

  /** A node that neither holds nor is about to be given client `c`. */
  predicate Without(n: Node, c: string) {
    c !in Held(n.peers) && c !in Held(View(n))
  }

  lemma StepStaysWithout(s: System, e: Event, o: string, c: string)
    requires Inv(s) && Blacklisted(s.reg, c) && !Lifts(s, e, c)
    requires o in s.nodes ==> Without(s.nodes[o], c)
    ensures o in Step(s, e).nodes ==> Without(Step(s, e).nodes[o], c)
  {
    hide Apply, Answer, Authenticate, Held, ApplyDelta, NodeOk, StampsBy, TokensOk, UniqueIDs, Tied, BeatRequest;
    HeldNothing();
    if e.Serve? && e.id == o && o in s.nodes && s.nodes[o].flight.Authed? {
      StepInv(s, e);
      StepStaysBlacklisted(s, e, c);
      ServedWithout(s, o, c);
    }
  }

  lemma HeldNothing()
    ensures Held([]) == map[]
  {
  }

  lemma BlacklistedUnadvertised(reg: Registry, o: string, c: string)
    requires UniqueIDs(reg.clients) && Blacklisted(reg, c) && o != HUB_ID
    ensures c !in Full(reg, o)
  {
    FullIsAdvert(reg, o, c);
  }

  lemma ServedWithout(s: System, o: string, c: string)
    requires Inv(s) && o in s.nodes && s.nodes[o].flight.Authed? && Without(s.nodes[o], c)
    requires Inv(StepServe(s, o)) && Blacklisted(StepServe(s, o).reg, c)
    ensures Without(StepServe(s, o).nodes[o], c)
  {
    hide Apply, Answer, Held, ApplyDelta, Tracks, BeatRequest, Advert;
    var s' := StepServe(s, o);
    var n' := s'.nodes[o];
    ServedFull(s, o);
    assert NodeOk(s'.reg, s'.issued, o, n');
    if n'.flight.Answered? {
      assert o != HUB_ID by {
        assert NodeOk(s.reg, s.issued, o, s.nodes[o]);
        assert s.issued[s.nodes[o].token] in s.issued.Values;
      }
      BlacklistedUnadvertised(s'.reg, o, c);
    }
  }

  /** Over any run that does not lift it, a node that is without a blacklisted client stays without. */
  lemma {:induction false} NeverRegained(s: System, es: seq<Event>, o: string, c: string)
    requires Inv(s) && Blacklisted(s.reg, c) && NeverLifted(s, es, c)
    requires o in s.nodes ==> Without(s.nodes[o], c)
    ensures o in Run(s, es).nodes ==> Without(Run(s, es).nodes[o], c)
  {
    if es != [] {
      NeverRegained(s, es[..|es| - 1], o, c);
      StaysBlacklisted(s, es[..|es| - 1], c);
      StepStaysWithout(Run(s, es[..|es| - 1]), es[|es| - 1], o, c);
    }
  }

  /** No request of `c` stands authenticated. */
  predicate ShutOut(s: System, c: string) {
    c in s.nodes ==> !s.nodes[c].flight.Authed?
  }

  /** The node of `c` is in flight exactly as it was. */
  predicate SameFlight(s: System, s': System, c: string) {
    c in s.nodes && c in s'.nodes && s'.nodes[c].flight == s.nodes[c].flight
  }

  /** While `c` is blacklisted a step either leaves its flight as it was or leaves nothing of it
      authenticated, so no further request of `c` gets in; serving one that was in uses it up, and with
      none in no serving touches its record. */
  lemma StepShutsOut(s: System, e: Event, c: string)
    requires Inv(s) && Blacklisted(s.reg, c)
    ensures ShutOut(Step(s, e), c) || SameFlight(s, Step(s, e), c)
    ensures e == Serve(c) ==> ShutOut(Step(s, e), c)
    ensures ShutOut(s, c) && e.Serve? ==>
            FindByID(Step(s, e).reg.clients, c) == FindByID(s.reg.clients, c)
  {
    if e == Auth(c) && c in s.nodes && s.nodes[c].flight.Sent? {
      assert NodeOk(s.reg, s.issued, c, s.nodes[c]);
      ResolvesToOwner(s, s.nodes[c].token);
      AuthenticatedIsFound(s, s.nodes[c].token);
    } else if e.Serve? && e.id in s.nodes && s.nodes[e.id].flight.Authed? {
      assert NodeOk(s.reg, s.issued, e.id, s.nodes[e.id]);
      var f := s.nodes[e.id].flight;
      hide Answer, Held, Tracks;
      if Answer(f.request, f.clientID, s.reg, s.now).Applied? {
        AnswerKeeps(f.request, f.clientID, s.reg, s.now, c);
      }
    } else {
      hide Apply, Answer, Authenticate, Inv;
    }
  }

  lemma AuthenticatedIsFound(s: System, token: string)
    requires UniqueIDs(s.reg.clients)
    ensures var c := Authenticate(s.reg, token); c.Some? ==> FindByID(s.reg.clients, c.value.id) == c
  {
    var c := Authenticate(s.reg, token);
    if c.Some? {
      var i :| 0 <= i < |s.reg.clients| && s.reg.clients[i] == c.value;
      IndexOfClient(s.reg.clients, i);
    }
  }

  /** Over any run that does not lift it, the only request of a blacklisted client that can still stand
      authenticated, and so be served, is the very one that stood so at the start; once that is gone the
      client stays shut out. */
  lemma {:induction false} OnlyEarlierRequestsServed(s: System, es: seq<Event>, c: string)
    requires Inv(s) && Blacklisted(s.reg, c) && NeverLifted(s, es, c)
    ensures ShutOut(Run(s, es), c) || SameFlight(s, Run(s, es), c)
    ensures ShutOut(s, c) ==> ShutOut(Run(s, es), c)
  {
    hide Step, Inv, Blacklisted, Lifts;
    if es != [] {
      var front := es[..|es| - 1];
      OnlyEarlierRequestsServed(s, front, c);
      StaysBlacklisted(s, front, c);
      StepShutsOut(Run(s, front), es[|es| - 1], c);
    }
  }

  /** After the first serving of a request of a blacklisted client there is no other. */
  lemma ServedAtMostOnce(s: System, before: seq<Event>, after: seq<Event>, c: string)
    requires Inv(s) && Blacklisted(s.reg, c) && NeverLifted(s, before, c)
    requires var s1 := Step(Run(s, before), Serve(c)); NeverLifted(s1, after, c)
    ensures ShutOut(Run(Step(Run(s, before), Serve(c)), after), c)
  {
    hide Step, Inv, Blacklisted, ShutOut;
    StaysBlacklisted(s, before, c);
    StepShutsOut(Run(s, before), Serve(c), c);
    StepInv(Run(s, before), Serve(c));
    StepStaysBlacklisted(Run(s, before), Serve(c), c);
    OnlyEarlierRequestsServed(Step(Run(s, before), Serve(c)), after, c);
  }

  // --- tokens ---

  /** In a reachable state at most one client matches a token. */
  lemma TokenMatchesOne(s: System, token: string, i: nat, j: nat)
    requires Inv(s) && i < |s.reg.clients| && j < |s.reg.clients|
    requires s.reg.clients[i].tokenHash == Digest(token) && s.reg.clients[j].tokenHash == Digest(token)
    ensures i == j
  {
    assert s.reg.clients[i] in s.reg.clients && s.reg.clients[j] in s.reg.clients;
  }

  /** Handed out, and no longer anybody's. */
  ghost predicate Dead(s: System, token: string) {
    token in s.issued && forall c :: c in s.reg.clients ==> c.tokenHash != Digest(token)
  }

  lemma DeadResolvesNowhere(s: System, token: string)
    requires Dead(s, token)
    ensures Authenticate(s.reg, token).None?
  {
  }

  lemma StepKeepsDead(s: System, e: Event, token: string)
    requires Inv(s) && Dead(s, token)
    ensures Dead(Step(s, e), token)
  {
    hide Apply, Answer, NodeOk, Authenticate, View;
    if e.Admin? && Administrative(e.op) && Fresh(s, e.op) && Apply(e.op, s.reg, s.now).Applied? {
      AdminKeepsTokens(s, e.op);
    } else if e.Serve? && e.id in s.nodes && s.nodes[e.id].flight.Authed? {
      var f := s.nodes[e.id].flight;
      if Answer(f.request, f.clientID, s.reg, s.now).Applied? {
        AnswerKeepsTokens(s.reg, f.request, f.clientID, s.now, s.issued);
      }
    }
  }

  /** A token that has been rotated away resolves to nobody for the rest of the run. */
  lemma {:induction false} DeadForever(s: System, es: seq<Event>, token: string)
    requires Inv(s) && Dead(s, token)
    ensures Authenticate(Run(s, es).reg, token).None? && Dead(Run(s, es), token)
  {
    RunInv(s, es);
    if es == [] {
      DeadResolvesNowhere(s, token);
    } else {
      var front := es[..|es| - 1];
      DeadForever(s, front, token);
      RunInv(s, front);
      StepKeepsDead(Run(s, front), es[|es| - 1], token);
      DeadResolvesNowhere(Run(s, es), token);
    }
  }

  /** Rotation kills the old token of the client it names, and gives the new one to that client alone. */
  lemma RotationKills(s: System, name: string, token: string)
    requires Inv(s) && Fresh(s, OpRegen(name, token)) && NamedID(s.reg, name).Some?
    ensures var s' := Step(s, Admin(OpRegen(name, token)));
            var prior := s.reg.clients[IndexByName(s.reg.clients, name)];
            Dead(s', prior.tokenHash.token) &&
            Authenticate(s'.reg, token).Some? && Authenticate(s'.reg, token).value.id == prior.id
  {
    var cs, i := s.reg.clients, IndexByName(s.reg.clients, name);
    var s' := Step(s, Admin(OpRegen(name, token)));
    var cs' := s'.reg.clients;
    assert cs[i] in cs;
    assert cs' == cs[i := cs'[i]] && cs'[i].tokenHash == Digest(token);
    hide Apply, NodeOk, StepAdmin;
    forall j | 0 <= j < |cs'| ensures cs'[j].tokenHash != cs[i].tokenHash {
      if j != i {
        if cs[j].tokenHash == cs[i].tokenHash {
          TokenMatchesOne(s, cs[i].tokenHash.token, i, j);
          assert false;
        }
      } else {
        assert s.issued[cs[i].tokenHash.token] == cs[i].id;
      }
    }
    StepInv(s, Admin(OpRegen(name, token)));
    assert cs'[i] in cs';
    AuthenticateIs(s', token, i);
  }

  lemma AuthenticateIs(s: System, token: string, i: nat)
    requires Inv(s) && i < |s.reg.clients| && s.reg.clients[i].tokenHash == Digest(token) && TrimSpace(token) != ""
    ensures Authenticate(s.reg, token) == Some(s.reg.clients[i])
  {
    var r := FindByToken(s.reg.clients, token);
    assert s.reg.clients[i] in s.reg.clients;
    var j :| 0 <= j < |s.reg.clients| && s.reg.clients[j] == r.value;
    TokenMatchesOne(s, token, i, j);
  }

  /** Taking a client out of the registry leaves its token nobody's. */
  lemma RemovalKills(s: System, name: string)
    requires Inv(s) && NamedID(s.reg, name).Some?
    ensures Dead(Step(s, Admin(OpRemove(name))), s.reg.clients[IndexByName(s.reg.clients, name)].tokenHash.token)
  {
    var cs, i := s.reg.clients, IndexByName(s.reg.clients, name);
    var s' := Step(s, Admin(OpRemove(name)));
    assert cs[i] in cs;
    assert s'.reg.clients == cs[..i] + cs[i + 1..];
    hide Apply, NodeOk, StepAdmin;
    forall c | c in s'.reg.clients ensures c.tokenHash != cs[i].tokenHash {
      var j :| 0 <= j < |cs| && j != i && cs[j] == c;
      if c.tokenHash == cs[i].tokenHash {
        TokenMatchesOne(s, c.tokenHash.token, i, j);
        assert false;
      }
    }
  }

  /** An event that takes client `k`'s token away: it rotates the token or removes the client. */
  predicate Revokes(s: System, e: Event, k: string) {
    Removes(s, e, k) || Rotates(s, e, k)
  }

  /** One step ends a token's resolution exactly when it revokes it; otherwise the token resolves to the
      same client, whatever is done to that client or to others, its blacklisting included. */
  lemma StepKeepsResolution(s: System, e: Event, token: string)
    requires Inv(s) && Authenticate(s.reg, token).Some?
    ensures var k, after := Authenticate(s.reg, token).value.id, Authenticate(Step(s, e).reg, token);
            (after.Some? <==> !Revokes(s, e, k)) && (after.Some? ==> after.value.id == k)
  {
    var c := Authenticate(s.reg, token).value;
    AuthenticatedIsFound(s, token);
    if Revokes(s, e, c.id) {
      RevokedIsDead(s, e, token, c);
      DeadResolvesNowhere(Step(s, e), token);
    } else {
      StepAffects(s, e, c.id);
      StepInv(s, e);
      var s' := Step(s, e);
      hide Step, NodeOk;
      AuthenticateIs(s', token, IndexByID(s'.reg.clients, c.id));
    }
  }

  lemma RevokedIsDead(s: System, e: Event, token: string, c: Client)
    requires Inv(s) && Authenticate(s.reg, token) == Some(c) && Revokes(s, e, c.id)
    ensures Dead(Step(s, e), token)
  {
    var i := IndexByName(s.reg.clients, e.op.name);
    IndexOfClient(s.reg.clients, i);
    AuthenticatedIsFound(s, token);
    assert s.reg.clients[i] == c;
    hide Step, NodeOk;
    if Removes(s, e, c.id) {
      RemovalKills(s, e.op.name);
    } else {
      RotationKills(s, e.op.name, e.op.token);
    }
  }

  /** No event of the run revokes the token of client `k`. */
  predicate NeverRevoked(s: System, es: seq<Event>, k: string) {
    es == [] || (NeverRevoked(s, es[..|es| - 1], k) && !Revokes(Run(s, es[..|es| - 1]), es[|es| - 1], k))
  }

  /** So through every run a token resolves to its client until it is rotated or the client removed. */
  lemma {:induction false} ResolutionKept(s: System, es: seq<Event>, token: string)
    requires Inv(s) && Authenticate(s.reg, token).Some?
    requires NeverRevoked(s, es, Authenticate(s.reg, token).value.id)
    ensures Authenticate(Run(s, es).reg, token).Some?
    ensures Authenticate(Run(s, es).reg, token).value.id == Authenticate(s.reg, token).value.id
  {
    hide Step, Inv, Authenticate, Revokes;
    if es != [] {
      ResolutionKept(s, es[..|es| - 1], token);
      RunInv(s, es[..|es| - 1]);
      StepKeepsResolution(Run(s, es[..|es| - 1]), es[|es| - 1], token);
    }
  }
}
