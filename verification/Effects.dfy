/** What every operation does to the registry, record by record. */
module Effects {
  import opened Base
  import opened Mesh
  import opened PeerSet

  /** One client's record across one operation at `now`: whatever peers see of it changes only
      together with its update time; it appears, and its key and last-seen time change, only when the
      operation is its own. */
  predicate ClientEvolves(before: Option<Client>, after: Option<Client>, own: bool, now: nat) {
    match after
    case None => true
    case Some(c') =>
      match before
      case None => own && c'.publicKey == "" && c'.updatedAt == Unset && c'.lastSeenAt == Unset
      case Some(c) =>
        && c'.id == c.id
        && (c'.updatedAt == At(now) ||
            (c'.updatedAt == c.updatedAt && PeerOf(c') == PeerOf(c) && Active(c') == Active(c)))
        && (if own then c'.lastSeenAt == At(now)
            else c'.lastSeenAt == c.lastSeenAt && c'.publicKey == c.publicKey)
  }

  /** The hub's own advertised record across one operation. */
  predicate HubEvolves(reg: Registry, reg': Registry, now: nat) {
    && reg' == reg.(routes := reg'.routes, updatedAt := reg'.updatedAt, clients := reg'.clients)
    && (reg'.updatedAt == At(now) || (reg'.updatedAt == reg.updatedAt && reg'.routes == reg.routes))
  }

  ghost predicate Evolves(reg: Registry, reg': Registry, who: Option<string>, now: nat) {
    && UniqueIDs(reg'.clients)
    && HubEvolves(reg, reg', now)
    && forall k :: ClientEvolves(FindByID(reg.clients, k), FindByID(reg'.clients, k), who == Some(k), now)
  }

  /** Nothing changes. */
  lemma StaysEvolves(reg: Registry, now: nat)
    requires UniqueIDs(reg.clients)
    ensures Evolves(reg, reg, None, now)
  {
  }

  // --- lookups after an edit ---

  lemma FindAfterSet(cs: seq<Client>, i: nat, c': Client, k: string)
    requires UniqueIDs(cs) && i < |cs| && c'.id == cs[i].id
    ensures UniqueIDs(cs[i := c'])
    ensures FindByID(cs[i := c'], k) == if k == c'.id then Some(c') else FindByID(cs, k)
  {
    var cs' := cs[i := c'];
    assert forall j :: 0 <= j < |cs| ==> cs'[j].id == cs[j].id;
    var a, b := IndexByID(cs, k), IndexByID(cs', k);
    if b < |cs| {
      assert cs[b].id == k;
    }
    if a < |cs| {
      assert cs'[a].id == k;
    }
  }

  lemma FindAfterAppend(cs: seq<Client>, c: Client, k: string)
    requires UniqueIDs(cs) && FindByID(cs, c.id).None? && c.id != HUB_ID
    ensures UniqueIDs(cs + [c])
    ensures FindByID(cs + [c], k) == if k == c.id then Some(c) else FindByID(cs, k)
  {
    assert IndexByID(cs, c.id) == |cs|;
    var cs' := cs + [c];
    assert UniqueIDs(cs');
    FindInFront(cs', k);
    assert cs'[..|cs|] == cs;
  }

  lemma FindAfterSplice(cs: seq<Client>, i: nat, k: string)
    requires UniqueIDs(cs) && i < |cs|
    ensures UniqueIDs(cs[..i] + cs[i + 1..])
    ensures FindByID(cs[..i] + cs[i + 1..], k) == if k == cs[i].id then None else FindByID(cs, k)
  {
    var cs' := cs[..i] + cs[i + 1..];
    assert forall j :: 0 <= j < |cs'| ==> cs'[j] == if j < i then cs[j] else cs[j + 1];
    assert UniqueIDs(cs');
    var a, b := IndexByID(cs, k), IndexByID(cs', k);
    if b < |cs'| {
      assert cs[if b < i then b else b + 1].id == k;
    }
    if a < |cs| && a != i {
      assert cs'[if a < i then a else a - 1].id == k;
    }
  }

  /** Replacing one record evolves the registry when that record evolves. */
  lemma SetEvolves(reg: Registry, i: nat, c': Client, who: Option<string>, now: nat)
    requires UniqueIDs(reg.clients) && i < |reg.clients|
    requires ClientEvolves(Some(reg.clients[i]), Some(c'), who == Some(c'.id), now)
    requires who.Some? ==> who.value == c'.id
    ensures Evolves(reg, SetClient(reg, i, c'), who, now)
  {
    var reg' := SetClient(reg, i, c');
    IndexOfClient(reg.clients, i);
    forall k ensures ClientEvolves(FindByID(reg.clients, k), FindByID(reg'.clients, k), who == Some(k), now) {
      FindAfterSet(reg.clients, i, c', k);
    }
    FindAfterSet(reg.clients, i, c', "");
  }

  // --- the operations ---

  /** A client id that no record uses. */
  predicate NewID(reg: Registry, id: string) {
    FindByID(reg.clients, id).None? && id != HUB_ID
  }

  /** The client an operation belongs to: the one it creates, or the one that asked for it. */
  function Owner(op: Op): Option<string> {
    if op.OpAdd? || op.OpRegister? || op.OpBeat? then Some(op.id) else None
  }

  predicate Administrative(op: Op) {
    !op.OpRegister? && !op.OpBeat?
  }

  /** Administration never touches a key or a last-seen time, and stamps every record it changes
      the advertised view of. */
  lemma AdminEvolves(op: Op, reg: Registry, now: nat)
    requires UniqueIDs(reg.clients) && Administrative(op)
    requires op.OpAdd? ==> NewID(reg, op.id)
    ensures Evolves(reg, After(op, reg, now), Owner(op), now)
  {
    if Apply(op, reg, now).Refused? {
      StaysEvolves(reg, now);
      assert op.OpAdd? ==> FindByID(reg.clients, op.id).None?;
    } else {
      match op
      case OpAdd(name, address, cidrs, id, token) =>
        AddEvolves(reg, name, address, cidrs, id, token, now);
      case OpRemove(name) =>
        RemoveEvolves(reg, name, now);
      case OpRename(name, newName) =>
        var i := IndexByName(reg.clients, name);
        SetEvolves(reg, i, reg.clients[i].(name := TrimSpace(newName), updatedAt := At(now)), None, now);
      case OpRegen(name, token) =>
        var i := IndexByName(reg.clients, name);
        SetEvolves(reg, i, reg.clients[i].(tokenHash := Digest(token), updatedAt := At(now)), None, now);
      case OpBlacklist(name, b) =>
        var i := IndexByName(reg.clients, name);
        SetEvolves(reg, i, reg.clients[i].(blacklisted := b, updatedAt := At(now)), None, now);
      case OpAddRoutes(node, cidrs) =>
        var target := RoutesOf(reg, node).value;
        var added := Filter(CanonRoutes(cidrs).value, r => r !in target);
        assert added == [] ==> target + added == target;
        SetRoutesEvolves(reg, node, target + added, added != [], now);
      case OpRemoveRoutes(node, cidrs) =>
        var target, canon := RoutesOf(reg, node).value, CanonRoutes(cidrs).value;
        NothingRemoved(target, canon);
        SetRoutesEvolves(reg, node, Filter(target, r => r !in canon), Filter(target, r => r in canon) != [], now);
    }
  }

  lemma AddEvolves(reg: Registry, name: string, address: string, cidrs: seq<string>, id: string, token: string,
                   now: nat)
    requires UniqueIDs(reg.clients) && NewID(reg, id)
    requires AddClient(reg, name, address, cidrs, id, token, now).Applied?
    ensures Evolves(reg, AddClient(reg, name, address, cidrs, id, token, now).reg, Some(id), now)
  {
    var out := AddClient(reg, name, address, cidrs, id, token, now);
    var c := out.reply.client;
    assert out.reg == reg.(clients := reg.clients + [c]);
    forall k ensures ClientEvolves(FindByID(reg.clients, k), FindByID(out.reg.clients, k), k == id, now) {
      FindAfterAppend(reg.clients, c, k);
    }
    FindAfterAppend(reg.clients, c, "");
  }

  lemma RemoveEvolves(reg: Registry, name: string, now: nat)
    requires UniqueIDs(reg.clients) && RemoveClient(reg, name).Applied?
    ensures Evolves(reg, RemoveClient(reg, name).reg, None, now)
  {
    var i := IndexByName(reg.clients, name);
    var reg' := RemoveClient(reg, name).reg;
    forall k ensures ClientEvolves(FindByID(reg.clients, k), FindByID(reg'.clients, k), false, now) {
      FindAfterSplice(reg.clients, i, k);
    }
    FindAfterSplice(reg.clients, i, "");
  }

  lemma SetRoutesEvolves(reg: Registry, node: string, routes: seq<string>, touch: bool, now: nat)
    requires UniqueIDs(reg.clients) && RoutesOf(reg, node).Some?
    requires !touch ==> routes == RoutesOf(reg, node).value
    ensures Evolves(reg, SetRoutes(reg, node, routes, touch, now), None, now)
  {
    if IsHub(node) {
      StaysEvolves(reg, now);
    } else {
      var i := IndexByName(reg.clients, node);
      var c := reg.clients[i];
      SetEvolves(reg, i, c.(routes := routes, updatedAt := if touch then At(now) else c.updatedAt), None, now);
    }
  }

  lemma {:induction false} NothingRemoved(target: seq<string>, canon: seq<string>)
    ensures Filter(target, r => r in canon) == [] ==> Filter(target, r => r !in canon) == target
  {
    if target != [] {
      NothingRemoved(target[..|target| - 1], canon);
      assert target == target[..|target| - 1] + [target[|target| - 1]];
    }
  }

  lemma RegisterEvolves(reg: Registry, id: string, req: RegisterRequest, now: nat)
    requires UniqueIDs(reg.clients) && Register(reg, id, req, now).Applied?
    ensures Evolves(reg, Register(reg, id, req, now).reg, Some(id), now)
    ensures var c := FindByID(Register(reg, id, req, now).reg.clients, id);
            c.Some? && c.value.publicKey == req.publicKey
  {
    var i := IndexByID(reg.clients, id);
    var reg' := Register(reg, id, req, now).reg;
    SetEvolves(reg, i, reg'.clients[i], Some(id), now);
    FindAfterSet(reg.clients, i, reg'.clients[i], id);
  }

  /** A beat that repeats the recorded key stamps whatever it changes the advertised view of. */
  lemma BeatEvolves(reg: Registry, id: string, req: HeartbeatRequest, now: nat)
    requires UniqueIDs(reg.clients) && Heartbeat(reg, id, req, now).Applied?
    requires FindByID(reg.clients, id).Some? && req.publicKey == FindByID(reg.clients, id).value.publicKey
    ensures Evolves(reg, Heartbeat(reg, id, req, now).reg, Some(id), now)
    ensures var c := FindByID(Heartbeat(reg, id, req, now).reg.clients, id);
            c.Some? && c.value.publicKey == req.publicKey
  {
    var i := IndexByID(reg.clients, id);
    var reg' := Heartbeat(reg, id, req, now).reg;
    SetEvolves(reg, i, BeatSelf(reg, reg.clients[i], req, now), Some(id), now);
    FindAfterSet(reg.clients, i, reg'.clients[i], id);
  }

  /** What a beat does to its own record, whatever key it carries: others see a change exactly when the
      endpoint moves or a valid new key arrives, but only the endpoint's move is stamped. */
  lemma BeatStampsMovesOnly(reg: Registry, self: Client, req: HeartbeatRequest, now: nat)
    ensures var c' := BeatSelf(reg, self, req, now);
            var moves := req.publicEndpoint != "" && EndpointFrom(req.publicEndpoint, c'.listenPort) != self.endpoint;
            var rekeys := req.publicKey != self.publicKey && req.publicKey != "" && ValidKey(req.publicKey);
            && (PeerOf(c') != PeerOf(self) <==> moves || rekeys)
            && (c'.updatedAt == if moves then At(now) else self.updatedAt)
  {
    hide ValidKey, EndpointFrom, AllowedIPs;
  }

  // --- consequences for what is advertised ---

  /** A changed advertised record carries the time of the change; an unchanged stamp is kept. */
  lemma AdvertEvolves(reg: Registry, reg': Registry, who: Option<string>, now: nat, k: string)
    requires Evolves(reg, reg', who, now) && Advert(reg', k).Some?
    ensures Advert(reg', k) != Advert(reg, k) ==> StampOf(reg', k) == At(now)
    ensures StampOf(reg', k) == StampOf(reg, k) || StampOf(reg', k) == At(now)
  {
    if k != HUB_ID {
      assert ClientEvolves(FindByID(reg.clients, k), FindByID(reg'.clients, k), who == Some(k), now);
    }
  }
}
