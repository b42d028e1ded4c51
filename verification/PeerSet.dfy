/** Cached peer lists: what map from id to record a list holds, how a delta is folded into it,
    and what one heartbeat does to it. */
module PeerSet {
  import opened Base
  import opened Mesh

  /** The record a list holds for each id; the last one wins. */
  function Held(ps: seq<Peer>): map<string, Peer> {
    if ps == [] then map[]
    else Held(ps[..|ps| - 1])[ps[|ps| - 1].id := ps[|ps| - 1]]
  }

  ghost predicate DistinctIDs(ps: seq<Peer>) {
    forall i, j :: 0 <= i < j < |ps| ==> ps[i].id != ps[j].id
  }

  lemma {:induction false} HeldKeys(ps: seq<Peer>, id: string)
    ensures id in Held(ps) <==> id in PeerIDs(ps)
    ensures id in Held(ps) ==> Held(ps)[id].id == id && Held(ps)[id] in ps
  {
    if ps != [] {
      HeldKeys(ps[..|ps| - 1], id);
      assert PeerIDs(ps) == PeerIDs(ps[..|ps| - 1]) + [ps[|ps| - 1].id];
      assert ps == ps[..|ps| - 1] + [ps[|ps| - 1]];
    }
  }

  lemma NotHeld(ps: seq<Peer>, id: string)
    ensures id !in Held(ps) <==> forall i :: 0 <= i < |ps| ==> ps[i].id != id
  {
    HeldKeys(ps, id);
    assert forall i :: 0 <= i < |ps| ==> PeerIDs(ps)[i] == ps[i].id;
  }

  lemma {:induction false} HeldAppend(a: seq<Peer>, b: seq<Peer>)
    ensures Held(a + b) == Held(a) + Held(b)
  {
    if b == [] {
      assert a + b == a;
    } else {
      assert (a + b)[..|a + b| - 1] == a + b[..|b| - 1];
      HeldAppend(a, b[..|b| - 1]);
    }
  }

  lemma HeldSnoc(ps: seq<Peer>, p: Peer)
    ensures Held(ps + [p]) == Held(ps)[p.id := p]
  {
    assert (ps + [p])[..|ps|] == ps;
  }

  lemma {:induction false} HeldAt(ps: seq<Peer>, i: nat)
    requires i < |ps| && DistinctIDs(ps)
    ensures ps[i].id in Held(ps) && Held(ps)[ps[i].id] == ps[i]
  {
    if i < |ps| - 1 {
      HeldAt(ps[..|ps| - 1], i);
    }
  }

  // --- folding a delta into a list ---

  /** The last position holding this id, or -1. */
  function LastWithID(ps: seq<Peer>, id: string): (i: int)
    ensures -1 <= i < |ps|
    ensures i >= 0 ==> ps[i].id == id
    ensures forall k :: i < k < |ps| ==> ps[k].id != id
  {
    if ps == [] then -1
    else if ps[|ps| - 1].id == id then |ps| - 1
    else LastWithID(ps[..|ps| - 1], id)
  }

  function Upsert(ps: seq<Peer>, p: Peer): seq<Peer> {
    var i := LastWithID(ps, p.id);
    if i >= 0 then ps[i := p] else ps + [p]
  }

  function Upserts(ps: seq<Peer>, add: seq<Peer>): seq<Peer> {
    if add == [] then ps else Upsert(Upserts(ps, add[..|add| - 1]), add[|add| - 1])
  }

  function Drop(ps: seq<Peer>, remove: seq<string>): seq<Peer> {
    Filter(ps, (p: Peer) => p.id !in remove)
  }

  function ApplyDelta(ps: seq<Peer>, add: seq<Peer>, remove: seq<string>): seq<Peer> {
    Drop(Upserts(ps, add), remove)
  }

  lemma {:induction false} HeldUpsert(ps: seq<Peer>, p: Peer)
    ensures Held(Upsert(ps, p)) == Held(ps)[p.id := p]
  {
    var i := LastWithID(ps, p.id);
    if i < 0 {
      HeldSnoc(ps, p);
    } else if i == |ps| - 1 {
      assert ps[i := p][..i] == ps[..i];
    } else {
      var front, last := ps[..|ps| - 1], ps[|ps| - 1];
      assert LastWithID(front, p.id) == i;
      HeldUpsert(front, p);
      assert ps[i := p] == front[i := p] + [last];
      HeldSnoc(front[i := p], last);
      assert Held(front)[p.id := p][last.id := last] == Held(front)[last.id := last][p.id := p];
    }
  }

  lemma UpsertDistinct(ps: seq<Peer>, p: Peer)
    requires DistinctIDs(ps)
    ensures DistinctIDs(Upsert(ps, p))
  {
  }

  lemma {:induction false} HeldUpserts(ps: seq<Peer>, add: seq<Peer>)
    ensures Held(Upserts(ps, add)) == Held(ps) + Held(add)
  {
    hide Upsert, LastWithID;
    if add != [] {
      var front, p := add[..|add| - 1], add[|add| - 1];
      HeldUpserts(ps, front);
      HeldUpsert(Upserts(ps, front), p);
      assert (Held(ps) + Held(front))[p.id := p] == Held(ps) + Held(front)[p.id := p];
    }
  }

  lemma {:induction false} UpsertsDistinct(ps: seq<Peer>, add: seq<Peer>)
    requires DistinctIDs(ps)
    ensures DistinctIDs(Upserts(ps, add))
  {
    if add != [] {
      UpsertsDistinct(ps, add[..|add| - 1]);
      UpsertDistinct(Upserts(ps, add[..|add| - 1]), add[|add| - 1]);
    }
  }

  lemma {:induction false} HeldDrop(ps: seq<Peer>, remove: seq<string>)
    ensures Held(Drop(ps, remove)) == Held(ps) - (set id | id in remove)
  {
    if ps != [] {
      HeldDrop(ps[..|ps| - 1], remove);
    }
  }

  lemma {:induction false} DropDistinct(ps: seq<Peer>, keep: Peer -> bool)
    requires DistinctIDs(ps)
    ensures DistinctIDs(Filter(ps, keep))
  {
    if ps != [] {
      var front := ps[..|ps| - 1];
      DropDistinct(front, keep);
      forall i | 0 <= i < |Filter(front, keep)| ensures Filter(front, keep)[i].id != ps[|ps| - 1].id {
        FilterMember(front, keep, Filter(front, keep)[i]);
      }
    }
  }

  /** Folding a delta into any list: the added records override, the removed ids go, and a list
      without duplicate ids stays so. */
  lemma ApplyDeltaHeld(ps: seq<Peer>, add: seq<Peer>, remove: seq<string>)
    ensures Held(ApplyDelta(ps, add, remove)) == (Held(ps) + Held(add)) - (set id | id in remove)
    ensures DistinctIDs(ps) ==> DistinctIDs(ApplyDelta(ps, add, remove))
  {
    HeldUpserts(ps, add);
    HeldDrop(Upserts(ps, add), remove);
    if DistinctIDs(ps) {
      UpsertsDistinct(ps, add);
      DropDistinct(Upserts(ps, add), (p: Peer) => p.id !in remove);
    }
  }

  /** For a list without duplicates, filtering restricts the map. */
  lemma {:induction false} HeldFilter(ps: seq<Peer>, keep: Peer -> bool, k: string)
    requires DistinctIDs(ps)
    ensures k in Held(Filter(ps, keep)) <==> k in Held(ps) && keep(Held(ps)[k])
    ensures k in Held(Filter(ps, keep)) ==> Held(Filter(ps, keep))[k] == Held(ps)[k]
  {
    if ps != [] {
      var front, p := ps[..|ps| - 1], ps[|ps| - 1];
      HeldFilter(front, keep, k);
      NotHeld(front, p.id);
      if keep(p) {
        assert Filter(ps, keep)[..|Filter(front, keep)|] == Filter(front, keep);
      }
    }
  }

  // --- the advertised set as a map ---

  /** Client ids are unique and none is the hub's. */
  ghost predicate UniqueIDs(cs: seq<Client>) {
    && (forall i, j :: 0 <= i < j < |cs| ==> cs[i].id != cs[j].id)
    && (forall i :: 0 <= i < |cs| ==> cs[i].id != HUB_ID)
  }

  /** The record advertised under an id to everybody else. */
  function Advert(reg: Registry, id: string): Option<Peer> {
    if id == HUB_ID then (if reg.publicKey != "" then Some(HubPeer(reg)) else None)
    else
      match FindByID(reg.clients, id)
      case Some(c) => if Active(c) then Some(PeerOf(c)) else None
      case None => None
  }

  /** The full synchronisation a delta stands in for. */
  function Full(reg: Registry, selfID: string): map<string, Peer> {
    Held(BuildPeers(reg, selfID))
  }

  lemma IndexOfClient(cs: seq<Client>, i: nat)
    requires UniqueIDs(cs) && i < |cs|
    ensures IndexByID(cs, cs[i].id) == i
  {
  }

  lemma {:induction false} ClientPeersHeld(cs: seq<Client>, self: string, id: string)
    requires UniqueIDs(cs)
    ensures var held, c := Held(ClientPeers(cs, self)), FindByID(cs, id);
            && (id in held <==> id != self && c.Some? && Active(c.value))
            && (id in held ==> held[id] == PeerOf(c.value))
  {
    if cs != [] {
      hide Active, PeerOf, FindByID;
      var front, c := cs[..|cs| - 1], cs[|cs| - 1];
      ClientPeersHeld(front, self, id);
      FindInFront(cs, id);
      PeerOfID(c);
      if c.id != self && Active(c) {
        HeldSnoc(ClientPeers(front, self), PeerOf(c));
      } else {
        assert ClientPeers(cs, self) == ClientPeers(front, self);
      }
    }
  }

  lemma PeerOfID(c: Client)
    ensures PeerOf(c).id == c.id
  {
  }

  lemma {:induction false} ClientPeersDistinct(cs: seq<Client>, self: string)
    requires UniqueIDs(cs)
    ensures DistinctIDs(ClientPeers(cs, self))
    ensures forall i :: 0 <= i < |ClientPeers(cs, self)| ==> ClientPeers(cs, self)[i].id != HUB_ID
  {
    if cs != [] {
      var front, c := cs[..|cs| - 1], cs[|cs| - 1];
      ClientPeersDistinct(front, self);
      ClientPeersHeld(front, self, c.id);
      FindInFront(cs, c.id);
      NotHeld(ClientPeers(front, self), c.id);
    }
  }

  lemma FindInFront(cs: seq<Client>, id: string)
    requires UniqueIDs(cs) && cs != []
    ensures id != cs[|cs| - 1].id ==> FindByID(cs[..|cs| - 1], id) == FindByID(cs, id)
    ensures id == cs[|cs| - 1].id ==> FindByID(cs[..|cs| - 1], id) == None && FindByID(cs, id) == Some(cs[|cs| - 1])
  {
    var front := cs[..|cs| - 1];
    var i, j := IndexByID(cs, id), IndexByID(front, id);
    if i < |front| {
      assert front[i].id == id;
    }
    if j < |front| {
      assert cs[j].id == id;
    }
  }

  /** The peer list built for a client holds, for every other id, exactly the advertised record. */
  lemma FullIsAdvert(reg: Registry, self: string, id: string)
    requires UniqueIDs(reg.clients) && self != HUB_ID
    ensures id in Full(reg, self) <==> id != self && Advert(reg, id).Some?
    ensures id in Full(reg, self) ==> Full(reg, self)[id] == Advert(reg, id).value
    ensures DistinctIDs(BuildPeers(reg, self))
  {
    var rest := ClientPeers(reg.clients, self);
    ClientPeersHeld(reg.clients, self, id);
    ClientPeersDistinct(reg.clients, self);
    NotHeld(rest, HUB_ID);
    HeldAppend(if reg.publicKey != "" then [HubPeer(reg)] else [], rest);
    HeldOne(HubPeer(reg));
  }

  lemma HeldOne(p: Peer)
    ensures Held([p]) == map[p.id := p]
  {
    HeldSnoc([], p);
    assert [] + [p] == [p];
  }

  // --- one heartbeat ---

  /** The parts of a served heartbeat, by name. */
  ghost predicate Serves(reg: Registry, id: string, req: HeartbeatRequest, now: nat,
                         reg': Registry, resp: HeartbeatResponse)
  {
    Heartbeat(reg, id, req, now) == Applied(reg', Beaten(resp))
  }

  lemma BeatParts(reg: Registry, id: string, req: HeartbeatRequest, now: nat, reg': Registry, resp: HeartbeatResponse)
    requires UniqueIDs(reg.clients) && Serves(reg, id, req, now, reg', resp)
    ensures FindByID(reg.clients, id).Some? && id != HUB_ID
    ensures UniqueIDs(reg'.clients) && reg'.publicKey == reg.publicKey
    ensures FindByID(reg'.clients, id) == Some(BeatSelf(reg, FindByID(reg.clients, id).value, req, now))
    ensures var prev := FindByID(reg.clients, id).value.lastSeenAt;
            resp.add == Missing(reg', BuildPeers(reg', id), req.have, prev) &&
            resp.remove == Gone(BuildPeers(reg', id), req.have)
  {
    var i := IndexByID(reg.clients, id);
    assert forall k :: 0 <= k < |reg.clients| ==> reg'.clients[k].id == reg.clients[k].id;
    IndexOfClient(reg'.clients, i);
  }

  /** Add carries exactly the advertised records that are missing or newer, Remove exactly the
      reported ids no longer advertised other than the hub's; they share no id. */
  lemma DeltaContents(reg: Registry, id: string, req: HeartbeatRequest, now: nat,
                      reg': Registry, resp: HeartbeatResponse, k: string)
    requires UniqueIDs(reg.clients) && Serves(reg, id, req, now, reg', resp)
    ensures var prev := FindByID(reg.clients, id).value.lastSeenAt;
            k in Held(resp.add) <==> k in Full(reg', id) && (k !in req.have || Newer(StampOf(reg', k), prev))
    ensures k in Held(resp.add) ==> Held(resp.add)[k] == Full(reg', id)[k]
    ensures k in resp.remove <==> k in req.have && k != HUB_ID && k !in Full(reg', id)
    ensures DistinctIDs(resp.add)
    ensures !(k in Held(resp.add) && k in resp.remove)
  {
    BeatParts(reg, id, req, now, reg', resp);
    var peers := BuildPeers(reg', id);
    var prev := FindByID(reg.clients, id).value.lastSeenAt;
    FullIsAdvert(reg', id, k);
    HeldKeys(peers, k);
    HeldFilter(peers, (p: Peer) => p.id !in req.have || Newer(StampOf(reg', p.id), prev), k);
    DropDistinct(peers, (p: Peer) => p.id !in req.have || Newer(StampOf(reg', p.id), prev));
    FilterMember(req.have, x => x != HUB_ID && x !in PeerIDs(peers), k);
  }

  /** After one beat a client holds every advertised id; each record is the advertised one unless it
      was already held and has not been stamped since the client was last seen. Nothing else is
      held, except the hub's record when the hub no longer has a key. */
  lemma BeatResult(reg: Registry, id: string, req: HeartbeatRequest, now: nat,
                   reg': Registry, resp: HeartbeatResponse, ps: seq<Peer>, k: string)
    requires UniqueIDs(reg.clients) && Serves(reg, id, req, now, reg', resp)
    requires req.have == PeerIDs(ps)
    ensures var after, full, prev := Held(ApplyDelta(ps, resp.add, resp.remove)), Full(reg', id),
                                   FindByID(reg.clients, id).value.lastSeenAt;
            && (k in full ==> k in after)
            && (k in full && (k !in Held(ps) || Newer(StampOf(reg', k), prev)) ==> after[k] == full[k])
            && (k in full && k in Held(ps) && !Newer(StampOf(reg', k), prev) ==> after[k] == Held(ps)[k])
            && (k !in full ==> (k in after <==> k in Held(ps) && k == HUB_ID))
            && (k !in full && k == HUB_ID ==> reg.publicKey == "")
  {
    DeltaContents(reg, id, req, now, reg', resp, k);
    ApplyDeltaHeld(ps, resp.add, resp.remove);
    HeldKeys(ps, k);
    BeatParts(reg, id, req, now, reg', resp);
    FullIsAdvert(reg', id, k);
  }

  // --- the order of a folded list ---

  lemma {:induction false} UpsertsKeepOrder(ps: seq<Peer>, add: seq<Peer>)
    ensures PeerIDs(ps) <= PeerIDs(Upserts(ps, add))
  {
    if add != [] {
      UpsertsKeepOrder(ps, add[..|add| - 1]);
      UpsertKeepsOrder(Upserts(ps, add[..|add| - 1]), add[|add| - 1]);
    }
  }

  lemma UpsertKeepsOrder(ps: seq<Peer>, p: Peer)
    ensures PeerIDs(Upsert(ps, p)) ==
            PeerIDs(ps) + if p.id in PeerIDs(ps) then [] else [p.id]
  {
    HeldKeys(ps, p.id);
    NotHeld(ps, p.id);
    var i := LastWithID(ps, p.id);
    if i >= 0 {
      assert ps[i].id == p.id;
    }
    assert forall k :: 0 <= k < |ps| ==> PeerIDs(ps)[k] == ps[k].id;
  }

  lemma {:induction false} DropKeepsOrder(ps: seq<Peer>, remove: seq<string>)
    ensures PeerIDs(Drop(ps, remove)) == Filter(PeerIDs(ps), id => id !in remove)
  {
    if ps != [] {
      DropKeepsOrder(ps[..|ps| - 1], remove);
      assert PeerIDs(ps)[..|ps| - 1] == PeerIDs(ps[..|ps| - 1]);
    }
  }

  /** Folding a delta leaves the ids that stay in the order they were held in, ahead of any that are new. */
  lemma ApplyDeltaOrder(ps: seq<Peer>, add: seq<Peer>, remove: seq<string>)
    ensures Filter(PeerIDs(ps), id => id !in remove) <= PeerIDs(ApplyDelta(ps, add, remove))
  {
    UpsertsKeepOrder(ps, add);
    DropKeepsOrder(Upserts(ps, add), remove);
    var all := PeerIDs(Upserts(ps, add));
    FilterAppend(PeerIDs(ps), all[|ps|..], id => id !in remove);
    assert all == PeerIDs(ps) + all[|ps|..];
  }
}
