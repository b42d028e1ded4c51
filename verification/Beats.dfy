/** One heartbeat from end to end, in the code that runs on either side: the client reports what it
    holds, the hub edits its registry and answers, and the client folds the answer into its list. */
module Beats {
  import opened Base
  import opened ClientCache
  import opened Coordinator
  import opened Mesh
  import opened Operations
  import opened PeerSet
  import opened Valid

  /** After a delivered beat the client's list has no duplicates and holds exactly the ids the hub
      advertises to it; every record is the advertised one, save those it already held that have not
      been stamped since the hub last saw it, and those are kept as they were. The client ends with the
      address the hub has recorded for it, the hub's pool, and where the hub is reached. */
  method OneBeat(hub: CoordinatorConfig, node: ClientConfig, now: nat) returns (r: Result<Reply, Error>)
    requires hub.Valid() && node.Valid()
    requires UniqueIDs(hub.View().clients) && hub.publicKey != "" && DistinctIDs(node.Peers())
    modifies hub.clients, node, node.slots
    ensures hub.Valid() && node.Valid()
    ensures r.Err? ==> hub.View() == old(hub.View()) && node.Peers() == old(node.Peers())
    ensures r.Ok? ==>
      var full, held := Full(hub.View(), old(node.id)), Held(node.Peers());
      var prev := FindByID(old(hub.View()).clients, old(node.id));
      && prev.Some?
      && DistinctIDs(node.Peers())
      && held.Keys == full.Keys
      && forall k :: k in full ==>
           held[k] == if k !in Held(old(node.Peers())) || Newer(StampOf(hub.View(), k), prev.value.lastSeenAt)
                      then full[k] else Held(old(node.Peers()))[k]
    ensures r.Ok? <==>
            (old(node.publicEndpoint) == "" || EndpointHost(old(node.publicEndpoint))) &&
            exists c :: c in old(hub.View()).clients && c.id == old(node.id)
    ensures r.Ok? ==>
      var i := IndexByID(old(hub.View()).clients, old(node.id));
      && i < |old(hub.View()).clients| == |hub.View().clients|
      && var c := hub.View().clients[i];
         && c.id == old(node.id)
         && node.address == (if c.address != "" then c.address else old(node.address))
         && node.ipRange == (if hub.ipRange != "" then hub.ipRange else old(node.ipRange))
         && ReachesHub(node.internalURL, old(hub.View()))
  {
    hide Heartbeat, Full, Held, PeerSet.ApplyDelta, DistinctIDs, UniqueIDs, StampOf, ReachesHub, EndpointOf, ValidKey,
        IndexByID, ValidHostOrEmpty, EndpointHost, Values;
    ghost var before, ps, id := hub.View(), node.Peers(), node.id;
    var req := node.Report();
    BeatAppliesIff(before, id, req, now);
    r := hub.HandleHeartbeat(node.id, req, now);
    if r.Ok? {
      ghost var resp := BeatAnswer(before, id, req, now);
      assert r == Ok(Beaten(resp)) && node.Peers() == ps;
      node.TakeBeat(r.value.beaten);
      BeatHeals(before, id, req, now, hub.View(), resp, ps);
      BeatAnswers(before, id, req, now, hub.View(), resp);
    }
  }

  lemma BeatAnswer(reg: Registry, id: string, req: HeartbeatRequest, now: nat) returns (resp: HeartbeatResponse)
    requires Heartbeat(reg, id, req, now).Applied?
    ensures Heartbeat(reg, id, req, now) == Applied(Heartbeat(reg, id, req, now).reg, Beaten(resp))
  {
    resp := Heartbeat(reg, id, req, now).reply.beaten;
  }

  lemma BeatHeals(reg: Registry, id: string, req: HeartbeatRequest, now: nat, reg': Registry,
                  resp: HeartbeatResponse, ps: seq<Peer>)
    requires UniqueIDs(reg.clients) && reg.publicKey != "" && Serves(reg, id, req, now, reg', resp)
    requires req.have == PeerIDs(ps) && DistinctIDs(ps)
    ensures FindByID(reg.clients, id).Some?
    ensures var after, full := PeerSet.ApplyDelta(ps, resp.add, resp.remove), Full(reg', id);
            DistinctIDs(after) && Held(after).Keys == full.Keys &&
            forall k :: k in full ==>
              Held(after)[k] == if k !in Held(ps) || Newer(StampOf(reg', k), FindByID(reg.clients, id).value.lastSeenAt)
                                then full[k] else Held(ps)[k]
  {
    BeatParts(reg, id, req, now, reg', resp);
    ApplyDeltaHeld(ps, resp.add, resp.remove);
    hide Heartbeat, Full, Held, PeerSet.ApplyDelta, DistinctIDs, UniqueIDs, StampOf;
    forall k { BeatResult(reg, id, req, now, reg', resp, ps, k); }
  }
}
