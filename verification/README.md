# A model of the wgcoord control plane

wgcoord keeps a full-mesh WireGuard network together. A hub holds a registry of named clients; each
client registers once and then sends heartbeats, and the hub answers a heartbeat with a *delta*: the
peers the client lacks or holds outdated, and the ids it should drop. The client folds the delta into a
cached peer list and programs its interface from that list. This project models the registry, the two
client endpoints, the cached list, the store that serialises edits, the address pool, the client's
choice between the mesh and the public address, and the text both sides read and write, and proves what
they keep over all inputs and all runs.

`dafny verify dfyconfig.toml` checks everything.

## Layout

| file | content |
|---|---|
| `Base.dfy`, `Netip.dfy` | sequences, strings, numbers as text; IPv4 words, prefixes and literals |
| `IpAlloc.dfy`, `Valid.dfy` | the address pool; validators, host:port joining and splitting |
| `Mesh.dfy` | the registry as a value and every operation as a function from registry to outcome |
| `Coordinator.dfy` | the hub's code: records edited in place, each method tied to its function in `Mesh` |
| `Operations.dfy`, `Adverts.dfy` | what each operation records, answers and leaves alone; what is advertised and programmed, read back from its text |
| `PeerSet.dfy`, `ClientCache.dfy` | cached peer lists as maps; the client's code over an array, edited in place |
| `Beats.dfy` | one heartbeat through the code of both sides |
| `Effects.dfy`, `DeltaSync.dfy`, `DeltaTheorems.dfy`, `Boundaries.dfy`, `Safety.dfy` | hub and clients as one transition system, and the theorems about its runs |
| `Addresses.dfy`, `Routes.dfy` | registry invariants over every history, pool capacity, route edits |
| `Store.dfy` | the transactional store: goroutines, processes, locks, crashes, readers |
| `Fallback.dfy` | mesh attempt, public fallback and cooldown |
| `Endpoints.dfy`, `Views.dfy`, `Render.dfy`, `Timestamps.dfy` | endpoints and overrides, the two views of the mesh, the configuration text, recorded times as text |

## How to read the results

*Delta and full synchronisation.* `DeltaTheorems.DeltaRefinesFull` is the central result: in any
interleaving of administration, joins and heartbeats, with answers delivered late or lost, a node that
has applied an answer holds exactly the ids that the full peer set had when the answer was served, and
the same record for every id that is not in doubt. An id comes into doubt in exactly two ways, both
recorded as history in the system's state: its advertised record changes within the second in which the
hub last served the node, or a heartbeat's answer that carried it is lost. In a run without either,
the cache equals the full set. Both boundaries are real. `Boundaries.StaleForever` says, for every
reachable state, that a differing record not stamped after the node was last seen survives any number of
further beats, and `Boundaries.LostIsStale` that a lost answer leaves its node in that state; a fresh hub
reaches both by the runs of `SameSecondIsMissed` and `LostAnswerIsMissed`, in every pool with room for two
clients. `BeatExact` says for a single beat, with no history at all, exactly when the cache
comes out equal.

*Code and value.* The operations are given twice. `Mesh` says what each does to the registry as a value;
`Coordinator` and `ClientCache` hold the code that edits records, lists and arrays in place, each method
tied to its function. Everything proved about the functions therefore holds of the code.

*Where the code and its documentation differ, the model follows the code.*
- A comment in `internal/config/config.go:85` says a client's `UpdatedAt` is bumped when its key changes,
  and one in `internal/coordinator/server.go:131-132` that any identity change of a beat is propagated. A
  key that arrives with a heartbeat is stored without a stamp (`Effects.BeatStampsMovesOnly`). In the
  system as a whole this never matters, because a client beats with the key it registered
  (`DeltaTheorems.BeatsRepeatKey`).
- `internal/valid/valid.go:19-22` says hosts with a colon are rejected; address literals are accepted,
  including a zone with arbitrary text. A bracket in the zone makes an endpoint that does not split
  (`Endpoints.BracketedZone`), and nothing else does (`Endpoints.EndpointRoundTrip`).

## Model

| member | source | states |
|---|---|---|
| `DeltaTheorems.DeltaRefinesFull` | internal/coordinator/server.go:124-180 | in every run, a delivered answer leaves the node with exactly the ids advertised when it was served, the advertised record for every id not in doubt, and in a calm run the full set itself |
| `DeltaTheorems.StepInv` | internal/coordinator/server.go:108-186 | every step of hub and clients keeps the invariant: a held record that differs from the advertised one and is not in doubt is stamped later than the holder was last seen |
| `DeltaTheorems.RunInv` | internal/coordinator/server.go:108-186 | the invariant holds along every run |
| `DeltaTheorems.BeatExact` | internal/coordinator/server.go:146-171 | one beat makes the cache equal to the full set if and only if every differing held record is stamped after the last-seen time and no keyless hub is held |
| `DeltaTheorems.MembershipHeals` | internal/coordinator/server.go:146-171 | from any duplicate-free list one delivered beat leaves no duplicates and exactly the advertised ids, if and only if the hub has a key or is not held; Add and Remove are disjoint |
| `DeltaTheorems.Quiescent` | internal/coordinator/server.go:143-171 | with nothing shown to the client changed between two delivered beats, the second is empty and leaves the list as it is, order included |
| `DeltaTheorems.QuietRun` | internal/coordinator/server.go:143-171 | the same over runs, with the two beats interleaved with anything: the second answer is empty and the list stays as it is |
| `Boundaries.StaleForever` | internal/coordinator/server.go:153-161 | in every reachable state, a held record that differs from the advertised one and is not stamped after the node was last seen stays as it is through any number of beats at any times |
| `Boundaries.LostIsStale` | internal/coordinator/server.go:144 | an answer carries a differing record if and only if it is stamped after the node was last seen; once lost, the record is never sent again whether it was carried or not |
| `Boundaries.SameSecondIsMissed` | internal/coordinator/server.go:161 | in every pool with room a fresh hub reaches, by the given run, a rename in the second of an observer's registration that no later beat delivers |
| `Boundaries.RoomyPool` | internal/ipalloc/ipalloc.go:21-27 | every prefix of up to 29 bits is such a pool, with the hub at its default address |
| `Boundaries.LostAnswerIsMissed` | internal/coordinator/server.go:144 | and a rename that was served in an answer, lost with it, and never sent again |
| `DeltaTheorems.BeatsRepeatKey` | internal/client/client.go:114-119 | in every reachable state a heartbeat about to be served carries the key on record |
| `DeltaTheorems.BeatsKeepKeys` | internal/coordinator/server.go:133-135 | so serving a heartbeat changes nobody's key |
| `DeltaSync.EvolvesTracks` | internal/coordinator/server.go:153-161 | an observer keeps track across any operation it is not served by; what it could miss shares the second of its last beat |
| `DeltaSync.BeatServed` | internal/coordinator/server.go:146-171 | a served beat settles every id its answer carries, and the unserved cache stays as current as the rest of the answer |
| `DeltaSync.ServeInv` | internal/coordinator/server.go:59-186 | serving a registration or a heartbeat keeps the invariant for the caller and for everybody else |
| `DeltaSync.LoseOk` | internal/client/client.go:120-123 | giving up on an answer puts in doubt only what the answer carried |
| `Effects.AdminEvolves` | internal/coordinator/store.go:69-283 | administration stamps every record whose advertised form it changes, and touches no key and no last-seen time |
| `Effects.RegisterEvolves` | internal/coordinator/server.go:74-98 | a registration stamps and changes only the caller's record |
| `Effects.BeatEvolves` | internal/coordinator/server.go:129-144 | a beat with the recorded key stamps whatever it changes for others and changes only the caller's record |
| `Effects.BeatStampsMovesOnly` | internal/coordinator/server.go:131-144 | others see a change exactly when a beat moves the endpoint or brings a valid new key; only the move is stamped |
| `PeerSet.ApplyDeltaHeld` | internal/client/client.go:295-322 | folding a delta overrides by the added records, drops the removed ids and creates no duplicate ids |
| `PeerSet.ApplyDeltaOrder` | internal/client/client.go:295-322 | the ids that stay keep their order, ahead of any that are new |
| `PeerSet.FullIsAdvert` | internal/coordinator/server.go:190-217 | the list built for a client holds exactly the advertised record of every other id, without duplicates |
| `PeerSet.DeltaContents` | internal/coordinator/server.go:146-171 | Add is exactly the advertised records missing or newer, Remove exactly the reported ids no longer advertised, the hub's aside |
| `PeerSet.BeatResult` | internal/coordinator/server.go:146-171 | what a client holds for each id after one beat, from whatever it held before |
| `Beats.OneBeat` | internal/client/client.go:109-138 | the code of both sides, end to end: the list ends duplicate-free with exactly the advertised ids, each record the advertised one unless held and unstamped since; the client ends with its recorded address, the pool and the hub's URL; a refusal changes nothing |
| `Safety.StepAffects` | internal/coordinator/store.go:218-283 | one step takes a client away exactly when it removes it, changes its token exactly when it rotates it, and its flag is what it was last set to |
| `Safety.StepStaysBlacklisted` | internal/coordinator/store.go:273-283 | a step ends a blacklisting if and only if it lifts the flag or removes the client |
| `Safety.StaysBlacklisted` | internal/coordinator/store.go:273-283 | a blacklisting lasts through every run that does not lift it, whatever else is done to that client |
| `Safety.HiddenThroughout` | internal/coordinator/service.go:126-129 | until lifted, the client is in nobody's full peer set, and the hub's interface is what it would be without it |
| `Safety.BlacklistHides` | internal/coordinator/server.go:166-171 | a blacklisted client is advertised to nobody, and any beat that reports it is told to remove it |
| `Safety.NeverRegained` | internal/coordinator/server.go:204-207 | a node without a blacklisted client never gets it back while the blacklisting lasts |
| `Safety.StepShutsOut` | internal/coordinator/server.go:44-57 | a step leaves a blacklisted client's flight as it was or leaves nothing of it authenticated; serving an earlier request uses it up |
| `Safety.OnlyEarlierRequestsServed` | internal/coordinator/server.go:44-57 | over every run that does not lift it, the only request of a blacklisted client that can still stand authenticated is the one that did at the start, and once that is gone the client stays shut out |
| `Safety.ServedAtMostOnce` | internal/coordinator/server.go:44-57 | after the first serving of such a request there is no other |
| `Safety.TokenMatchesOne` | internal/coordinator/store.go:295-299 | in every reachable state at most one client matches a token |
| `Safety.RotationKills` | internal/coordinator/store.go:251-269 | rotation leaves the old token nobody's and gives the new one to that client alone |
| `Safety.DeadForever` | internal/coordinator/store.go:251-269 | a rotated token resolves to nobody for the rest of the run |
| `Safety.RemovalKills` | internal/coordinator/store.go:218-228 | removing a client leaves its token nobody's |
| `Safety.StepKeepsResolution` | internal/coordinator/store.go:287-301 | a step ends a token's resolution if and only if it rotates it or removes its client; otherwise the token resolves to the same client, blacklisted or not |
| `Safety.ResolutionKept` | internal/coordinator/store.go:287-301 | so through every run a token resolves to the same client until rotated or removed |
| `DeltaTheorems.ResolvesToOwner` | internal/coordinator/store.go:287-301 | a token only ever resolves to the client it was issued for |
| `Store.Serialisable` | internal/coordinator/store.go:42-63 | under any interleaving, failures and crashes, the stored configuration is the successful functions applied in rename order with clock readings that never go back; every answer is computed on exactly the prefix before it, and every reader sees a prefix no shorter than when it began |
| `Store.StepInv` | internal/coordinator/store.go:42-63 | every step of every goroutine keeps the store's invariant |
| `Store.RenameStep` | internal/config/config.go:302-329 | the replacement installs exactly what the function makes of the configuration it replaces, logs it, and leaves the other goroutines alone |
| `Store.CrashStep` | internal/coordinator/store.go:426-442 | a crash at any point leaves what is stored, and takes the crashed process's goroutines and locks but nobody else's |
| `Store.OnlyRenameCommits` | internal/config/config.go:302-329 | nothing but a rename changes the stored configuration: failed and crashed attempts leave no trace |
| `Store.CallReturns` | internal/coordinator/store.go:42-63 | an undisturbed call returns exactly its function's outcome on the stored configuration; when applied that is then stored and logged last, when refused nothing changes; both locks end free |
| `Store.BrokeOnlyByFail` | internal/coordinator/store.go:42-63 | in every run a call breaks off only if an error hit its own goroutine |
| `Store.ReadReturns` | internal/coordinator/store.go:36-39 | an undisturbed read gets the configuration on disk |
| `Store.Exclusive` | internal/coordinator/store.go:43-50 | at most one goroutine anywhere holds the file lock, and at most one of each process its mutex |
| `Store.LaterCallsComeLater` | internal/coordinator/store.go:42-63 | a call that begins after another returned takes its place after it |
| `Store.StoredRegistryOk` | internal/coordinator/store.go:42-63 | every configuration the store ever holds satisfies the registry and route invariants |
| `Addresses.ApplyKeeps` | internal/coordinator/store.go:69-283 | every operation keeps ids and names unique and addresses usable, pairwise distinct and different from the hub's |
| `Addresses.ReplayKeeps` | internal/coordinator/store.go:69-283 | so does every history |
| `Addresses.InitialRegistry` | cmd/wgcoord/coordinator_cmd.go:63-73 | a new hub satisfies the invariant if and only if its address is usable, and with the default address if and only if the mask is at most 30 bits |
| `Addresses.PickedAddress` | internal/coordinator/store.go:87-96 | the address given to a new client is usable and nobody's |
| `Addresses.FreeAddress` | internal/coordinator/store.go:339-356 | an address that passes the check is usable, not the hub's, and held by no client but the excepted one |
| `Addresses.UsableIsPoolHost` | internal/ipalloc/ipalloc.go:31-48 | the allocator accepts exactly the texts of addresses strictly between the first and the last of the pool |
| `Addresses.FullWhenAllUsed` | internal/coordinator/store.go:88-93 | the search is refused exactly when every host of the pool is in use |
| `Addresses.Capacity` | internal/coordinator/store.go:83-108 | the pool never overflows, and an auto-allocating add is refused for exhaustion if and only if the name is new, the routes are valid and clients + 1 = 2^(32 - bits) - 2 |
| `IpAlloc.LastAddrValue` | internal/ipalloc/ipalloc.go:81-95 | the shift-and-or form equals base + 2^(32 - bits) - 1 |
| `IpAlloc.BlockOf` | internal/ipalloc/ipalloc.go:51-66 | a masked prefix contains exactly the addresses from its base to its last |
| `IpAlloc.HostsAreInterior` | internal/ipalloc/ipalloc.go:31-48 | usable hosts are exactly the addresses strictly between network and broadcast |
| `IpAlloc.UsableText` | internal/ipalloc/ipalloc.go:31-48 | a text is accepted exactly when it is the text of a usable host |
| `IpAlloc.NextFreeIsLeast` | internal/ipalloc/ipalloc.go:51-78 | the result is the minimum of the free hosts, and exhaustion is reported exactly when there is none |
| `IpAlloc.NextFree` | internal/ipalloc/ipalloc.go:51-78 | the search as written computes that result |
| `IpAlloc.TakenSet` | internal/ipalloc/ipalloc.go:58-63 | the addresses the used texts denote; texts that do not parse are ignored |
| `IpAlloc.Walk` | internal/ipalloc/ipalloc.go:65-77 | the loop over successive addresses ends and finds the lowest free one |
| `IpAlloc.FirstHostIsLeast` | internal/ipalloc/ipalloc.go:21-27 | up to 30 bits it is the least usable host |
| `IpAlloc.FirstHostUsable` | internal/ipalloc/ipalloc.go:21-27 | the address after the network address is usable if and only if the mask is at most 30 bits |
| `Netip.AddrTextUnique` | internal/coordinator/store.go:347-354 | an IPv4 address has one text, so comparing texts compares addresses |
| `Netip.ContainsBlock` | internal/ipalloc/ipalloc.go:67 | bitwise containment is membership of the block |
| `Valid.CIDRIdempotent` | internal/valid/valid.go:66-73 | a canonical route is its own canonical form |
| `Valid.CIDRSameBlock` | internal/valid/valid.go:66-73 | two routes have the same canonical form if and only if they cover the same addresses with the same mask (section 3.1 of RFC 4632) |
| `Valid.HostPortRoundTrip` | internal/coordinator/server.go:241-246 | splitting what was joined gives host and port back if and only if the host holds no bracket |
| `Routes.CanonRoutesAre` | internal/coordinator/store.go:392-410 | refused exactly when some entry is no route; otherwise exactly the canonical forms, without duplicates |
| `Routes.CanonRoutesFixed` | internal/coordinator/store.go:392-410 | the duplicate-free canonical lists are exactly the fixed points |
| `Routes.AddThenRemove` | internal/coordinator/store.go:121-201 | removing what an addition reported as added restores the list and everything but the update time; adding nothing changes nothing |
| `Routes.RemoveSplits` | internal/coordinator/store.go:161-201 | removal takes exactly the named routes, keeps the order of the rest, and kept plus removed is a permutation of the list before |
| `Routes.RemoveThenAdd` | internal/coordinator/store.go:121-201 | adding back what was removed gives a permutation of the list before |
| `Routes.EditStampsItsNode` | internal/coordinator/store.go:367-388 | exactly the node whose list changed is stamped and nothing else moves, also when a client is named like the hub |
| `Routes.ApplyRoutesOk` | internal/coordinator/store.go:121-201 | every operation keeps every route list canonical and duplicate-free |
| `Routes.ReplayRoutesOk` | internal/coordinator/store.go:121-201 | so does every history |
| `Operations.BeatAppliesIff` | internal/coordinator/server.go:113-129 | a heartbeat is served if and only if its host is empty or valid and its client exists, with the error for each other case |
| `Operations.BeatAnswers` | internal/coordinator/server.go:129-178 | a served heartbeat tells the caller its own recorded address, the pool and where the hub is reached; the recorded port is the reported, else the recorded, else the default one; a reported host is recorded with it; nothing else of the registry changes |
| `Operations.RegisterAppliesIff` | internal/coordinator/server.go:64-85 | a registration is applied if and only if key and host are valid, the client exists, and the requested address is its own or a free pool host |
| `Operations.RegisterAnswers` | internal/coordinator/server.go:76-99 | it records the requested port or the default, the host with that port, the requested address or the old one, key and stamps; it answers who the caller is, that address, the pool, the hub's URL and the full set |
| `Operations.AddReserves` | internal/coordinator/store.go:69-113 | adding with an address is applied if and only if the name is new, the routes valid and the address a pool host nobody holds, and then at exactly that address |
| `Operations.AddAllocates` | internal/coordinator/store.go:69-113 | adding without one is applied if and only if the name is new, the routes valid and a host free, and then at the least free host |
| `Operations.RenameDoes` | internal/coordinator/store.go:231-248 | exactly when a rename is applied, and that only that record's name and stamp change |
| `Operations.RegenDoes` | internal/coordinator/store.go:251-269 | likewise for a token rotation |
| `Operations.BlacklistDoes` | internal/coordinator/store.go:273-283 | likewise for the flag |
| `Operations.RemoveDoes` | internal/coordinator/store.go:218-228 | likewise for a removal; the others keep record and order |
| `Operations.RoutesOfIs` | internal/coordinator/store.go:361-376 | "coordinator" and "hub" stand for the hub, whoever else is called so; any other name for the first client of that name |
| `Operations.RouteEditAppliesIff` | internal/coordinator/store.go:121-196 | a route edit is applied if and only if all given texts are routes, at least one is given and the node exists |
| `Operations.AddRoutesDoes` | internal/coordinator/store.go:135-146 | the list keeps its beginning and then holds the canonical form of every given route and nothing else |
| `Operations.CanonRoutesPrefix` | internal/coordinator/store.go:392-410 | the first appearance of a route decides its place |
| `Operations.AuthenticateIff` | internal/coordinator/store.go:287-301 | a token is resolved if and only if it is not blank and matches a stored hash, and then to the first match |
| `Coordinator.CoordinatorConfig.AddClient` | internal/coordinator/store.go:69-113 | the code that adds a client does to the registry what the function says, and nothing when refused |
| `Coordinator.CoordinatorConfig.RemoveClient` | internal/coordinator/store.go:218-228 | the first client of that name is spliced out; refused when there is none |
| `Coordinator.CoordinatorConfig.RenameClient` | internal/coordinator/store.go:231-248 | name and update time of that one record change; a taken or blank name is refused |
| `Coordinator.CoordinatorConfig.RegenToken` | internal/coordinator/store.go:251-269 | token hash and update time of that one record change |
| `Coordinator.CoordinatorConfig.SetBlacklist` | internal/coordinator/store.go:273-283 | flag and update time of that one record change |
| `Coordinator.CoordinatorConfig.AddRoutes` | internal/coordinator/store.go:121-156 | the node's list grows by the canonical routes it lacks, in order, and it is stamped if any |
| `Coordinator.CoordinatorConfig.RemoveRoutes` | internal/coordinator/store.go:161-201 | the node's list loses the named routes and it is stamped if any |
| `Coordinator.CoordinatorConfig.HandleRegister` | internal/coordinator/server.go:59-106 | registration: every refusal, the edited record and the answer with the full peer set |
| `Coordinator.CoordinatorConfig.HandleHeartbeat` | internal/coordinator/server.go:108-186 | heartbeat: every refusal, the edited record and the delta computed against it |
| `Coordinator.ClientRecord.Beat` | internal/coordinator/server.go:131-144 | the caller's record field by field, in the order the code sets them |
| `Coordinator.ClientRecord.Join` | internal/coordinator/server.go:80-90 | likewise for a registration |
| `Coordinator.CoordinatorConfig.Delta` | internal/coordinator/server.go:146-165 | the loop computes what the caller lacks or holds outdated, and the advertised ids |
| `Coordinator.Dropped` | internal/coordinator/server.go:166-171 | the loop computes the reported ids no longer advertised |
| `Coordinator.CoordinatorConfig.BuildPeers` | internal/coordinator/server.go:190-217 | the loop builds the hub's record and every other active client's, in order |
| `Coordinator.Canonicalise` | internal/coordinator/store.go:392-410 | the loop with its seen-set computes the canonical list or the first refusal |
| `Coordinator.CoordinatorConfig.CheckFree` | internal/coordinator/store.go:339-356 | the loop finds the refusal the check decides, in its order of precedence |
| `Coordinator.CoordinatorConfig.Used` | internal/coordinator/store.go:324-335 | the loop lists the hub's address and the clients' |
| `Coordinator.CoordinatorConfig.RoutesTarget` | internal/coordinator/store.go:367-376 | the hub's names resolve to the hub, others to the first client of that name, or to nothing |
| `Coordinator.CoordinatorConfig.SetTarget` | internal/coordinator/store.go:187-194 | writing the list back and stamping touch that node's list and update time only |
| `Coordinator.CoordinatorConfig.UpdateTimeOf` | internal/coordinator/server.go:155-160 | the update time looked up for a peer: the hub's own, or the client record's |
| `Coordinator.Absent` | internal/coordinator/store.go:135-146 | the loop computes the canonical routes the list lacks, in order |
| `Coordinator.Partition` | internal/coordinator/store.go:179-187 | the loop splits the list into what stays and what goes, each in order |
| `Mesh.IndexByID` | internal/coordinator/store.go:314-321 | the first client with an id, or none |
| `Mesh.IndexByAddr` | internal/coordinator/store.go:350-354 | the first client other than the excepted one holding an address, or none |
| `Mesh.FindByToken` | internal/coordinator/store.go:295-300 | some client's record whose hash matches, and none exactly when no hash does |
| `ClientCache.ClientConfig.ApplyDelta` | internal/client/client.go:295-322 | overwriting and compacting the array in place gives the folded list, order included |
| `ClientCache.ClientConfig.Compact` | internal/client/client.go:309-321 | the in-place compaction keeps exactly the peers not dropped, in order |
| `ClientCache.ClientConfig.Upsert` | internal/client/client.go:300-308 | a peer overwrites the last of its id or is appended, and the index of positions stays exact |
| `ClientCache.ClientConfig.Index` | internal/client/client.go:296-299 | the positions by id, of two peers with one id the later |
| `ClientCache.ClientConfig.Append` | internal/client/client.go:305 | appending keeps what was there, whether or not the array had room |
| `ClientCache.ClientConfig.PeerIDs` | internal/client/client.go:332-338 | the cached ids in order |
| `PeerSet.LastWithID` | internal/client/client.go:296-299 | the last position holding an id, or none |
| `ClientCache.ClientConfig.TakeBeat` | internal/client/client.go:124-133 | a delivered heartbeat changes the list, the address, the range and the mesh URL as promised, and no other field |
| `ClientCache.ClientConfig.TakeRegistration` | internal/client/client.go:96-101 | a registration replaces the list by the full set |
| `ClientCache.ClientConfig.Report` | internal/client/client.go:114-119 | a heartbeat reports the cached ids in order and the registered identity |
| `ClientCache.PeersProgrammed` | internal/client/client.go:246-255 | every cached peer is programmed in order with its key and allowed addresses; its endpoint follows the override for its id, else for its name, else the advertised one |
| `ClientCache.ClientConfig.DesiredInterface` | internal/client/client.go:233-255 | the interface programmed from the cached list, endpoint overrides resolved at that moment |
| `Adverts.ClientAdvertised` | internal/coordinator/server.go:203-228 | a client's record in any full set has its id, name, key and endpoint, and its allowed text reads back as its address and exactly its routes |
| `Adverts.HubAdvertised` | internal/coordinator/server.go:192-202 | the hub's record is there if and only if it has a key, at its public host with its own port, and its allowed text reads back as its address and exactly its routes |
| `Adverts.Programmed` | internal/coordinator/service.go:126-135 | the hub programs one peer per active client, in order, with its key, endpoint, address and exactly its routes |
| `Adverts.AddedIsAdvertised` | internal/coordinator/store.go:121-156 | every route an addition reports is in the node's record of every full set |
| `Adverts.RemovedIsNotAdvertised` | internal/coordinator/store.go:161-201 | a route a removal reports is in that record if and only if it spells the node's own address |
| `Views.DesiredInterface` | internal/coordinator/service.go:115-137 | the hub programs every active client, in order, with its pool's mask |
| `Views.DesiredSplit` | internal/coordinator/service.go:126-135 | one client contributes its record at its place if and only if it is active; a blacklisted one is as if removed |
| `Views.ViewsAgree` | internal/coordinator/server.go:203-217 | what is advertised to a client, the hub aside, is what the hub programs for everybody else, in the same order |
| `Views.AdvertisedSymmetrically` | internal/coordinator/server.go:203-208 | two clients see each other symmetrically if and only if both are active or neither is |
| `Views.CleanJoin` | internal/wgctl/wgctl.go:161-167 | cleaning distributes over the ", " join |
| `Views.SameSection` | internal/wgctl/wgctl.go:157-175 | the section a client prints for a peer is the hub's plus the keepalive line if and only if the peer has an allowed address |
| `Views.SectionsAgree` | internal/client/client.go:246-255 | in every reachable registry that holds for every peer a client is advertised |
| `Render.RenderInvertible` | internal/wgctl/wgctl.go:130-175 | for any peer field contents, reading the text back gives one interface section and one section per peer, in order, with the cleaned fields |
| `Render.QuickIsSyncPlusAddress` | internal/wgctl/wgctl.go:130-155 | the two forms differ by the Address line only |
| `Render.FieldsReadBack` | internal/wgctl/wgctl.go:130-175 | by name: each section read back has exactly the lines its fields call for, under the keys of the format |
| `Render.RenderQuickConfig` | internal/wgctl/wgctl.go:130-142 | the printer, writing piece by piece, produces that text |
| `Render.RenderSyncConf` | internal/wgctl/wgctl.go:146-155 | likewise without the Address line |
| `Render.WritePeers` | internal/wgctl/wgctl.go:157-175 | one section per peer, appended in order |
| `Render.WritePeer` | internal/wgctl/wgctl.go:158-173 | one peer's section with exactly the lines its fields call for |
| `Render.JoinClean` | internal/wgctl/wgctl.go:161-167 | the loop cleans each address and joins them |
| `Render.CleanIsOneLine` | internal/wgctl/wgctl.go:179-181 | a cleaned value holds no line break, and a value without one is unchanged |
| `Endpoints.EndpointRoundTrip` | internal/coordinator/server.go:241-246 | for a validated host and a positive port the endpoint splits back into both if and only if the host holds no bracket, and then that port is the advertised one |
| `Endpoints.HostAccepted` | internal/valid/valid.go:23-40 | every name of the DNS alphabet and every IPv4 literal of up to 253 characters is accepted |
| `Endpoints.OverrideAcceptedIff` | internal/valid/valid.go:45-58 | exactly which overrides are accepted, with ports from 1 to 65535 |
| `Endpoints.AdvertisedPortIs` | internal/config/config.go:170-177 | the advertised port, or 51820 exactly when no positive one is advertised |
| `Endpoints.HostWithin` | internal/valid/valid.go:23-40 | a validated host without a zone holds letters, digits, dots, dashes and colons only |
| `Endpoints.BracketedZone` | internal/valid/valid.go:30-32 | a bracket in a zone is accepted and breaks the round trip |
| `Endpoints.OverrideResolves` | internal/config/config.go:143-155 | a validated zone-free override resolves to no endpoint or to a valid host with a positive port; a bare host takes the advertised port or the default |
| `Endpoints.PinKeepsPort` | internal/config/config.go:139-155 | pinning a peer to a bare host keeps the port it was advertised with |
| `Timestamps.ChangedIsNewer` | internal/coordinator/server.go:161 | the heartbeat's comparison of recorded texts is the comparison of the instants, unset times included |
| `Timestamps.TextOrder` | internal/coordinator/store.go:414 | for years 0000 to 9999 recorded texts compare byte by byte exactly as the instants they denote |
| `Timestamps.TextIs` | internal/coordinator/store.go:414 | the recorded text: the six fields at their widths with the marks of section 5.6 of RFC 3339 |
| `Timestamps.FieldsAre` | internal/coordinator/store.go:414 | the fields are a valid calendar date and a time of day that make up the instant |
| `Timestamps.FieldOrder` | internal/coordinator/store.go:414 | calendar fields compare as the instants do |
| `Timestamps.CalendarRoundTrip` | internal/coordinator/store.go:414 | converting between days and calendar dates is a bijection |
| `Timestamps.FourDigits` | internal/coordinator/store.go:414 | the recorded year has four digits exactly before day 3652425 of the calendar |
| `Timestamps.UnixEpoch` | internal/coordinator/store.go:414 | the calendar is anchored: day 719528 is 1 January 1970 |
| `Timestamps.TextOrderExact` | internal/coordinator/store.go:414 | for all instants: years of equally many digits always compare right, and a year of fewer digits compares right with a longer one if and only if it is at most the longer one's first digits |
| `Timestamps.Year10000` | internal/coordinator/store.go:414 | a pair that goes wrong: the start of the year 10000 is recorded as before the start of the year 2000 |
| `Fallback.Poster.Post` | internal/client/client.go:347-366 | at most two requests, the public one after a mesh attempt exactly when that failed retryably, at most one response decoded on every path, and the cooldown set exactly then |
| `Fallback.Do` | internal/client/client.go:371-400 | which failures are retryable, and that a response is decoded exactly when its status is a success, at most once |
| `Fallback.Poster.InternalBase` | internal/client/client.go:406-422 | the mesh URL is used exactly when it is advertised, inside the pool, carried by a tunnel and not cooling down |
| `Fallback.HasCoordinatorPeer` | internal/client/client.go:441-448 | whether the hub is among the cached peers |
| `Fallback.OutcomeClasses` | internal/client/client.go:381-399 | by status: 500 to 599 and transport failures are retryable, 200 to 299 is decoded, and nothing is both |
| `Fallback.WorthTryingIff` | internal/client/client.go:406-448 | exactly when the mesh is worth trying |
| `Fallback.DecisiveIsLast` | internal/client/client.go:352-365 | the result is that of the last request made, and the mesh comes first when tried |
| `Fallback.Sent` | internal/client/client.go:347-366 | one or two requests; two exactly on a retryable mesh failure |
| `Fallback.FailuresSpaced` | internal/client/client.go:418-428 | retryable mesh failures of a run start at least a cooldown after every earlier one ended |
| `Fallback.CooldownBound` | internal/client/client.go:424-428 | k failures within a span T satisfy k <= 1 + T / 5 min, and their stalls total at most 5k seconds |
| `Fallback.MeshTriedIff` | internal/client/client.go:406-428 | a call of a run tries the mesh if and only if it is worth trying and no earlier failure ended less than a cooldown before |
| `Fallback.PostAll` | internal/client/client.go:154-163 | beating again and again through one process makes one request per call plus one per failure |

## Left out

- Netip.ParsePrefix: IPv4 only; an IPv6 pool or route reads as malformed, because there text equality is not address equality and the fixed /32 does not fit.
- Valid.CIDR: IPv4 routes only, for the same reason; IPv6 literals are recognised only as endpoint hosts.
- Base.TrimSpace: trims ASCII white space; strings are sequences of bytes, and other Unicode white space is not trimmed.
- Mesh.ValidKey: the shape of a base64 text of 32 bytes; the bytes themselves do not matter to the registry.
- Mesh.Heartbeat: reads the clock once per call, where the code reads it once for the update time and once for the last-seen time.
- DeltaSync.Step: one request in flight per node and one node per client id; a mesh attempt given up on is not served after its public retry, and the address, range and URL a reply carries are in `ClientCache` instead.
- Store.Step: preparing directories, permissions and removing leftover temporary files are not steps of their own; their failures are `Fail`, and leftovers stay.
- Coordinator.CoordinatorConfig.RemoveRoutes: route lists are sequence fields, so writing through the shared backing array of a Go slice is not captured (for the client's peer list it is).
- Fallback.Poster.Post: encoding the request body and a call without a result to decode into are not modelled; the time limits of requests are taken to hold, and calls of one process follow one another.
- Tokens and ids are drawn fresh, and hashing a token is injective; key generation, TLS and constant-time comparison are not modelled.
- JSON and HTTP framing, the `wg` and `ip` commands and the reconcile loop's logging are foreign calls.
- Configuration paths, `init --force`, hand edits of the file and two client processes saving one configuration lie outside the protocol the code maintains.
- Disjointness of routes between nodes is advised by the documentation and enforced by no code.
- Command-line parsing, tables, interface names and default values are one-branch facts.
