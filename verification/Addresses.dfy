/** The registry's own invariant: ids, names and addresses stay unique through every operation, and
    the pool is refused exactly when it is full. */
module Addresses {
  import opened Base
  import opened Effects
  import opened IpAlloc
  import opened Mesh
  import opened Netip
  import opened PeerSet
  import opened Valid

  // --- the invariant ---

  ghost predicate UniqueNames(cs: seq<Client>) {
    forall i, j :: 0 <= i < j < |cs| ==> cs[i].name != cs[j].name
  }

  /** The text of an address strictly between the first and the last of the pool. */
  predicate PoolHost(ipRange: string, text: string) {
    var p, a := ParsePrefix(ipRange), ParseV4(text);
    p.Some? && a.Some? && Masked(p.value).addr < a.value < Masked(p.value).addr + Span(p.value) - 1
  }

  /** Those are the texts the allocator accepts. */
  lemma UsableIsPoolHost(ipRange: string, text: string)
    ensures Usable(ipRange, text) == Ok(true) <==> PoolHost(ipRange, text)
  {
    var p, a := ParsePrefix(ipRange), ParseV4(text);
    if p.Some? && a.Some? {
      HostsAreInterior(p.value, a.value);
    }
  }

  /** Every address is a usable host of the pool, and no two coincide. */
  ghost predicate AddressesOk(reg: Registry) {
    && PoolHost(reg.ipRange, reg.address)
    && (forall i :: 0 <= i < |reg.clients| ==>
          PoolHost(reg.ipRange, reg.clients[i].address) && reg.clients[i].address != reg.address)
    && (forall i, j :: 0 <= i < j < |reg.clients| ==> reg.clients[i].address != reg.clients[j].address)
  }

  ghost predicate RegistryOk(reg: Registry) {
    && UniqueIDs(reg.clients)
    && (forall i :: 0 <= i < |reg.clients| ==> reg.clients[i].id != "")
    && UniqueNames(reg.clients)
    && AddressesOk(reg)
  }

  /** An operation that creates a client draws an id nobody has. */
  predicate DrawsNewID(op: Op, reg: Registry) {
    op.OpAdd? ==> NewID(reg, op.id) && op.id != ""
  }

  // --- preservation ---

  /** An address passed as free is usable and held by nobody else. */
  lemma FreeAddress(reg: Registry, addr: string, exceptID: string, i: nat)
    requires CheckAddrFree(reg, addr, exceptID).None? && i < |reg.clients|
    ensures PoolHost(reg.ipRange, addr) && addr != reg.address
    ensures reg.clients[i].id != exceptID ==> reg.clients[i].address != addr
  {
    UsableIsPoolHost(reg.ipRange, addr);
    hide PoolHost, Usable;
  }

  /** An address picked for a new client is usable and held by nobody. */
  lemma PickedAddress(reg: Registry, addr: string)
    requires RegistryOk(reg) && PickAddress(reg, addr).Ok?
    ensures var a := PickAddress(reg, addr).value;
            PoolHost(reg.ipRange, a) && a != reg.address &&
            forall i :: 0 <= i < |reg.clients| ==> reg.clients[i].address != a
  {
    hide PoolHost, Usable, NextFreeText;
    if addr == "" {
      AllAddressed(reg);
      LowestIsFree(reg);
    } else {
      FreeHost(reg, addr, "");
      forall i | 0 <= i < |reg.clients| ensures reg.clients[i].address != addr {
        FreeAddress(reg, addr, "", i);
      }
    }
  }

  lemma LowestIsFree(reg: Registry)
    requires NextFreeText(reg.ipRange, UsedAddrs(reg)).Ok?
    ensures var a := NextFreeText(reg.ipRange, UsedAddrs(reg)).value;
            PoolHost(reg.ipRange, a) && a !in UsedAddrs(reg)
    ensures reg.address != "" ==> reg.address in UsedAddrs(reg)
    ensures forall i :: 0 <= i < |reg.clients| && reg.clients[i].address != "" ==>
        reg.clients[i].address in UsedAddrs(reg)
    ensures NextFreeText(reg.ipRange, UsedAddrs(reg)).value != ""
  {
    LowestIsHost(reg.ipRange, UsedAddrs(reg));
    hide NextFreeText, PoolHost, Usable;
    forall i | 0 <= i < |reg.clients| && reg.clients[i].address != "" ensures reg.clients[i].address in UsedAddrs(reg) {
      ClientAddrIn(reg.clients, i);
    }
  }

  lemma LowestIsHost(ipRange: string, used: seq<string>)
    requires NextFreeText(ipRange, used).Ok?
    ensures var t := NextFreeText(ipRange, used).value; PoolHost(ipRange, t) && t !in used && t != ""
  {
    var p, t := ParsePrefix(ipRange).value, NextFreeText(ipRange, used).value;
    NextFreeIsLeast(ipRange, used, p);
    hide NextFreeText, IsHost, ParsePrefix, ParseV4, Masked, Span, AddrText;
    var a: Addr :| t == AddrText(a) && IsHost(Masked(p), a) && a !in Taken(used);
    AddrTextParses(a);
    HostsAreInterior(p, a);
    HostNonEmpty(ipRange, t);
  }

  lemma {:induction false} ClientAddrIn(cs: seq<Client>, i: nat)
    requires i < |cs| && cs[i].address != ""
    ensures cs[i].address in ClientAddrs(cs)
  {
    if i < |cs| - 1 {
      ClientAddrIn(cs[..|cs| - 1], i);
    }
  }

  lemma HostNonEmpty(ipRange: string, text: string)
    requires PoolHost(ipRange, text)
    ensures text != "" && ParseV4(text).Some?
  {
    assert SplitOn("", '.') == [""];
  }

  lemma AllAddressed(reg: Registry)
    requires AddressesOk(reg)
    ensures ParseV4(reg.address).Some? && reg.address != ""
    ensures forall i :: 0 <= i < |reg.clients| ==> ParseV4(reg.clients[i].address).Some? && reg.clients[i].address != ""
  {
    hide PoolHost, ParseV4;
    HostNonEmpty(reg.ipRange, reg.address);
    forall i | 0 <= i < |reg.clients| ensures ParseV4(reg.clients[i].address).Some? && reg.clients[i].address != "" {
      HostNonEmpty(reg.ipRange, reg.clients[i].address);
    }
  }

  lemma FreeHost(reg: Registry, addr: string, exceptID: string)
    requires CheckAddrFree(reg, addr, exceptID).None?
    ensures PoolHost(reg.ipRange, addr) && addr != reg.address
  {
    UsableIsPoolHost(reg.ipRange, addr);
    hide PoolHost, Usable;
  }

  lemma AddKeeps(op: Op, reg: Registry, now: nat)
    requires RegistryOk(reg) && op.OpAdd? && DrawsNewID(op, reg) && Apply(op, reg, now).Applied?
    ensures RegistryOk(After(op, reg, now))
  {
    hide PoolHost, CanonRoutes, NextFreeText, CheckAddrFree;
    var c := Apply(op, reg, now).reply.client;
    FindAfterAppend(reg.clients, c, "");
    assert After(op, reg, now) == reg.(clients := reg.clients + [c]);
    assert IndexByName(reg.clients, c.name) == |reg.clients|;
    PickedAddress(reg, TrimSpace(op.address));
  }

  lemma RemoveKeeps(reg: Registry, name: string)
    requires RegistryOk(reg) && RemoveClient(reg, name).Applied?
    ensures RegistryOk(RemoveClient(reg, name).reg)
  {
    hide PoolHost, FindByID, IndexByName;
    var i := IndexByName(reg.clients, name);
    FindAfterSplice(reg.clients, i, "");
    var cs' := reg.clients[..i] + reg.clients[i + 1..];
    assert forall j :: 0 <= j < |cs'| ==> cs'[j] == reg.clients[if j < i then j else j + 1];
  }

  /** Replacing a record keeps the invariant when its name and address stay unique. */
  lemma SetKeeps(reg: Registry, i: nat, c': Client)
    requires RegistryOk(reg) && i < |reg.clients| && c'.id == reg.clients[i].id
    requires c'.name == reg.clients[i].name || IndexByName(reg.clients, c'.name) == |reg.clients|
    requires c'.address == reg.clients[i].address || CheckAddrFree(reg, c'.address, c'.id).None?
    ensures RegistryOk(SetClient(reg, i, c'))
  {
    FindAfterSet(reg.clients, i, c', "");
    if c'.address != reg.clients[i].address {
      forall j | 0 <= j < |reg.clients| ensures j != i ==> reg.clients[j].address != c'.address {
        FreeAddress(reg, c'.address, c'.id, j);
      }
      FreeAddress(reg, c'.address, c'.id, i);
    }
  }

  lemma ApplyKeeps(op: Op, reg: Registry, now: nat)
    requires RegistryOk(reg) && DrawsNewID(op, reg)
    ensures RegistryOk(After(op, reg, now))
  {
    hide RegistryOk, AddClient, RemoveClient, RenameClient, RegenToken, SetBlacklist, AddRoutes, RemoveRoutes,
        Register, Heartbeat;
    if Apply(op, reg, now).Applied? {
      match op
      case OpAdd(_, _, _, _, _) => AddKeeps(op, reg, now);
      case OpRemove(name) => RemoveKeeps(reg, name);
      case OpRename(name, _) => NamedKeeps(op, reg, now, IndexByName(reg.clients, name));
      case OpRegen(name, _) => NamedKeeps(op, reg, now, IndexByName(reg.clients, name));
      case OpBlacklist(name, _) => NamedKeeps(op, reg, now, IndexByName(reg.clients, name));
      case OpAddRoutes(node, _) => RoutesKeepAddresses(op, node, reg, now);
      case OpRemoveRoutes(node, _) => RoutesKeepAddresses(op, node, reg, now);
      case OpRegister(id, _) => AnswersKeep(op, reg, now, IndexByID(reg.clients, id));
      case OpBeat(id, _) => AnswersKeep(op, reg, now, IndexByID(reg.clients, id));
    }
  }

  lemma NamedKeeps(op: Op, reg: Registry, now: nat, i: nat)
    requires RegistryOk(reg) && (op.OpRename? || op.OpRegen? || op.OpBlacklist?) &&
        i == IndexByName(reg.clients, op.name)
    requires Apply(op, reg, now).Applied?
    ensures RegistryOk(After(op, reg, now))
  {
    hide RegistryOk, CheckAddrFree, TrimSpace;
    SetKeeps(reg, i, After(op, reg, now).clients[i]);
  }

  lemma AnswersKeep(op: Op, reg: Registry, now: nat, i: nat)
    requires RegistryOk(reg) && (op.OpRegister? || op.OpBeat?) && i == IndexByID(reg.clients, op.id)
    requires Apply(op, reg, now).Applied?
    ensures RegistryOk(After(op, reg, now))
  {
    hide RegistryOk, CheckAddrFree, BuildPeers, EndpointFrom, InternalControlURL, Missing, Gone;
    SetKeeps(reg, i, After(op, reg, now).clients[i]);
  }

  lemma RoutesKeepAddresses(op: Op, node: string, reg: Registry, now: nat)
    requires RegistryOk(reg) && (op.OpAddRoutes? || op.OpRemoveRoutes?) && op.node == node
    requires Apply(op, reg, now).Applied?
    ensures RegistryOk(After(op, reg, now))
  {
    hide CanonRoutes, Filter, CheckAddrFree, PoolHost;
    if !IsHub(node) {
      var i := IndexByName(reg.clients, node);
      SetKeeps(reg, i, After(op, reg, now).clients[i]);
    }
  }

  /** A history of the registry: operations with the second each was applied in. */
  function Replay(reg: Registry, ops: seq<(Op, nat)>): Registry {
    if ops == [] then reg
    else After(ops[|ops| - 1].0, Replay(reg, ops[..|ops| - 1]), ops[|ops| - 1].1)
  }

  predicate AllDrawNewIDs(reg: Registry, ops: seq<(Op, nat)>) {
    ops == [] ||
    (AllDrawNewIDs(reg, ops[..|ops| - 1]) && DrawsNewID(ops[|ops| - 1].0, Replay(reg, ops[..|ops| - 1])))
  }

  /** Every reachable registry keeps ids and names unique, and addresses usable and distinct. */
  lemma {:induction false} ReplayKeeps(reg: Registry, ops: seq<(Op, nat)>)
    requires RegistryOk(reg) && AllDrawNewIDs(reg, ops)
    ensures RegistryOk(Replay(reg, ops))
    ensures Replay(reg, ops).ipRange == reg.ipRange
  {
    if ops != [] {
      hide Apply;
      ReplayKeeps(reg, ops[..|ops| - 1]);
      var prior := Replay(reg, ops[..|ops| - 1]);
      ApplyKeeps(ops[|ops| - 1].0, prior, ops[|ops| - 1].1);
      RangeFixed(ops[|ops| - 1].0, prior, ops[|ops| - 1].1);
    }
  }

  lemma RangeFixed(op: Op, reg: Registry, now: nat)
    ensures After(op, reg, now).ipRange == reg.ipRange
  {
    hide CanonRoutes, Filter, CheckAddrFree, NextFreeText, BuildPeers, IndexByName, IndexByID;
  }

  /** A freshly initialised hub satisfies the invariant exactly when its own address is usable; the
      default address is, for mask lengths up to 30 and no other. */
  lemma InitialRegistry(reg: Registry)
    requires reg.clients == []
    ensures RegistryOk(reg) <==> Usable(reg.ipRange, reg.address) == Ok(true)
    ensures ParsePrefix(reg.ipRange).Some? && FirstHost(reg.ipRange) == Ok(reg.address) ==>
            (RegistryOk(reg) <==> ParsePrefix(reg.ipRange).value.bits <= 30)
  {
    UsableIsPoolHost(reg.ipRange, reg.address);
    hide PoolHost, Usable, FirstHost, ParsePrefix;
    if ParsePrefix(reg.ipRange).Some? {
      FirstHostUsable(reg.ipRange, ParsePrefix(reg.ipRange).value);
    }
  }

  // --- counting ---

  /** The whole numbers in [lo, hi). */
  function Range(lo: nat, hi: nat): set<nat>
    requires lo <= hi
    decreases hi - lo
  {
    if lo == hi then {} else {lo} + Range(lo + 1, hi)
  }

  lemma {:induction false} RangeMember(lo: nat, hi: nat, a: nat)
    requires lo <= hi
    ensures a in Range(lo, hi) <==> lo <= a < hi
    decreases hi - lo
  {
    if lo < hi {
      RangeMember(lo + 1, hi, a);
    }
  }

  lemma {:induction false} RangeSize(lo: nat, hi: nat)
    requires lo <= hi
    ensures |Range(lo, hi)| == hi - lo
    decreases hi - lo
  {
    if lo < hi {
      RangeSize(lo + 1, hi);
      RangeMember(lo + 1, hi, lo);
    }
  }

  lemma SubsetSize<T>(a: set<T>, b: set<T>)
    requires a <= b
    ensures |a| <= |b|
    ensures |a| == |b| <==> a == b
  {
    assert b == a + (b - a);
  }

  function AddrOf(text: string): nat {
    match ParseV4(text)
    case Some(a) => a
    case None => 0
  }

  function ClientAddrSet(cs: seq<Client>): set<nat> {
    if cs == [] then {} else ClientAddrSet(cs[..|cs| - 1]) + {AddrOf(cs[|cs| - 1].address)}
  }

  lemma {:induction false} ClientAddrSetMember(cs: seq<Client>, a: nat)
    ensures a in ClientAddrSet(cs) <==> exists i :: 0 <= i < |cs| && AddrOf(cs[i].address) == a
  {
    if cs != [] {
      var front := cs[..|cs| - 1];
      ClientAddrSetMember(front, a);
      assert forall i :: 0 <= i < |front| ==> front[i] == cs[i];
      assert cs[|cs| - 1].address == cs[|cs| - 1].address;
    }
  }

  /** Distinct valid texts name distinct addresses. */
  lemma TextsApart(s: string, t: string)
    requires ParseV4(s).Some? && ParseV4(t).Some? && s != t
    ensures AddrOf(s) != AddrOf(t)
  {
    AddrTextUnique(s);
    AddrTextUnique(t);
  }

  lemma {:induction false} ClientAddrSetSize(cs: seq<Client>)
    requires forall i :: 0 <= i < |cs| ==> ParseV4(cs[i].address).Some?
    requires forall i, j :: 0 <= i < j < |cs| ==> cs[i].address != cs[j].address
    ensures |ClientAddrSet(cs)| == |cs|
  {
    if cs != [] {
      var front, c := cs[..|cs| - 1], cs[|cs| - 1];
      ClientAddrSetSize(front);
      ClientAddrSetMember(front, AddrOf(c.address));
      forall i | 0 <= i < |front| ensures AddrOf(front[i].address) != AddrOf(c.address) {
        TextsApart(front[i].address, c.address);
      }
    }
  }

  /** The addresses in use, as numbers. */
  function InUse(reg: Registry): set<nat> {
    {AddrOf(reg.address)} + ClientAddrSet(reg.clients)
  }

  lemma {:induction false} ClientAddrsTaken(cs: seq<Client>)
    requires forall i :: 0 <= i < |cs| ==> ParseV4(cs[i].address).Some? && cs[i].address != ""
    ensures Taken(ClientAddrs(cs)) == ClientAddrSet(cs)
  {
    if cs != [] {
      ClientAddrsTaken(cs[..|cs| - 1]);
    }
  }

  lemma InUseTaken(reg: Registry)
    requires AddressesOk(reg)
    ensures Taken(UsedAddrs(reg)) == InUse(reg)
  {
    AllAddressed(reg);
    hide PoolHost, AddressesOk, ClientAddrs, ClientAddrSet, Taken, AddrOf;
    ClientAddrsTaken(reg.clients);
    TakenJoin([reg.address], ClientAddrs(reg.clients));
    TakenOne(reg.address);
  }

  lemma TakenOne(text: string)
    requires ParseV4(text).Some?
    ensures Taken([text]) == {AddrOf(text)}
  {
    hide ParseV4;
    assert [text][0] == text;
  }

  lemma TakenJoin(a: seq<string>, b: seq<string>)
    ensures Taken(a + b) == Taken(a) + Taken(b)
  {
    hide ParseV4;
    assert forall u :: u in a + b <==> u in a || u in b;
  }

  lemma InUseSize(reg: Registry)
    requires AddressesOk(reg)
    ensures |InUse(reg)| == |reg.clients| + 1
  {
    AllAddressed(reg);
    hide PoolHost, AddrOf, ParseV4;
    ClientAddrSetSize(reg.clients);
    ClientAddrSetMember(reg.clients, AddrOf(reg.address));
    forall i | 0 <= i < |reg.clients| ensures AddrOf(reg.clients[i].address) != AddrOf(reg.address) {
      TextsApart(reg.clients[i].address, reg.address);
    }
  }

  function Hosts(p: Prefix): set<nat>
    requires ValidPrefix(p) && Span(p) >= 2
  {
    Range(Masked(p).addr + 1, Masked(p).addr + Span(p) - 1)
  }

  lemma UsedAreHosts(reg: Registry, p: Prefix)
    requires AddressesOk(reg) && ParsePrefix(reg.ipRange) == Some(p)
    ensures Span(p) >= 2 && InUse(reg) <= Hosts(p)
  {
    hide PoolHost, ParsePrefix, AddrOf, Masked, Span;
    UsedIsHost(reg, p, reg.address);
    forall a | a in InUse(reg) ensures a in Range(Masked(p).addr + 1, Masked(p).addr + Span(p) - 1) {
      RangeMember(Masked(p).addr + 1, Masked(p).addr + Span(p) - 1, a);
      ClientAddrSetMember(reg.clients, a);
      if a in ClientAddrSet(reg.clients) {
        var i :| 0 <= i < |reg.clients| && AddrOf(reg.clients[i].address) == a;
        UsedIsHost(reg, p, reg.clients[i].address);
      }
    }
  }

  lemma UsedIsHost(reg: Registry, p: Prefix, text: string)
    requires ParsePrefix(reg.ipRange) == Some(p) && PoolHost(reg.ipRange, text)
    ensures Masked(p).addr < AddrOf(text) < Masked(p).addr + Span(p) - 1
  {
  }

  /** The search for a free address fails exactly when every host of the pool is in use. */
  lemma FullWhenAllUsed(reg: Registry, p: Prefix)
    requires AddressesOk(reg) && ParsePrefix(reg.ipRange) == Some(p) && Span(p) >= 2
    ensures NextFreeText(reg.ipRange, UsedAddrs(reg)).Err? <==> Hosts(p) <= InUse(reg)
    ensures NextFreeText(reg.ipRange, UsedAddrs(reg)).Err? ==>
            NextFreeText(reg.ipRange, UsedAddrs(reg)).error == Exhausted(reg.ipRange)
  {
    hide PoolHost, Masked, LastAddr, UsedAddrs, Taken, InUse, AddressesOk;
    InUseTaken(reg);
    MaskedFits(p);
    LastAddrValue(p);
    FreeNone(Masked(p).addr + 1, Masked(p).addr + Span(p) - 1, Taken(UsedAddrs(reg)));
  }

  lemma FreeNone(lo: nat, hi: nat, taken: set<Addr>)
    requires lo <= hi
    ensures LowestFree(lo, hi, taken).None? <==> Range(lo, hi) <= taken
  {
    var r := LowestFree(lo, hi, taken);
    if r.Some? {
      RangeMember(lo, hi, r.value);
    } else {
      forall a | a in Range(lo, hi) ensures a in taken {
        RangeMember(lo, hi, a);
      }
    }
  }

  lemma {:induction false} BadRoutesOnly(cidrs: seq<string>)
    ensures CanonRoutes(cidrs).Err? ==> CanonRoutes(cidrs).error.BadRoute?
  {
    hide ParsePrefix, PrefixText, Masked, TrimSpace;
    if cidrs != [] {
      BadRoutesOnly(cidrs[..|cidrs| - 1]);
    }
  }

  /** Adding without an address: exhaustion is reported exactly when everything else is in order and
      the search finds nothing. */
  lemma AutoAdd(reg: Registry, name: string, cidrs: seq<string>, id: string, token: string, now: nat)
    requires ParsePrefix(reg.ipRange).Some?
    ensures var out, free := AddClient(reg, name, "", cidrs, id, token, now), NextFreeText(reg.ipRange, UsedAddrs(reg));
            out == Refused(Exhausted(reg.ipRange)) <==>
            TrimSpace(name) != "" && IndexByName(reg.clients, TrimSpace(name)) == |reg.clients| &&
            CanonRoutes(cidrs).Ok? && free.Err?
  {
    BadRoutesOnly(cidrs);
    hide ParsePrefix, UsedAddrs, LowestFreeHost, CanonRoutes, Taken, IndexByName;
    assert TrimSpace("") == "";
  }

  /** The pool never overflows, and adding a client that asks for no address is refused for exhaustion
      exactly when its name is new, its routes are in order, and the hub and the clients use up all
      2^(32 - bits) - 2 hosts. */
  lemma Capacity(reg: Registry, p: Prefix, name: string, cidrs: seq<string>, id: string, token: string, now: nat)
    requires RegistryOk(reg) && ParsePrefix(reg.ipRange) == Some(p)
    ensures |reg.clients| + 1 <= Pow2(32 - p.bits) - 2
    ensures AddClient(reg, name, "", cidrs, id, token, now) == Refused(Exhausted(reg.ipRange)) <==>
            TrimSpace(name) != "" && IndexByName(reg.clients, TrimSpace(name)) == |reg.clients| &&
            CanonRoutes(cidrs).Ok? && |reg.clients| + 1 == Pow2(32 - p.bits) - 2
  {
    hide *;
    AutoAdd(reg, name, cidrs, id, token, now);
    PoolCount(reg, p);
  }

  /** Counting: at most all hosts are in use, and the search fails exactly when all are. */
  lemma PoolCount(reg: Registry, p: Prefix)
    requires RegistryOk(reg) && ParsePrefix(reg.ipRange) == Some(p)
    ensures |reg.clients| + 1 <= Pow2(32 - p.bits) - 2
    ensures NextFreeText(reg.ipRange, UsedAddrs(reg)).Err? <==> |reg.clients| + 1 == Pow2(32 - p.bits) - 2
  {
    hide PoolHost, NextFreeText, UsedAddrs, Masked, LastAddr, Pow2, InUse;
    UsedAreHosts(reg, p);
    InUseSize(reg);
    RangeSize(Masked(p).addr + 1, Masked(p).addr + Span(p) - 1);
    SubsetSize(InUse(reg), Hosts(p));
    FullWhenAllUsed(reg, p);
  }
}
