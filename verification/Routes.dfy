/** Route edits: the canonical lists they keep, how adding and removing undo each other, and which
    record they stamp. */
module Routes {
  import opened Addresses
  import opened Base
  import opened Effects
  import opened IpAlloc
  import opened Mesh
  import opened Valid

  // --- canonical lists ---

  /** Canonical routes, none of them twice. */
  ghost predicate Canonical(routes: seq<string>) {
    Distinct(routes) && forall r :: r in routes ==> CIDR(r) == Ok(r)
  }

  /** Canonicalising fails exactly when some entry is not a route; otherwise it gives a canonical list
      of exactly the canonical forms of the entries. */
  lemma {:induction false} CanonRoutesAre(cidrs: seq<string>)
    ensures CanonRoutes(cidrs).Err? <==> exists c :: c in cidrs && CIDR(c).Err?
    ensures CanonRoutes(cidrs).Ok? ==>
            Canonical(CanonRoutes(cidrs).value) &&
            forall r :: r in CanonRoutes(cidrs).value <==> exists c :: c in cidrs && CIDR(c) == Ok(r)
  {
    hide CIDR;
    if cidrs != [] {
      var front, last := cidrs[..|cidrs| - 1], cidrs[|cidrs| - 1];
      CanonRoutesAre(front);
      assert cidrs == front + [last];
      if CIDR(last).Ok? {
        CIDRIdempotent(last);
      }
      if CanonRoutes(cidrs).Ok? {
        forall r ensures r in CanonRoutes(cidrs).value <==> exists c :: c in cidrs && CIDR(c) == Ok(r) {
          if r == CIDR(last).value {
            assert last in cidrs;
          }
        }
      } else if CIDR(last).Err? {
        assert last in cidrs;
      }
    }
  }

  /** The canonical lists are the fixed points of canonicalising. */
  lemma {:induction false} CanonRoutesFixed(routes: seq<string>)
    ensures CanonRoutes(routes) == Ok(routes) <==> Canonical(routes)
  {
    hide CIDR;
    CanonRoutesAre(routes);
    if Canonical(routes) {
      CanonRoutesKeep(routes);
    }
  }

  lemma {:induction false} CanonRoutesKeep(routes: seq<string>)
    requires Canonical(routes)
    ensures CanonRoutes(routes) == Ok(routes)
  {
    hide CIDR;
    if routes != [] {
      var front, last := routes[..|routes| - 1], routes[|routes| - 1];
      assert routes == front + [last];
      CanonRoutesKeep(front);
    }
  }

  lemma CanonicalSubset(routes: seq<string>, keep: string -> bool)
    requires Canonical(routes)
    ensures Canonical(Filter(routes, keep))
  {
    hide CIDR;
    FilterDistinct(routes, keep);
    forall r | r in Filter(routes, keep) ensures CIDR(r) == Ok(r) {
      FilterMember(routes, keep, r);
    }
  }

  lemma CanonicalUnion(a: seq<string>, b: seq<string>)
    requires Canonical(a) && Canonical(b) && forall r :: r in b ==> r !in a
    ensures Canonical(a + b)
  {
    hide CIDR;
    forall i, j | 0 <= i < j < |a + b| ensures (a + b)[i] != (a + b)[j] {
      if i < |a| <= j {
        assert (a + b)[j] in b && (a + b)[i] in a;
      }
    }
  }

  // --- adding and removing ---

  lemma {:induction false} FilterSplits(s: seq<string>, keep: string -> bool, drop: string -> bool)
    requires forall x :: x in s ==> drop(x) == !keep(x)
    ensures multiset(Filter(s, keep)) + multiset(Filter(s, drop)) == multiset(s)
  {
    if s != [] {
      var front, last := s[..|s| - 1], s[|s| - 1];
      FilterSplits(front, keep, drop);
      assert s == front + [last];
      assert multiset(s) == multiset(front) + multiset([last]);
      if keep(last) {
        assert multiset(Filter(s, keep)) == multiset(Filter(front, keep)) + multiset([last]);
      } else {
        assert multiset(Filter(s, drop)) == multiset(Filter(front, drop)) + multiset([last]);
      }
    }
  }

  /** `part` is `whole` with some positions left out. */
  predicate Subsequence<T(==)>(part: seq<T>, whole: seq<T>) {
    if part == [] then true
    else if whole == [] then false
    else
      (part[|part| - 1] == whole[|whole| - 1] && Subsequence(part[..|part| - 1], whole[..|whole| - 1])) ||
      Subsequence(part, whole[..|whole| - 1])
  }

  lemma {:induction false} FilterInOrder(s: seq<string>, keep: string -> bool)
    ensures Subsequence(Filter(s, keep), s)
  {
    if s != [] {
      FilterInOrder(s[..|s| - 1], keep);
    }
  }

  /** What an addition and a removal do, by parts. */
  lemma AddParts(reg: Registry, node: string, cidrs: seq<string>, now: nat)
    requires AddRoutes(reg, node, cidrs, now).Applied?
    ensures CanonRoutes(cidrs).Ok? && RoutesOf(reg, node).Some? && CanonRoutes(cidrs).value != []
    ensures var target, canon := RoutesOf(reg, node).value, CanonRoutes(cidrs).value;
            var added := Filter(canon, r => r !in target);
            AddRoutes(reg, node, cidrs, now) ==
              Applied(SetRoutes(reg, node, target + added, added != [], now), Routed(added))
  {
  }

  lemma RemoveParts(reg: Registry, node: string, cidrs: seq<string>, now: nat)
    requires RemoveRoutes(reg, node, cidrs, now).Applied?
    ensures CanonRoutes(cidrs).Ok? && RoutesOf(reg, node).Some? && CanonRoutes(cidrs).value != []
    ensures var target, canon := RoutesOf(reg, node).value, CanonRoutes(cidrs).value;
            var removed := Filter(target, r => r in canon);
            RemoveRoutes(reg, node, cidrs, now) ==
              Applied(SetRoutes(reg, node, Filter(target, r => r !in canon), removed != [], now), Routed(removed))
  {
  }

  /** Removing takes out exactly the named routes: what stays keeps its order and names none of them,
      and together with what was taken out it is a permutation of the list before. */
  lemma RemoveSplits(reg: Registry, node: string, cidrs: seq<string>, now: nat,
                     reg1: Registry, removed: seq<string>, before: seq<string>)
    requires RemoveRoutes(reg, node, cidrs, now) == Applied(reg1, Routed(removed))
    requires RoutesOf(reg, node) == Some(before)
    ensures RoutesOf(reg1, node).Some?
    ensures var after := RoutesOf(reg1, node).value;
            && Subsequence(after, before) && Subsequence(removed, before)
            && multiset(after) + multiset(removed) == multiset(before)
            && forall r :: r in before ==> (r in removed <==> exists c :: c in cidrs && CIDR(c) == Ok(r))
    ensures forall r :: r in removed ==> r !in RoutesOf(reg1, node).value
  {
    RemoveParts(reg, node, cidrs, now);
    hide RemoveRoutes, CIDR, SetRoutes, RoutesOf;
    var canon := CanonRoutes(cidrs).value;
    CanonRoutesAre(cidrs);
    var kept := Filter(before, r => r !in canon);
    FilterInOrder(before, r => r in canon);
    FilterInOrder(before, r => r !in canon);
    FilterSplits(before, r => r in canon, r => r !in canon);
    RoutesAfterSet(reg, node, kept, removed != [], now);
    forall r ensures r in before ==> (r in removed <==> r in canon)
             ensures r in removed ==> r !in kept
    {
      FilterMember(before, r => r in canon, r);
      FilterMember(before, r => r !in canon, r);
    }
  }

  lemma RoutesAfterSet(reg: Registry, node: string, routes: seq<string>, touch: bool, now: nat)
    requires RoutesOf(reg, node).Some?
    ensures RoutesOf(SetRoutes(reg, node, routes, touch, now), node) == Some(routes)
  {
    if !IsHub(node) {
      var i := IndexByName(reg.clients, node);
      var cs := SetRoutes(reg, node, routes, touch, now).clients;
      assert forall k :: 0 <= k < |cs| ==> cs[k].name == reg.clients[k].name;
      assert cs[i].name == node;
    }
  }

  /** Removing what an addition reported as added restores the list, and nothing but the node's update
      time tells; an addition that added nothing changed nothing. */
  lemma AddThenRemove(reg: Registry, node: string, cidrs: seq<string>, t1: nat, t2: nat)
    requires AddRoutes(reg, node, cidrs, t1).Applied?
    ensures var reg1, added := AddRoutes(reg, node, cidrs, t1).reg, AddRoutes(reg, node, cidrs, t1).reply.routes;
            if added == [] then reg1 == reg
            else
              RemoveRoutes(reg1, node, added, t2) ==
                Applied(SetRoutes(reg, node, RoutesOf(reg, node).value, true, t2), Routed(added))
  {
    var target, canon := RoutesOf(reg, node).value, CanonRoutes(cidrs).value;
    var added := Filter(canon, r => r !in target);
    CanonRoutesAre(cidrs);
    CanonicalSubset(canon, r => r !in target);
    CanonRoutesKeep(added);
    forall r | r in added ensures r !in target {
      FilterMember(canon, r => r !in target, r);
    }
    hide CIDR, CanonRoutes, Canonical;
    if added == [] {
      assert target + added == target;
      SetSame(reg, node, t1);
    } else {
      var reg1 := AddRoutes(reg, node, cidrs, t1).reg;
      RoutesAfterSet(reg, node, target + added, true, t1);
      TakeBack(target, added);
      SetTwice(reg, node, target + added, target, t1, t2);
    }
  }

  lemma TakeBack(target: seq<string>, added: seq<string>)
    requires forall r :: r in added ==> r !in target
    ensures Filter(target + added, r => r in added) == added
    ensures Filter(target + added, r => r !in added) == target
  {
    FilterAppend(target, added, r => r in added);
    FilterAppend(target, added, r => r !in added);
    FilterNone(target, r => r in added);
    FilterAll(added, r => r in added);
    FilterAll(target, r => r !in added);
    FilterNone(added, r => r !in added);
    assert [] + added == added && target + [] == target;
  }

  lemma SetSame(reg: Registry, node: string, now: nat)
    requires RoutesOf(reg, node).Some?
    ensures SetRoutes(reg, node, RoutesOf(reg, node).value, false, now) == reg
  {
    if !IsHub(node) {
      var i := IndexByName(reg.clients, node);
      assert reg.clients[i := reg.clients[i]] == reg.clients;
    }
  }

  lemma SetTwice(reg: Registry, node: string, first: seq<string>, second: seq<string>, t1: nat, t2: nat)
    requires RoutesOf(reg, node).Some?
    ensures var reg1 := SetRoutes(reg, node, first, true, t1);
            RoutesOf(reg1, node).Some? &&
            SetRoutes(reg1, node, second, true, t2) == SetRoutes(reg, node, second, true, t2)
  {
    RoutesAfterSet(reg, node, first, true, t1);
    if !IsHub(node) {
      var i := IndexByName(reg.clients, node);
      var c := reg.clients[i];
      var cs := SetRoutes(reg, node, first, true, t1).clients;
      assert forall k :: 0 <= k < |cs| ==> cs[k].name == reg.clients[k].name;
      assert cs[i := c.(routes := second, updatedAt := At(t2))] ==
          reg.clients[i := c.(routes := second, updatedAt := At(t2))];
    }
  }

  /** Adding back what a removal reported as removed gives a permutation of the list before it. */
  lemma RemoveThenAdd(reg: Registry, node: string, cidrs: seq<string>, t1: nat, t2: nat,
                      reg1: Registry, removed: seq<string>, before: seq<string>)
    requires RemoveRoutes(reg, node, cidrs, t1) == Applied(reg1, Routed(removed))
    requires RoutesOf(reg, node) == Some(before) && Canonical(before) && removed != []
    ensures RoutesOf(reg1, node).Some?
    ensures var again := RoutesOf(reg1, node).value + removed;
            AddRoutes(reg1, node, removed, t2) == Applied(SetRoutes(reg1, node, again, true, t2), Routed(removed)) &&
            multiset(again) == multiset(before)
  {
    RemoveSplits(reg, node, cidrs, t1, reg1, removed, before);
    RemoveParts(reg, node, cidrs, t1);
    hide CIDR, Subsequence, RemoveRoutes, SetRoutes, RoutesOf;
    var canon := CanonRoutes(cidrs).value;
    CanonicalSubset(before, r => r in canon);
    CanonRoutesKeep(removed);
    var kept := RoutesOf(reg1, node).value;
    FilterAll(removed, r => r !in kept);
  }

  // --- who is stamped ---

  /** Exactly the node whose list changed is stamped; nothing else in the registry moves. The hub's
      names win over a client of the same name, which stays untouched. */
  lemma EditStampsItsNode(op: Op, reg: Registry, now: nat)
    requires (op.OpAddRoutes? || op.OpRemoveRoutes?) && Apply(op, reg, now).Applied?
    ensures var reg', before := After(op, reg, now), RoutesOf(reg, op.node).value;
            var after := RoutesOf(reg', op.node);
            && after.Some?
            && (after.value == before ==> reg' == reg)
            && (after.value != before ==> reg' == SetRoutes(reg, op.node, after.value, true, now))
            && (IsHub(op.node) ==> reg'.clients == reg.clients)
            && (!IsHub(op.node) ==>
                  reg'.routes == reg.routes && reg'.updatedAt == reg.updatedAt &&
                  |reg'.clients| == |reg.clients| &&
                  forall i :: 0 <= i < |reg.clients| && i != IndexByName(reg.clients, op.node) ==>
                    reg'.clients[i] == reg.clients[i])
  {
    if op.OpAddRoutes? {
      AddParts(reg, op.node, op.cidrs, now);
      hide AddRoutes, CanonRoutes, SetRoutes, RoutesOf, Filter;
      var target, canon := RoutesOf(reg, op.node).value, CanonRoutes(op.cidrs).value;
      var added := Filter(canon, r => r !in target);
      assert added == [] ==> target + added == target;
      assert added != [] ==> |target + added| != |target|;
      EditStamps(reg, op.node, target + added, added != [], now);
    } else {
      RemoveParts(reg, op.node, op.cidrs, now);
      hide RemoveRoutes, CanonRoutes, SetRoutes, RoutesOf, Filter;
      var target, canon := RoutesOf(reg, op.node).value, CanonRoutes(op.cidrs).value;
      KeptShorter(target, canon);
      EditStamps(reg, op.node, Filter(target, r => r !in canon), Filter(target, r => r in canon) != [], now);
    }
  }

  lemma KeptShorter(target: seq<string>, canon: seq<string>)
    ensures Filter(target, r => r in canon) == [] <==> Filter(target, r => r !in canon) == target
  {
    var removed, kept := Filter(target, r => r in canon), Filter(target, r => r !in canon);
    FilterSplits(target, r => r in canon, r => r !in canon);
    NothingRemoved(target, canon);
    assert |multiset(kept)| == |kept| && |multiset(removed)| == |removed| && |multiset(target)| == |target|;
  }

  lemma EditStamps(reg: Registry, node: string, routes: seq<string>, touch: bool, now: nat)
    requires RoutesOf(reg, node).Some? && (touch <==> routes != RoutesOf(reg, node).value)
    ensures var reg' := SetRoutes(reg, node, routes, touch, now);
            && RoutesOf(reg', node) == Some(routes)
            && (!touch ==> reg' == reg)
            && (IsHub(node) ==> reg'.clients == reg.clients)
            && (!IsHub(node) ==>
                  reg'.routes == reg.routes && reg'.updatedAt == reg.updatedAt &&
                  |reg'.clients| == |reg.clients| &&
                  forall i :: 0 <= i < |reg.clients| && i != IndexByName(reg.clients, node) ==>
                    reg'.clients[i] == reg.clients[i])
  {
    RoutesAfterSet(reg, node, routes, touch, now);
    if !touch {
      SetSame(reg, node, now);
    }
  }

  // --- every reachable list ---

  ghost predicate RoutesOk(reg: Registry) {
    Canonical(reg.routes) && forall i :: 0 <= i < |reg.clients| ==> Canonical(reg.clients[i].routes)
  }

  lemma TargetOk(reg: Registry, node: string)
    requires RoutesOk(reg) && RoutesOf(reg, node).Some?
    ensures Canonical(RoutesOf(reg, node).value)
  {
  }

  lemma SetRoutesOk(reg: Registry, node: string, routes: seq<string>, touch: bool, now: nat)
    requires RoutesOk(reg) && RoutesOf(reg, node).Some? && Canonical(routes)
    ensures RoutesOk(SetRoutes(reg, node, routes, touch, now))
  {
    hide Canonical;
  }

  lemma AddRoutesOk(reg: Registry, node: string, cidrs: seq<string>, now: nat)
    requires RoutesOk(reg) && AddRoutes(reg, node, cidrs, now).Applied?
    ensures RoutesOk(AddRoutes(reg, node, cidrs, now).reg)
  {
    hide CIDR;
    var target, canon := RoutesOf(reg, node).value, CanonRoutes(cidrs).value;
    var added := Filter(canon, r => r !in target);
    TargetOk(reg, node);
    CanonRoutesAre(cidrs);
    CanonicalSubset(canon, r => r !in target);
    forall r | r in added ensures r !in target {
      FilterMember(canon, r => r !in target, r);
    }
    CanonicalUnion(target, added);
    hide Canonical, RoutesOk;
    SetRoutesOk(reg, node, target + added, added != [], now);
  }

  lemma RemoveRoutesOk(reg: Registry, node: string, cidrs: seq<string>, now: nat)
    requires RoutesOk(reg) && RemoveRoutes(reg, node, cidrs, now).Applied?
    ensures RoutesOk(RemoveRoutes(reg, node, cidrs, now).reg)
  {
    hide CIDR, Canonical;
    var target, canon := RoutesOf(reg, node).value, CanonRoutes(cidrs).value;
    TargetOk(reg, node);
    CanonicalSubset(target, r => r !in canon);
    hide RoutesOk;
    SetRoutesOk(reg, node, Filter(target, r => r !in canon), Filter(target, r => r in canon) != [], now);
  }

  /** An operation on one client other than a route edit keeps its routes. */
  lemma SameRoutesOk(reg: Registry, i: nat, c: Client)
    requires RoutesOk(reg) && i < |reg.clients| && c.routes == reg.clients[i].routes
    ensures RoutesOk(SetClient(reg, i, c))
  {
    hide Canonical;
  }

  lemma NewRoutesOk(op: Op, reg: Registry, now: nat)
    requires RoutesOk(reg) && op.OpAdd? && Apply(op, reg, now).Applied?
    ensures RoutesOk(After(op, reg, now))
  {
    CanonRoutesAre(op.cidrs);
    var c := Apply(op, reg, now).reply.client;
    assert After(op, reg, now) == reg.(clients := reg.clients + [c]) && c.routes == CanonRoutes(op.cidrs).value;
    hide Canonical, CanonRoutes, Apply;
  }

  lemma SpliceRoutesOk(reg: Registry, name: string)
    requires RoutesOk(reg) && RemoveClient(reg, name).Applied?
    ensures RoutesOk(RemoveClient(reg, name).reg)
  {
    hide Canonical;
  }

  lemma ApplyRoutesOk(op: Op, reg: Registry, now: nat)
    requires RoutesOk(reg)
    ensures RoutesOk(After(op, reg, now))
  {
    hide RoutesOk, NextFreeText, CheckAddrFree, CanonRoutes, Filter, BuildPeers, AddClient, AddRoutes, RemoveRoutes;
    if Apply(op, reg, now).Applied? {
      var reg' := After(op, reg, now);
      match op
      case OpAdd(_, _, _, _, _) => NewRoutesOk(op, reg, now);
      case OpRemove(name) => SpliceRoutesOk(reg, name);
      case OpRename(name, _) => SameRoutesOk(reg, IndexByName(reg.clients, name),
          reg'.clients[IndexByName(reg.clients, name)]);
      case OpRegen(name, _) => SameRoutesOk(reg, IndexByName(reg.clients, name),
          reg'.clients[IndexByName(reg.clients, name)]);
      case OpBlacklist(name, _) => SameRoutesOk(reg, IndexByName(reg.clients, name),
          reg'.clients[IndexByName(reg.clients, name)]);
      case OpAddRoutes(node, cidrs) => AddRoutesOk(reg, node, cidrs, now);
      case OpRemoveRoutes(node, cidrs) => RemoveRoutesOk(reg, node, cidrs, now);
      case OpRegister(id, _) => SameRoutesOk(reg, IndexByID(reg.clients, id), reg'.clients[IndexByID(reg.clients, id)]);
      case OpBeat(id, _) => SameRoutesOk(reg, IndexByID(reg.clients, id), reg'.clients[IndexByID(reg.clients, id)]);
    }
  }

  /** Every route list of every reachable registry is canonical and free of duplicates. */
  lemma {:induction false} ReplayRoutesOk(reg: Registry, ops: seq<(Op, nat)>)
    requires RoutesOk(reg)
    ensures RoutesOk(Replay(reg, ops))
  {
    if ops != [] {
      ReplayRoutesOk(reg, ops[..|ops| - 1]);
      ApplyRoutesOk(ops[|ops| - 1].0, Replay(reg, ops[..|ops| - 1]), ops[|ops| - 1].1);
    }
  }
}
