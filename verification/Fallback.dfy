/** How a client reaches the control plane: over the mesh when that is worth trying, otherwise over the
    public address, with a pause after a mesh attempt fails. Times are nanoseconds of one clock that
    never goes back. */
module Fallback {
  import opened Addresses
  import opened Base
  import opened IpAlloc
  import opened Mesh

  const SECOND: nat := 1_000_000_000
  const INTERNAL_TIMEOUT: nat := 5 * SECOND
  const INTERNAL_COOLDOWN: nat := 5 * 60 * SECOND

  datatype Path = ByMesh | ByPublic

  /** What a response body is to the decoder: a value, or text it gives up on after writing part of it. */
  datatype Body = Decodes(value: string) | Garbled(partial: string)

  /** What the network makes of one request: it cannot even be built, nothing usable comes back, or a
      status and a body do. */
  datatype Exchange = NotSent | NoAnswer | Answered(status: nat, body: Body)

  datatype Failure = BadRequest | Unreachable | StatusError(status: nat) | BadBody

  datatype Verdict = Verdict(retry: bool, failure: Option<Failure>)

  /** Where a response is decoded into; `decodes` counts how often anything was. */
  class Out {
    var value: string
    var decodes: nat

    constructor ()
      ensures value == "" && decodes == 0
    {
      value, decodes := "", 0;
    }
  }

  /** A transport failure or a server error is worth retrying over the other path; any other answer
      would be the same there. */
  predicate Retryable(x: Exchange) {
    x.NoAnswer? || (x.Answered? && x.status / 100 == 5)
  }

  predicate Succeeds(x: Exchange) {
    x.Answered? && x.status / 100 == 2 && x.body.Decodes?
  }

  /** The body reaches the decoder. */
  predicate Decoded(x: Exchange) {
    x.Answered? && x.status / 100 == 2
  }

  function Written(x: Exchange): string
    requires Decoded(x)
  {
    match x.body
    case Decodes(v) => v
    case Garbled(p) => p
  }

  /** How a request failed, if it did: it could not be built, nothing usable came back, the status was none
      of 200 to 299, or the body did not decode. */
  function FailureOf(x: Exchange): Option<Failure> {
    match x
    case NotSent => Some(BadRequest)
    case NoAnswer => Some(Unreachable)
    case Answered(status, body) =>
      if !(200 <= status <= 299) then Some(StatusError(status))
      else if body.Garbled? then Some(BadBody) else None
  }

  /** The three classes of outcome, by status. */
  lemma OutcomeClasses(x: Exchange)
    ensures Retryable(x) <==> x == NoAnswer || (x.Answered? && 500 <= x.status <= 599)
    ensures Decoded(x) <==> x.Answered? && 200 <= x.status <= 299
    ensures Succeeds(x) <==> FailureOf(x) == None
    ensures !(Retryable(x) && Decoded(x))
  {
  }

  method Do(x: Exchange, out: Out) returns (v: Verdict)
    modifies out
    ensures v.retry <==> Retryable(x)
    ensures v.failure == FailureOf(x) && (v.failure.None? <==> Succeeds(x))
    ensures out.decodes == old(out.decodes) + if Decoded(x) then 1 else 0
    ensures out.value == if Decoded(x) then Written(x) else old(out.value)
  {
    if x.NotSent? {
      return Verdict(false, Some(BadRequest));
    }
    if x.NoAnswer? {
      return Verdict(true, Some(Unreachable));
    }
    if x.status / 100 != 2 {
      return Verdict(x.status / 100 == 5, Some(StatusError(x.status)));
    }
    out.decodes := out.decodes + 1;
    match x.body
    case Decodes(value) =>
      out.value := value;
      v := Verdict(false, None);
    case Garbled(partial) =>
      out.value := partial;
      v := Verdict(false, Some(BadBody));
  }

  // --- when the mesh is worth trying ---

  /** What a client knows that bears on the choice; `host` is the host name in `internalURL`, when that
      parses, and `available` whether this machine can hold a tunnel at all. */
  datatype Reach = Reach(
    coordinatorURL: string, internalURL: string, host: Option<string>, address: string, ipRange: string,
    peers: seq<Peer>, available: bool)

  predicate InMesh(r: Reach) {
    r.host.Some? && r.ipRange != "" && Usable(r.ipRange, r.host.value) == Ok(true)
  }

  method HasCoordinatorPeer(peers: seq<Peer>) returns (found: bool)
    ensures found <==> HUB_ID in PeerIDs(peers)
  {
    for i := 0 to |peers|
      invariant HUB_ID !in PeerIDs(peers[..i])
    {
      if peers[i].id == HUB_ID {
        assert PeerIDs(peers)[i] == HUB_ID;
        return true;
      }
      assert PeerIDs(peers[..i + 1]) == PeerIDs(peers[..i]) + [peers[i].id];
    }
    assert peers[..|peers|] == peers;
    return false;
  }

  /** Advertised by the hub, inside the pool, through a tunnel this machine has and holds the hub in. */
  predicate WorthTrying(r: Reach) {
    && r.internalURL != "" && r.internalURL != r.coordinatorURL && r.address != ""
    && InMesh(r) && HUB_ID in PeerIDs(r.peers) && r.available
  }

  /** In particular the URL lies inside the pool: at the text of one of its hosts. */
  lemma WorthTryingIff(r: Reach)
    ensures WorthTrying(r) <==>
            && r.internalURL != "" && r.internalURL != r.coordinatorURL && r.address != ""
            && r.host.Some? && PoolHost(r.ipRange, r.host.value)
            && (exists p :: p in r.peers && p.id == HUB_ID) && r.available
  {
    if r.host.Some? {
      UsableIsPoolHost(r.ipRange, r.host.value);
      NoRangeNoHost(r.ipRange, r.host.value);
    }
    HubHeld(r.peers);
    hide Usable, PoolHost, PeerIDs;
  }

  lemma NoRangeNoHost(ipRange: string, text: string)
    ensures PoolHost(ipRange, text) ==> ipRange != ""
  {
    assert SplitOn("", '/') == [""];
  }

  lemma HubHeld(peers: seq<Peer>)
    ensures HUB_ID in PeerIDs(peers) <==> exists p :: p in peers && p.id == HUB_ID
  {
    if HUB_ID in PeerIDs(peers) {
      var i :| 0 <= i < |peers| && PeerIDs(peers)[i] == HUB_ID;
      assert peers[i] in peers && peers[i].id == HUB_ID;
    }
    forall p | p in peers && p.id == HUB_ID ensures HUB_ID in PeerIDs(peers) {
      var i :| 0 <= i < |peers| && peers[i] == p;
      assert PeerIDs(peers)[i] == HUB_ID;
    }
  }

  // --- one call ---

  /** One call: what the client knows, when the call starts, when its mesh attempt (if it makes one)
      ends, and what the network would do on either path. */
  datatype Attempt = Attempt(reach: Reach, start: nat, end: nat, mesh: Exchange, public: Exchange)

  /** The same call, once it is known whether the mesh is worth trying. */
  datatype Call = Call(worth: bool, start: nat, end: nat, mesh: Exchange, public: Exchange)

  function CallOf(a: Attempt): Call {
    Call(WorthTrying(a.reach), a.start, a.end, a.mesh, a.public)
  }

  predicate TriesMesh(until: nat, c: Call) {
    c.worth && until <= c.start
  }

  /** A mesh attempt that fails in a way worth retrying. */
  predicate FallsBack(until: nat, c: Call) {
    TriesMesh(until, c) && Retryable(c.mesh)
  }

  /** The requests a call makes, in order. */
  function Sent(until: nat, c: Call): (ps: seq<Path>)
    ensures 1 <= |ps| <= 2
    ensures ByPublic in ps <==> !TriesMesh(until, c) || Retryable(c.mesh)
    ensures |ps| == 2 <==> FallsBack(until, c)
  {
    (if TriesMesh(until, c) then [ByMesh] else []) +
    (if TriesMesh(until, c) && !Retryable(c.mesh) then [] else [ByPublic])
  }

  function UntilAfter(until: nat, c: Call): nat {
    if FallsBack(until, c) then c.end + INTERNAL_COOLDOWN else until
  }

  /** The exchange that decides the call's result. */
  function Decisive(until: nat, c: Call): Exchange {
    if TriesMesh(until, c) && !Retryable(c.mesh) then c.mesh else c.public
  }

  /** It is the one of the last request made; the mesh comes first when it is tried at all. */
  lemma DecisiveIsLast(until: nat, c: Call)
    ensures var sent := Sent(until, c);
            && Decisive(until, c) == (match sent[|sent| - 1] case ByMesh => c.mesh case ByPublic => c.public)
            && (sent[0] == ByMesh <==> c.worth && until <= c.start)
            && (|sent| == 2 ==> sent == [ByMesh, ByPublic] && Retryable(c.mesh) && !Decoded(c.mesh))
  {
  }

  class Poster {
    /** Mesh attempts may resume at this time. */
    var internalUntil: nat
    /** The requests made, for stating what a call does. */
    ghost var requests: seq<Path>

    constructor ()
      ensures internalUntil == 0 && requests == []
    {
      internalUntil, requests := 0, [];
    }

    method InternalBase(r: Reach, now: nat) returns (base: string)
      ensures base == if WorthTrying(r) && internalUntil <= now then r.internalURL else ""
    {
      if r.internalURL == "" || r.internalURL == r.coordinatorURL || r.address == "" {
        return "";
      }
      var hub := HasCoordinatorPeer(r.peers);
      if !InMesh(r) || !hub {
        return "";
      }
      if !r.available {
        return "";
      }
      if now < internalUntil {
        return "";
      }
      base := r.internalURL;
    }

    /** From now on no call tries the mesh before five minutes have passed, and one worth it does after. */
    method CoolDownInternal(now: nat)
      modifies this`internalUntil
      ensures internalUntil == now + INTERNAL_COOLDOWN
      ensures forall c: Call :: TriesMesh(internalUntil, c) <==> c.worth && now + INTERNAL_COOLDOWN <= c.start
    {
      internalUntil := now + INTERNAL_COOLDOWN;
    }

    /** At most two requests; the public path after a mesh attempt exactly when that attempt failed in
        a way worth retrying; at most one response ever decoded, and it is the deciding one. */
    method Post(a: Attempt, out: Out) returns (failure: Option<Failure>)
      modifies this, out
      ensures requests == old(requests) + Sent(old(internalUntil), CallOf(a))
      ensures internalUntil == UntilAfter(old(internalUntil), CallOf(a))
      ensures failure == FailureOf(Decisive(old(internalUntil), CallOf(a)))
      ensures out.decodes == old(out.decodes) + if Decoded(Decisive(old(internalUntil), CallOf(a))) then 1 else 0
      ensures out.value == if Decoded(Decisive(old(internalUntil), CallOf(a)))
                           then Written(Decisive(old(internalUntil), CallOf(a))) else old(out.value)
    {
      hide InMesh;
      var base := InternalBase(a.reach, a.start);
      if base != "" {
        var v := Do(a.mesh, out);
        requests := requests + [ByMesh];
        if v.failure.None? {
          return None;
        }
        if !v.retry {
          return v.failure;
        }
        CoolDownInternal(a.end);
      }
      var v := Do(a.public, out);
      requests := requests + [ByPublic];
      failure := v.failure;
    }
  }

  // --- runs of calls ---

  /** One call after another on one clock; an attempt takes at most its time limit. */
  predicate Sequential(cs: seq<Call>) {
    && (forall i :: 0 <= i < |cs| ==> cs[i].start <= cs[i].end <= cs[i].start + INTERNAL_TIMEOUT)
    && (forall i, j :: 0 <= i < j < |cs| ==> cs[i].end <= cs[j].start)
  }

  function UntilAfterAll(until: nat, cs: seq<Call>): nat {
    if cs == [] then until else UntilAfter(UntilAfterAll(until, cs[..|cs| - 1]), cs[|cs| - 1])
  }

  /** The calls whose mesh attempt failed in a way worth retrying. */
  function Failures(until: nat, cs: seq<Call>): seq<Call> {
    if cs == [] then []
    else
      var front := cs[..|cs| - 1];
      Failures(until, front) +
      (if FallsBack(UntilAfterAll(until, front), cs[|cs| - 1]) then [cs[|cs| - 1]] else [])
  }

  /** Each failure starts at least a cooldown after every earlier one ended. */
  ghost predicate Spaced(fs: seq<Call>) {
    forall i, j :: 0 <= i < j < |fs| ==> fs[i].end + INTERNAL_COOLDOWN <= fs[j].start
  }

  lemma {:induction false} FailuresAmong(until: nat, cs: seq<Call>)
    ensures forall f :: f in Failures(until, cs) ==> f in cs
  {
    if cs != [] {
      FailuresAmong(until, cs[..|cs| - 1]);
    }
  }

  /** The pause always runs from the end of the last failure. */
  lemma {:induction false} UntilIsLastFailure(until: nat, cs: seq<Call>)
    ensures var fs := Failures(until, cs);
            UntilAfterAll(until, cs) == if fs == [] then until else fs[|fs| - 1].end + INTERNAL_COOLDOWN
  {
    hide TriesMesh, Retryable, INTERNAL_COOLDOWN;
    if cs != [] {
      UntilIsLastFailure(until, cs[..|cs| - 1]);
    }
  }

  lemma {:induction false} FailuresSpaced(until: nat, cs: seq<Call>)
    requires Sequential(cs)
    ensures Spaced(Failures(until, cs))
  {
    if cs != [] {
      var front, c := cs[..|cs| - 1], cs[|cs| - 1];
      FailuresSpaced(until, front);
      FailuresAmong(until, front);
      UntilIsLastFailure(until, front);
      hide UntilAfterAll, Spaced, FallsBack, INTERNAL_COOLDOWN;
      if FallsBack(UntilAfterAll(until, front), c) {
        StartsAfter(UntilAfterAll(until, front), c);
        SpacedSnoc(Failures(until, front), c);
      }
    }
  }

  lemma SpacedSnoc(fs: seq<Call>, c: Call)
    requires Spaced(fs) && forall f :: f in fs ==> f.start <= f.end
    requires fs != [] ==> fs[|fs| - 1].end + INTERNAL_COOLDOWN <= c.start
    ensures Spaced(fs + [c])
  {
    EndsInOrder(fs);
  }

  lemma StartsAfter(until: nat, c: Call)
    requires FallsBack(until, c)
    ensures until <= c.start
  {
  }

  lemma EndsInOrder(fs: seq<Call>)
    requires Spaced(fs) && forall f :: f in fs ==> f.start <= f.end
    ensures forall i :: 0 <= i < |fs| ==> fs[i].end <= fs[|fs| - 1].end
  {
    forall i | 0 <= i < |fs| ensures fs[i].end <= fs[|fs| - 1].end {
      if i < |fs| - 1 {
        assert fs[|fs| - 1] in fs;
      }
    }
  }

  lemma {:induction false} FailuresApart(fs: seq<Call>, i: nat, j: nat)
    requires Spaced(fs) && i <= j < |fs| && forall f :: f in fs ==> f.start <= f.end
    ensures fs[j].end >= fs[i].end + (j - i) * INTERNAL_COOLDOWN
    decreases j - i
  {
    if i < j {
      FailuresApart(fs, i, j - 1);
      assert fs[j] in fs;
    }
  }

  function Stall(fs: seq<Call>): nat
    requires forall i :: 0 <= i < |fs| ==> fs[i].start <= fs[i].end
  {
    if fs == [] then 0 else Stall(fs[..|fs| - 1]) + (fs[|fs| - 1].end - fs[|fs| - 1].start)
  }

  lemma {:induction false} StallBound(fs: seq<Call>)
    requires forall i :: 0 <= i < |fs| ==> fs[i].start <= fs[i].end <= fs[i].start + INTERNAL_TIMEOUT
    ensures Stall(fs) <= |fs| * INTERNAL_TIMEOUT
  {
    if fs != [] {
      StallBound(fs[..|fs| - 1]);
    }
  }

  /** The cooldown bound: over any run of sequential calls, the retryable mesh failures from the i-th to
      the j-th, if they end within a span T, number at most 1 + T / 5 min, and the time lost to them
      is at most 5 s each. */
  lemma CooldownBound(until: nat, cs: seq<Call>, i: nat, j: nat, span: nat)
    requires Sequential(cs) && i <= j < |Failures(until, cs)|
    requires Failures(until, cs)[j].end - Failures(until, cs)[i].end <= span
    ensures var k := j - i + 1;
            k <= 1 + span / (300 * SECOND) &&
            (forall f :: f in Failures(until, cs) ==> f.start <= f.end) &&
            Stall(Failures(until, cs)[i..j + 1]) <= 5 * k * SECOND
  {
    FailuresAmong(until, cs);
    FailuresSpaced(until, cs);
    assert forall f :: f in Failures(until, cs) ==> f.start <= f.end <= f.start + INTERNAL_TIMEOUT;
    hide Failures, Spaced, Sequential, Stall;
    var fs := Failures(until, cs);
    WindowCount(fs, i, j, span);
    WindowStall(fs, i, j);
  }

  lemma WindowCount(fs: seq<Call>, i: nat, j: nat, span: nat)
    requires Spaced(fs) && i <= j < |fs| && forall f :: f in fs ==> f.start <= f.end
    requires fs[j].end - fs[i].end <= span
    ensures j - i <= span / INTERNAL_COOLDOWN
  {
    FailuresApart(fs, i, j);
    hide Spaced;
    Quotient(j - i, span);
  }

  lemma WindowStall(fs: seq<Call>, i: nat, j: nat)
    requires i <= j < |fs| && forall f :: f in fs ==> f.start <= f.end <= f.start + INTERNAL_TIMEOUT
    ensures Stall(fs[i..j + 1]) <= 5 * (j - i + 1) * SECOND
  {
    hide Stall;
    var window := fs[i..j + 1];
    forall n | 0 <= n < |window| ensures window[n].start <= window[n].end <= window[n].start + INTERNAL_TIMEOUT {
      assert fs[i + n] in fs;
    }
    StallBound(window);
  }

  lemma Quotient(k: nat, span: nat)
    requires k * INTERNAL_COOLDOWN <= span
    ensures k <= span / INTERNAL_COOLDOWN
  {
  }

  /** Exactly when a call tries the mesh: it is worth trying, and no earlier call of the run saw a mesh
      attempt fail retryably and end less than a cooldown before. */
  lemma MeshTriedIff(cs: seq<Call>, c: Call)
    requires Sequential(cs + [c])
    ensures TriesMesh(UntilAfterAll(0, cs), c) <==>
            c.worth && forall f :: f in Failures(0, cs) ==> f.end + INTERNAL_COOLDOWN <= c.start
  {
    var all := cs + [c];
    assert forall i :: 0 <= i < |cs| ==> all[i] == cs[i];
    FailuresSpaced(0, cs);
    UntilIsLastFailure(0, cs);
    FailuresAmong(0, cs);
    var fs := Failures(0, cs);
    EndsInOrder(fs);
    if fs != [] {
      assert fs[|fs| - 1] in fs;
    }
  }

  /** Calls made one after another through one poster keep its pause as computed, and make one request
      each and one more for every failure. */
  method PostAll(p: Poster, attempts: seq<Attempt>, out: Out)
    modifies p, out
    ensures p.internalUntil == UntilAfterAll(old(p.internalUntil), Map(attempts, CallOf))
    ensures out.decodes <= old(out.decodes) + |attempts|
    ensures |p.requests| == |old(p.requests)| + |attempts| + |Failures(old(p.internalUntil), Map(attempts, CallOf))|
  {
    hide CallOf;
    ghost var cs := Map(attempts, CallOf);
    for i := 0 to |attempts|
      invariant p.internalUntil == UntilAfterAll(old(p.internalUntil), cs[..i])
      invariant out.decodes <= old(out.decodes) + i
      invariant |p.requests| == |old(p.requests)| + i + |Failures(old(p.internalUntil), cs[..i])|
    {
      assert cs[..i + 1][..i] == cs[..i];
      assert cs[i] == CallOf(attempts[i]);
      var _ := p.Post(attempts[i], out);
    }
    assert cs[..|cs|] == cs;
  }
}
