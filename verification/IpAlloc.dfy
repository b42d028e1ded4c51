/** The address pool: which addresses of an IPv4 prefix may be handed out, and the lowest free one. */
module IpAlloc {
  import opened Base
  import opened Netip

  /** The address made of the four bytes of a word. */
  function FromWord(w: Addr): Addr {
    FromOctets([Octet(w, 0), Octet(w, 1), Octet(w, 2), Octet(w, 3)])
  }

  /** Four bytes shifted into one word. */
  function ToWord(v0: Addr, v1: Addr, v2: Addr, v3: Addr): Addr {
    Or32(Or32(Or32(Shl(v0, 24), Shl(v1, 16)), Shl(v2, 8)), v3)
  }

  /** `(uint32(1) << host) - 1` */
  function HostMask(host: nat): Addr
    requires host < 32
  {
    ShlOne(host);
    Shl(1, host) - 1
  }

  lemma ShlOne(k: nat)
    requires k < 32
    ensures Shl(1, k) == Pow2(k)
  {
    Pow2Less(k, 32);
    Pow2Word();
    ShlValue(1, k);
  }

  lemma {:induction false} Pow2Less(a: nat, b: nat)
    requires a < b
    ensures Pow2(a) < Pow2(b)
  {
    if a + 1 < b {
      Pow2Less(a, b - 1);
    }
  }

  /** The highest address of a prefix, by shifts and ors on its four bytes. */
  function LastAddr(p: Prefix): Addr
    requires ValidPrefix(p)
  {
    var u := ToWord(Octet(p.addr, 0), Octet(p.addr, 1), Octet(p.addr, 2), Octet(p.addr, 3));
    FromWord(SetHostBits(u, 32 - p.bits))
  }

  function SetHostBits(u: Addr, host: nat): Addr {
    if host >= 32 then 0xffff_ffff else if host > 0 then Or32(u, HostMask(host)) else u
  }

  /** The four shifted bytes or together to the address itself. */
  lemma BytesMakeWord(a: Addr)
    ensures ToWord(Octet(a, 0), Octet(a, 1), Octet(a, 2), Octet(a, 3)) == a
  {
    OctetsMakeAddr(a);
    WordOfBytes(Octet(a, 0), Octet(a, 1), Octet(a, 2), Octet(a, 3));
  }

  lemma WordOfBytes(v0: nat, v1: nat, v2: nat, v3: nat)
    requires v0 < 256 && v1 < 256 && v2 < 256 && v3 < 256
    ensures ToWord(v0, v1, v2, v3) == v0 * 0x100_0000 + v1 * 0x1_0000 + v2 * 0x100 + v3
  {
    hide Or, Shl, Pow2;
    ShlByte(v0, 24);
    ShlByte(v1, 16);
    ShlByte(v2, 8);
    Pow2Word();
    OrDisjoint(v0, v1 * 0x1_0000, 24);
    OrDisjoint(v0 * 256 + v1, v2 * 0x100, 16);
    OrDisjoint(v0 * 0x1_0000 + v1 * 256 + v2, v3, 8);
  }

  lemma ShlByte(v: nat, k: nat)
    requires v < 256 && k <= 24
    ensures Shl(v, k) == v * Pow2(k)
  {
    if k < 24 {
      Pow2Less(k, 24);
    }
    MulMono(v, 255, Pow2(k));
    Pow2Word();
    ShlValue(v, k);
  }

  lemma FromWordId(w: Addr)
    ensures FromWord(w) == w
  {
    OctetsMakeAddr(w);
  }

  /** The shift/or form is the network address plus 2^(32 - bits) - 1, for every mask length 0..32. */
  lemma LastAddrValue(p: Prefix)
    requires ValidPrefix(p)
    ensures LastAddr(Masked(p)) == Masked(p).addr + Span(p) - 1
  {
    HostBitsOfMasked(p);
    WordRoundTrip(Masked(p), Masked(p).addr + Span(p) - 1);
  }

  lemma WordRoundTrip(m: Prefix, w: Addr)
    requires ValidPrefix(m) && SetHostBits(m.addr, 32 - m.bits) == w
    ensures LastAddr(m) == w
  {
    hide ToWord, FromWord, SetHostBits, Octet;
    BytesMakeWord(m.addr);
    FromWordId(w);
  }

  lemma HostBitsOfMasked(p: Prefix)
    requires ValidPrefix(p)
    ensures SetHostBits(Masked(p).addr, 32 - p.bits) == Masked(p).addr + Span(p) - 1 < WORD
  {
    var q := MaskedBase(p);
    SetHostBitsValue(q, 32 - p.bits, Masked(p).addr);
  }

  lemma SetHostBitsValue(q: nat, host: nat, base: Addr)
    requires host <= 32 && base == q * Pow2(host) && base + Pow2(host) <= WORD
    ensures SetHostBits(base, host) == base + Pow2(host) - 1
  {
    if host == 32 {
      Pow2Word();
    } else if host > 0 {
      ShlOne(host);
      OrDisjoint(q, Pow2(host) - 1, host);
    }
  }

  // --- usable hosts ---

  /** Inside the prefix, and neither its network nor its broadcast address. */
  predicate IsHost(p: Prefix, a: Addr)
    requires ValidPrefix(p)
  {
    Contains(p, a) && a != p.addr && a != LastAddr(p)
  }

  function Usable(cidr: string, addr: string): Result<bool, Error> {
    match ParsePrefix(cidr)
    case None => Err(BadRange(cidr))
    case Some(p) =>
      match ParseV4(addr)
      case Some(a) => Ok(IsHost(Masked(p), a))
      case None => if IsLiteral(addr) then Ok(false) else Err(BadAddress(addr))
  }

  /** The usable hosts are exactly the addresses strictly between the two ends of the block. */
  lemma HostsAreInterior(p: Prefix, a: Addr)
    requires ValidPrefix(p)
    ensures IsHost(Masked(p), a) <==> Masked(p).addr < a < Masked(p).addr + Span(p) - 1
  {
    ContainsBlock(p, a);
    LastAddrValue(p);
  }

  /** A usable address is the canonical text of a host. */
  lemma UsableText(cidr: string, addr: string)
    ensures Usable(cidr, addr) == Ok(true) <==>
            exists p, a :: ParsePrefix(cidr) == Some(p) && IsHost(Masked(p), a) && addr == AddrText(a)
  {
    if Usable(cidr, addr) == Ok(true) {
      AddrTextUnique(addr);
      assert IsHost(Masked(ParsePrefix(cidr).value), ParseV4(addr).value);
    }
    forall p, a | ParsePrefix(cidr) == Some(p) && IsHost(Masked(p), a) && addr == AddrText(a)
      ensures Usable(cidr, addr) == Ok(true)
    {
      AddrTextParses(a);
    }
  }

  // --- the lowest free host ---

  /** The addresses named by a list of texts; texts that do not parse are ignored. */
  function Taken(used: seq<string>): set<Addr> {
    set u | u in used && ParseV4(u).Some? :: ParseV4(u).value
  }

  /** The least number in [lo, hi) outside `taken`. */
  function LowestFree(lo: nat, hi: nat, taken: set<Addr>): (r: Option<nat>)
    ensures r.Some? ==> lo <= r.value < hi && r.value !in taken && forall k :: lo <= k < r.value ==> k in taken
    ensures r.None? ==> forall k :: lo <= k < hi ==> k in taken
    decreases hi - lo
  {
    if lo >= hi then None
    else if lo !in taken then Some(lo)
    else LowestFree(lo + 1, hi, taken)
  }

  /** What the search below computes: the text of the lowest free host. */
  function NextFreeText(cidr: string, used: seq<string>): Result<string, Error> {
    match ParsePrefix(cidr)
    case None => Err(BadRange(cidr))
    case Some(p) =>
      match LowestFreeHost(p, Taken(used))
      case None => Err(Exhausted(cidr))
      case Some(a) => Ok(AddrText(a))
  }

  lemma MaskedFits(p: Prefix)
    requires ValidPrefix(p)
    ensures Masked(p).addr + Span(p) <= WORD
  {
    var _ := MaskedBase(p);
  }

  function LowestFreeHost(p: Prefix, taken: set<Addr>): (r: Option<nat>)
    requires ValidPrefix(p)
    ensures r.Some? ==> r.value < WORD
  {
    LowestFree(Masked(p).addr + 1, LastAddr(Masked(p)), taken)
  }

  /** A masked prefix contains the addresses from its network address to its last. */
  lemma BlockOf(p: Prefix)
    requires ValidPrefix(p)
    ensures LastAddr(Masked(p)) == Masked(p).addr + Span(p) - 1
    ensures forall a: Addr :: Contains(Masked(p), a) <==> Masked(p).addr <= a <= LastAddr(Masked(p))
  {
    LastAddrValue(p);
    forall a: Addr ensures Contains(Masked(p), a) <==> Masked(p).addr <= a < Masked(p).addr + Span(p) {
      ContainsBlock(p, a);
    }
  }

  /** The address found is the minimum of the free hosts, and the search fails exactly when there is none. */
  lemma NextFreeIsLeast(cidr: string, used: seq<string>, p: Prefix)
    requires ParsePrefix(cidr) == Some(p)
    ensures match NextFreeText(cidr, used)
            case Ok(t) =>
              exists a: Addr :: t == AddrText(a) && IsHost(Masked(p), a) && a !in Taken(used) &&
                                forall b: Addr :: IsHost(Masked(p), b) && b !in Taken(used) ==> a <= b
            case Err(e) => e == Exhausted(cidr) && forall b: Addr :: IsHost(Masked(p), b) ==> b in Taken(used)
  {
    BlockOf(p);
    var free := LowestFreeHost(p, Taken(used));
    if free.Some? {
      var a: Addr := free.value;
      assert NextFreeText(cidr, used) == Ok(AddrText(a));
    }
  }

  /** The search: fill the taken set, then walk up from the network address. */
  method NextFree(cidr: string, used: seq<string>) returns (r: Result<string, Error>)
    ensures r == NextFreeText(cidr, used)
  {
    var parsed := ParsePrefix(cidr);
    if parsed.None? {
      return Err(BadRange(cidr));
    }
    var taken := TakenSet(used);
    var found := Search(parsed.value, taken);
    r := if found.Some? then Ok(AddrText(found.value)) else Err(Exhausted(cidr));
  }

  method Search(p: Prefix, taken: set<Addr>) returns (r: Option<Addr>)
    requires ValidPrefix(p)
    ensures r == LowestFreeHost(p, taken)
  {
    var m, last := Ends(p, taken);
    r := Walk(m, last, taken);
  }

  method Ends(p: Prefix, ghost taken: set<Addr>) returns (m: Prefix, last: Addr)
    requires ValidPrefix(p)
    ensures ValidPrefix(m) && forall a: Addr :: Contains(m, a) <==> m.addr <= a <= last
    ensures LowestFreeHost(p, taken) == LowestFree(m.addr + 1, last, taken)
  {
    hide LastAddr, Masked, Contains;
    m := Masked(p);
    last := LastAddr(m);
    BlockOf(p);
  }

  method TakenSet(used: seq<string>) returns (taken: set<Addr>)
    ensures taken == Taken(used)
  {
    taken := {};
    for i := 0 to |used|
      invariant taken == Taken(used[..i])
    {
      assert used[..i + 1] == used[..i] + [used[i]];
      var a := ParseV4(used[i]);
      if a.Some? {
        taken := taken + {a.value};
      }
    }
    assert used[..|used|] == used;
  }

  method Walk(prefix: Prefix, last: Addr, taken: set<Addr>) returns (r: Option<Addr>)
    requires ValidPrefix(prefix)
    requires forall a: Addr :: Contains(prefix, a) <==> prefix.addr <= a <= last
    ensures r == LowestFree(prefix.addr + 1, last, taken)
  {
    var addr := Next(prefix.addr); // skip the network address
    var inside := Inside(prefix, addr, last);
    while inside
      invariant inside <==> addr.Some? && addr.value <= last
      invariant addr.Some? ==> prefix.addr < addr.value
      invariant addr.Some? ==> LowestFree(prefix.addr + 1, last, taken) == LowestFree(addr.value, last, taken)
      invariant addr.None? ==> LowestFree(prefix.addr + 1, last, taken).None?
      decreases if addr.Some? then WORD - addr.value else 0
    {
      if addr.value == last {
        break; // reserve the broadcast address
      }
      if addr.value !in taken {
        return addr;
      }
      addr := Next(addr.value);
      inside := Inside(prefix, addr, last);
    }
    r := None;
  }

  method Inside(prefix: Prefix, addr: Option<Addr>, ghost last: Addr) returns (r: bool)
    requires ValidPrefix(prefix) && (addr.Some? ==> prefix.addr <= addr.value)
    requires forall a: Addr :: Contains(prefix, a) <==> prefix.addr <= a <= last
    ensures r <==> addr.Some? && addr.value <= last
  {
    r := addr.Some? && Contains(prefix, addr.value);
  }

  // --- the hub's own default address ---

  /** The address after the network address. */
  function FirstHost(cidr: string): Result<string, Error> {
    match ParsePrefix(cidr)
    case None => Err(BadRange(cidr))
    case Some(p) =>
      match Next(Masked(p).addr)
      case None => Ok("invalid IP")
      case Some(a) => Ok(AddrText(a))
  }

  /** FirstHost is a usable host exactly for mask lengths up to 30. */
  lemma FirstHostUsable(cidr: string, p: Prefix)
    requires ParsePrefix(cidr) == Some(p)
    ensures (FirstHost(cidr).Ok? && Usable(cidr, FirstHost(cidr).value) == Ok(true)) <==> p.bits <= 30
  {
    MaskedFits(p);
    SpanSizes(p);
    var n := Next(Masked(p).addr);
    if n.Some? {
      UsableOf(cidr, p, n.value);
      HostsAreInterior(p, n.value);
    }
  }

  lemma UsableOf(cidr: string, p: Prefix, a: Addr)
    requires ParsePrefix(cidr) == Some(p)
    ensures Usable(cidr, AddrText(a)) == Ok(IsHost(Masked(p), a))
  {
    AddrTextParses(a);
  }

  lemma SpanSizes(p: Prefix)
    requires ValidPrefix(p)
    ensures p.bits <= 30 <==> Span(p) >= 4
    ensures p.bits == 31 <==> Span(p) == 2
    ensures p.bits == 32 <==> Span(p) == 1
  {
    if p.bits <= 30 {
      Pow2Sum(30 - p.bits, 2);
      assert Pow2(2) == 4;
    }
  }

  /** For mask lengths up to 30 it is the least usable host. */
  lemma FirstHostIsLeast(cidr: string, p: Prefix, b: Addr)
    requires ParsePrefix(cidr) == Some(p) && p.bits <= 30
    ensures FirstHost(cidr) == Ok(AddrText(Masked(p).addr + 1)) && IsHost(Masked(p), Masked(p).addr + 1)
    ensures IsHost(Masked(p), b) ==> Masked(p).addr + 1 <= b
  {
    MaskedFits(p);
    SpanSizes(p);
    hide IsHost, Span, LastAddr, Masked, AddrText, ParsePrefix;
    HostsAreInterior(p, Masked(p).addr + 1);
    HostsAreInterior(p, b);
  }
}
