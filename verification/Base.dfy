/** Shared vocabulary: optional values, fallible results and the sequence and string
    operations of the Go standard library that the control plane leans on.
    A `string` stands for a Go string with one `char` per byte. */
module Base {

  datatype Option<+T> = None | Some(value: T)

  datatype Result<+T, +E> = Ok(value: T) | Err(error: E)

  /** Why an operation was refused. */
  datatype Error =
    | BadRange(text: string)
    | BadAddress(text: string)
    | Exhausted(range: string)
    | NotUsable(addr: string)
    | HubAddress(addr: string)
    | AddressTaken(addr: string, owner: string)
    | NameRequired
    | NameTaken(name: string)
    | NoSuchClient(name: string)
    | BadRoute(text: string)
    | NoRoutes
    | BadKey
    | BadHost
    | BadPort
    | ClientGone
    | Unauthorized
    | Blacklisted

  // --- sequences ---

  /** The elements satisfying `keep`, in order. Recursion is at the end, as in an append loop. */
  function Filter<T>(s: seq<T>, keep: T -> bool): seq<T> {
    if s == [] then []
    else
      var rest := Filter(s[..|s| - 1], keep);
      if keep(s[|s| - 1]) then rest + [s[|s| - 1]] else rest
  }

  function Map<T, U>(s: seq<T>, f: T -> U): seq<U> {
    seq(|s|, i requires 0 <= i < |s| => f(s[i]))
  }

  ghost predicate Distinct<T>(s: seq<T>) {
    forall i, j :: 0 <= i < j < |s| ==> s[i] != s[j]
  }

  lemma {:induction false} FilterMember<T>(s: seq<T>, keep: T -> bool, x: T)
    ensures x in Filter(s, keep) <==> x in s && keep(x)
  {
    if s != [] {
      FilterMember(s[..|s| - 1], keep, x);
      assert s == s[..|s| - 1] + [s[|s| - 1]];
    }
  }

  lemma {:induction false} FilterDistinct<T>(s: seq<T>, keep: T -> bool)
    requires Distinct(s)
    ensures Distinct(Filter(s, keep))
  {
    if s != [] {
      FilterDistinct(s[..|s| - 1], keep);
      FilterMember(s[..|s| - 1], keep, s[|s| - 1]);
    }
  }

  lemma {:induction false} FilterAppend<T>(a: seq<T>, b: seq<T>, keep: T -> bool)
    ensures Filter(a + b, keep) == Filter(a, keep) + Filter(b, keep)
  {
    if b == [] {
      assert a + b == a;
    } else {
      assert (a + b)[..|a + b| - 1] == a + b[..|b| - 1];
      FilterAppend(a, b[..|b| - 1], keep);
    }
  }

  lemma {:induction false} FilterAll<T>(s: seq<T>, keep: T -> bool)
    requires forall x :: x in s ==> keep(x)
    ensures Filter(s, keep) == s
  {
    if s != [] {
      FilterAll(s[..|s| - 1], keep);
      assert s == s[..|s| - 1] + [s[|s| - 1]];
    }
  }

  lemma {:induction false} FilterNone<T>(s: seq<T>, keep: T -> bool)
    requires forall x :: x in s ==> !keep(x)
    ensures Filter(s, keep) == []
  {
    if s != [] {
      FilterNone(s[..|s| - 1], keep);
    }
  }

  // --- strings.Split on one byte, strings.Join ---

  /** strings.Split(s, sep) for a one-byte separator: never empty. */
  function SplitOn(s: string, sep: char): (parts: seq<string>)
    ensures |parts| >= 1
  {
    if s == "" then [""]
    else if s[0] == sep then [""] + SplitOn(s[1..], sep)
    else
      var rest := SplitOn(s[1..], sep);
      [[s[0]] + rest[0]] + rest[1..]
  }

  function Join(parts: seq<string>, sep: string): string {
    if |parts| == 0 then ""
    else if |parts| == 1 then parts[0]
    else Join(parts[..|parts| - 1], sep) + sep + parts[|parts| - 1]
  }

  lemma {:induction false} JoinFront(parts: seq<string>, sep: string)
    requires |parts| >= 2
    ensures Join(parts, sep) == parts[0] + sep + Join(parts[1..], sep)
  {
    if |parts| > 2 {
      var n := |parts| - 1;
      JoinFront(parts[..n], sep);
      assert parts[..n][1..] == parts[1..][..n - 1];
      assert Join(parts[1..], sep) == Join(parts[1..][..n - 1], sep) + sep + parts[n];
    } else {
      assert parts[..1] == [parts[0]];
    }
  }

  /** Splitting keeps every byte. */
  lemma {:induction false} SplitOnSound(s: string, sep: char)
    ensures Join(SplitOn(s, sep), [sep]) == s
  {
    if s != "" {
      var rest := SplitOn(s[1..], sep);
      SplitOnSound(s[1..], sep);
      if s[0] == sep {
        JoinFront([""] + rest, [sep]);
        assert ([""] + rest)[1..] == rest;
      } else {
        JoinCons(s[0], rest, [sep]);
      }
      assert s == [s[0]] + s[1..];
    }
  }

  lemma JoinCons(c: char, parts: seq<string>, sep: string)
    requires |parts| >= 1
    ensures Join([[c] + parts[0]] + parts[1..], sep) == [c] + Join(parts, sep)
  {
    var more := [[c] + parts[0]] + parts[1..];
    if |parts| >= 2 {
      JoinFront(more, sep);
      JoinFront(parts, sep);
      assert more[1..] == parts[1..];
      assert more[0] + sep + Join(parts[1..], sep) == [c] + (parts[0] + sep + Join(parts[1..], sep));
    }
  }

  lemma {:induction false} SplitOnParts(s: string, sep: char)
    ensures forall p :: p in SplitOn(s, sep) ==> sep !in p
  {
    if s != "" {
      SplitOnParts(s[1..], sep);
    }
  }

  /** Text before the first separator, then the rest. */
  lemma {:induction false} SplitOnPrefix(a: string, sep: char, b: string)
    requires sep !in a
    ensures SplitOn(a + [sep] + b, sep) == [a] + SplitOn(b, sep)
  {
    var s := a + [sep] + b;
    if a == "" {
      assert s[1..] == b;
    } else {
      assert s[1..] == a[1..] + [sep] + b;
      SplitOnPrefix(a[1..], sep, b);
      assert a == [a[0]] + a[1..] && s[0] != sep;
    }
  }

  lemma {:induction false} SplitOnWhole(a: string, sep: char)
    requires sep !in a
    ensures SplitOn(a, sep) == [a]
  {
    if a != "" {
      SplitOnWhole(a[1..], sep);
      assert a == [a[0]] + a[1..];
    }
  }

  /** Splitting what was joined gives the parts back. */
  lemma {:induction false} SplitOnJoin(parts: seq<string>, sep: char)
    requires |parts| >= 1
    requires forall p :: p in parts ==> sep !in p
    ensures SplitOn(Join(parts, [sep]), sep) == parts
  {
    if |parts| == 1 {
      SplitOnWhole(parts[0], sep);
    } else {
      JoinFront(parts, [sep]);
      SplitOnPrefix(parts[0], sep, Join(parts[1..], [sep]));
      SplitOnJoin(parts[1..], sep);
      assert parts == [parts[0]] + parts[1..];
    }
  }

  // --- strings.TrimSpace ---

  predicate IsSpace(c: char) {
    c == ' ' || '\t' <= c <= '\r'
  }

  function TrimLeft(s: string): string {
    if s != "" && IsSpace(s[0]) then TrimLeft(s[1..]) else s
  }

  function TrimRight(s: string): string {
    if s != "" && IsSpace(s[|s| - 1]) then TrimRight(s[..|s| - 1]) else s
  }

  function TrimSpace(s: string): string {
    TrimRight(TrimLeft(s))
  }

  lemma {:induction false} TrimSpaceKeeps(s: string)
    requires s != "" && !IsSpace(s[0])
    ensures TrimSpace(s) != ""
    ensures !IsSpace(s[|s| - 1]) ==> TrimSpace(s) == s
  {
    TrimRightKeeps(s);
  }

  lemma {:induction false} TrimRightKeeps(s: string)
    requires s != "" && !IsSpace(s[0])
    ensures TrimRight(s) != ""
  {
    if IsSpace(s[|s| - 1]) {
      TrimRightKeeps(s[..|s| - 1]);
    }
  }

  // --- strconv ---

  predicate IsDigit(c: char) { '0' <= c <= '9' }

  function DigitChar(d: nat): (c: char)
    requires d < 10
    ensures IsDigit(c) && DigitValue(c) == d
  {
    '0' + d as char
  }

  function DigitValue(c: char): (d: nat)
    requires IsDigit(c)
    ensures d < 10
  {
    c as int - '0' as int
  }

  function Digits(n: nat): string {
    if n < 10 then [DigitChar(n)] else Digits(n / 10) + [DigitChar(n % 10)]
  }

  predicate AllDigits(s: string) {
    forall i :: 0 <= i < |s| ==> IsDigit(s[i])
  }

  function DigitsValue(s: string): nat
    requires AllDigits(s)
  {
    if s == "" then 0 else 10 * DigitsValue(s[..|s| - 1]) + DigitValue(s[|s| - 1])
  }

  /** strconv.Itoa */
  function Itoa(n: int): string {
    if n < 0 then "-" + Digits(-n) else Digits(n)
  }

  const MAX_INT: int := 0x7fff_ffff_ffff_ffff

  /** strconv.Atoi on a 64-bit platform. */
  function Atoi(s: string): Option<int> {
    var signed := s != "" && (s[0] == '-' || s[0] == '+');
    var body := if signed then s[1..] else s;
    if body == "" || !AllDigits(body) then None
    else
      var n: int := DigitsValue(body);
      if signed && s[0] == '-' then (if n <= MAX_INT + 1 then Some(-n) else None)
      else if n <= MAX_INT then Some(n) else None
  }

  lemma {:induction false} DigitsRoundTrip(n: nat)
    ensures Digits(n) != "" && AllDigits(Digits(n)) && DigitsValue(Digits(n)) == n
    ensures Digits(n)[0] == '0' ==> n == 0
  {
    if n >= 10 {
      DigitsRoundTrip(n / 10);
      assert Digits(n)[..|Digits(n)| - 1] == Digits(n / 10);
    } else {
      assert Digits(n)[..0] == "";
    }
  }

  /** Digits without a leading zero are what the number prints as. */
  lemma {:induction false} DigitsCanonical(s: string)
    requires s != "" && AllDigits(s)
    requires |s| == 1 || s[0] != '0'
    ensures Digits(DigitsValue(s)) == s
    ensures s[0] != '0' ==> DigitsValue(s) > 0
  {
    var front := s[..|s| - 1];
    assert s == front + [s[|s| - 1]];
    if |s| == 1 {
      assert DigitsValue(front) == 0;
    } else {
      DigitsCanonical(front);
    }
  }

  lemma AtoiItoa(n: int)
    requires 0 <= n <= MAX_INT
    ensures Atoi(Itoa(n)) == Some(n)
  {
    DigitsRoundTrip(n);
  }

  lemma {:induction false} DigitsWithin(n: nat, c: char)
    requires c in Digits(n)
    ensures IsDigit(c)
  {
    DigitsRoundTrip(n);
  }
}
