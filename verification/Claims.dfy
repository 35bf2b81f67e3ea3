/** Sets of ids packed into one integer and printed compactly (lib/authz/claim.go). */
module Claims {
  import opened Base

  // ----- Bits of an unbounded integer -----

  function Bit(n: nat, i: nat): bool {
    if i == 0 then n % 2 == 1 else Bit(n / 2, i - 1)
  }

  /** The bits in use: the top one is set. */
  function BitLen(n: nat): nat {
    if n == 0 then 0 else 1 + BitLen(n / 2)
  }

  /** n with bit i set to 1. */
  function SetBit(n: nat, i: nat): nat {
    if i == 0 then 2 * (n / 2) + 1 else 2 * SetBit(n / 2, i - 1) + n % 2
  }

  lemma {:induction false} SetBitSets(n: nat, i: nat, j: nat)
    ensures Bit(SetBit(n, i), j) <==> j == i || Bit(n, j)
  {
    if i > 0 && j > 0 {
      assert SetBit(n, i) / 2 == SetBit(n / 2, i - 1);
      SetBitSets(n / 2, i - 1, j - 1);
    } else if i == 0 && j > 0 {
      assert SetBit(n, i) / 2 == n / 2;
    }
  }

  lemma {:induction false} BitsAreBelowLen(n: nat, i: nat)
    requires Bit(n, i)
    ensures i < BitLen(n)
  {
    if i > 0 {
      BitsAreBelowLen(n / 2, i - 1);
    }
  }

  lemma {:induction false} ZeroHasNoBits(i: nat)
    ensures !Bit(0, i)
  {
    if i > 0 {
      ZeroHasNoBits(i - 1);
    }
  }

  // ----- The id list -----

  /** The bit set holds exactly the ids of the list. */
  ghost predicate Holds(bits: nat, ids: seq<int>) {
    forall i: nat :: Bit(bits, i) <==> i in ids
  }

  /** `intsToBitSet`; setting a negative bit panics. */
  method IntsToBitSet(ids: seq<int>) returns (r: Option<nat>)
    ensures r.None? <==> exists k :: 0 <= k < |ids| && ids[k] < 0
    ensures r.Some? ==> Holds(r.value, ids)
  {
    var bits: nat := 0;
    forall i: nat ensures !Bit(bits, i) { ZeroHasNoBits(i); }
    for k := 0 to |ids|
      invariant forall j :: 0 <= j < k ==> ids[j] >= 0
      invariant Holds(bits, ids[..k])
    {
      if ids[k] < 0 {
        return None;
      }
      forall i: nat ensures Bit(SetBit(bits, ids[k]), i) <==> i in ids[..k + 1] {
        SetBitSets(bits, ids[k], i);
        assert ids[..k + 1] == ids[..k] + [ids[k]];
      }
      bits := SetBit(bits, ids[k]);
    }
    assert ids[..|ids|] == ids;
    r := Some(bits);
  }

  predicate Increasing(s: seq<int>) {
    forall i, j :: 0 <= i < j < |s| ==> s[i] < s[j]
  }

  /** `bitSetToInts`: the bits in use, in increasing order. */
  method BitSetToInts(bits: nat) returns (ids: seq<int>)
    ensures Increasing(ids) && Holds(bits, ids)
    ensures forall k :: 0 <= k < |ids| ==> 0 <= ids[k] < BitLen(bits)
    ensures |ids| <= BitLen(bits)
  {
    ids := [];
    for i := 0 to BitLen(bits)
      invariant Increasing(ids) && |ids| <= i
      invariant forall k :: 0 <= k < |ids| ==> 0 <= ids[k] < i
      invariant forall j: nat :: j < i ==> (Bit(bits, j) <==> j in ids)
    {
      if Bit(bits, i) {
        ids := ids + [i];
      }
    }
    forall j: nat ensures Bit(bits, j) <==> j in ids {
      if Bit(bits, j) {
        BitsAreBelowLen(bits, j);
      }
    }
  }

  // ----- Text in base 62 -----

  const BASE := 62

  function DigitChar(d: nat): char
    requires d < BASE
  {
    if d < 10 then '0' + d as char
    else if d < 36 then 'a' + (d - 10) as char
    else 'A' + (d - 36) as char
  }

  function DigitValue(c: char): (r: Option<nat>)
    ensures r.Some? ==> r.value < BASE
  {
    if '0' <= c <= '9' then Some((c - '0') as nat)
    else if 'a' <= c <= 'z' then Some((c - 'a') as nat + 10)
    else if 'A' <= c <= 'Z' then Some((c - 'A') as nat + 36)
    else None
  }

  lemma DigitRoundTrip(d: nat)
    requires d < BASE
    ensures DigitValue(DigitChar(d)) == Some(d)
  {
  }

  function Digits(n: nat): string {
    if n < BASE then [DigitChar(n)] else Digits(n / BASE) + [DigitChar(n % BASE)]
  }

  /** `marshalBigInt`. */
  function Text(n: nat): string {
    Digits(n)
  }

  /** The number a digit string spells, if it is one. */
  function Value(s: string): Option<nat> {
    if s == "" then Some(0)
    else match (Value(s[..|s| - 1]), DigitValue(s[|s| - 1]))
      case (Some(v), Some(d)) => Some(v * BASE + d)
      case (Some(_), None) => None
      case (None, _) => None
  }

  /** Parsing a signed integer: an optional sign and at least one digit. */
  function SetString(s: string): Option<int> {
    var digits := if s != "" && (s[0] == '-' || s[0] == '+') then s[1..] else s;
    if digits == "" then None
    else match Value(digits)
      case None => None
      case Some(v) =>
        var n: int := v;
        Some(if s[0] == '-' then -n else n)
  }

  /** `unmarshalBigInt`: text that is no number reads as 0. */
  function UnmarshalBigInt(s: string): int {
    if s == "" then 0 else SetString(s).GetOr(0)
  }

  lemma {:induction false} ValueOfDigits(n: nat)
    ensures Digits(n) != "" && Value(Digits(n)) == Some(n)
    ensures DigitValue(Digits(n)[0]).Some?
  {
    DigitRoundTrip(n % BASE);
    var s := Digits(n);
    if n < BASE {
      assert s[..|s| - 1] == "";
    } else {
      ValueOfDigits(n / BASE);
      assert s[..|s| - 1] == Digits(n / BASE);
      assert s[0] == Digits(n / BASE)[0];
    }
  }

  /** Every natural number survives being printed and read back. */
  lemma TextRoundTrips(n: nat)
    ensures UnmarshalBigInt(Text(n)) == n
  {
    ValueOfDigits(n);
  }

  /** Text decodes to a negative number, on which reading the set panics, exactly when it is a minus
      sign before a number other than zero. */
  lemma NegativeIff(s: string)
    ensures UnmarshalBigInt(s) < 0 <==>
              |s| > 1 && s[0] == '-' && Value(s[1..]).Some? && Value(s[1..]).value > 0
  {
  }

  // ----- The claims -----

  method MarshalIds(ids: seq<int>) returns (text: Option<string>)
    ensures text.None? <==> exists k :: 0 <= k < |ids| && ids[k] < 0
    ensures text.Some? ==> UnmarshalBigInt(text.value) >= 0 && Holds(UnmarshalBigInt(text.value), ids)
  {
    var bits := IntsToBitSet(ids);
    if bits.None? {
      return None;
    }
    TextRoundTrips(bits.value);
    text := Some(Text(bits.value));
  }

  method UnmarshalIds(text: string) returns (ids: Option<seq<int>>)
    ensures ids.None? <==> UnmarshalBigInt(text) < 0
    ensures ids.Some? ==> Increasing(ids.value) && Holds(UnmarshalBigInt(text), ids.value)
    ensures ids.Some? ==> forall x :: x in ids.value ==> x >= 0
    ensures text == "" ==> ids == Some([])
  {
    var bits := UnmarshalBigInt(text);
    if bits < 0 {
      return None;
    }
    var decoded := BitSetToInts(bits);
    ids := Some(decoded);
  }

  /** A list is the sorted set of another's elements. */
  ghost predicate SortedSetOf(sorted: seq<int>, ids: seq<int>) {
    Increasing(sorted) && forall x :: x in sorted <==> x in ids
  }

  /** There is only one such list. */
  lemma SortedSetIsUnique(a: seq<int>, b: seq<int>, ids: seq<int>)
    requires SortedSetOf(a, ids) && SortedSetOf(b, ids)
    ensures a == b
  {
    SameElementsSameList(a, b);
  }

  lemma SomethingIn(a: seq<int>) returns (x: int)
    requires a != []
    ensures x in a
  {
    x := a[0];
  }

  lemma ButTheLast(a: seq<int>, x: int)
    requires Increasing(a) && a != []
    ensures x in a[..|a| - 1] <==> x in a && x < a[|a| - 1]
  {
    var m := |a| - 1;
    var front := a[..m];
    assert a == front + [a[m]];
    if x in front {
      var k :| 0 <= k < m && front[k] == x;
      assert a[k] < a[m];
    }
  }

  lemma LastsAgree(a: seq<int>, b: seq<int>)
    requires Increasing(a) && Increasing(b) && a != [] && b != []
    requires a[|a| - 1] in b && b[|b| - 1] in a
    ensures a[|a| - 1] == b[|b| - 1]
  {
  }

  lemma WithoutLastsAgree(a: seq<int>, b: seq<int>, x: int)
    requires Increasing(a) && Increasing(b) && a != [] && b != []
    requires (x in a <==> x in b) && a[|a| - 1] == b[|b| - 1]
    ensures x in a[..|a| - 1] <==> x in b[..|b| - 1]
  {
    ButTheLast(a, x);
    ButTheLast(b, x);
  }

  lemma {:induction false} SameElementsSameList(a: seq<int>, b: seq<int>)
    requires Increasing(a) && Increasing(b) && forall x :: x in a <==> x in b
    ensures a == b
  {
    if a == [] || b == [] {
      if a != [] {
        var _ := SomethingIn(a);
      }
      if b != [] {
        var _ := SomethingIn(b);
      }
    } else {
      var m, n := |a| - 1, |b| - 1;
      assert a[m] in a && b[n] in b;
      LastsAgree(a, b);
      forall x ensures x in a[..m] <==> x in b[..n] {
        WithoutLastsAgree(a, b, x);
      }
      assert Increasing(a[..m]) && Increasing(b[..n]);
      hide Increasing;
      SameElementsSameList(a[..m], b[..n]);
      assert a == a[..m] + [a[m]] && b == b[..n] + [b[n]];
    }
  }

  /** What is put into a token comes out of it: every list of ids, without repetitions and in
      increasing order; a list with a negative id cannot be put in. */
  method RoundTrip(ids: seq<int>) returns (decoded: Option<seq<int>>)
    ensures decoded.None? <==> exists k :: 0 <= k < |ids| && ids[k] < 0
    ensures decoded.Some? ==> SortedSetOf(decoded.value, ids)
  {
    var text := MarshalIds(ids);
    if text.None? {
      return None;
    }
    decoded := UnmarshalIds(text.value);
    forall x ensures x in decoded.value <==> x in ids {
      if x >= 0 {
        assert Bit(UnmarshalBigInt(text.value), x) <==> x in ids;
      }
    }
  }
}
