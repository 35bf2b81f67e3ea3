/** Finding and cutting out matches in UTF-8 text (api/search.go). */
module Snippet {
  type Byte = b: int | 0 <= b < 256
  type Bytes = seq<Byte>
  type Rune = int

  // ----- UTF-8, section 3 of RFC 3629 -----

  /** A Unicode scalar value: no surrogate, nothing above U+10FFFF. */
  predicate IsScalar(r: Rune) {
    0 <= r < 0xD800 || 0xE000 <= r <= 0x10FFFF
  }

  function Encode(r: Rune): Bytes
    requires IsScalar(r)
  {
    if r < 0x80 then [r]
    else if r < 0x800 then [0xC0 + r / 64, Tail(r)]
    else if r < 0x10000 then [0xE0 + r / 64 / 64, Tail(r / 64), Tail(r)]
    else [0xF0 + r / 64 / 64 / 64, Tail(r / 64 / 64), Tail(r / 64), Tail(r)]
  }

  /** A continuation byte, holding the low six bits of n. */
  function Tail(n: nat): Byte {
    0x80 + n % 64
  }

  function SixBits(b: Byte): int {
    b as int - 0x80
  }

  const RUNE_ERROR: Rune := 0xFFFD

  predicate IsTail(b: Byte) {
    0x80 <= b < 0xC0
  }

  /** The second byte after first byte b, where only part of the range is legal. */
  predicate IsSecond(b: Byte, c: Byte) {
    IsTail(c)
    && (b == 0xE0 ==> 0xA0 <= c)
    && (b == 0xED ==> c < 0xA0)
    && (b == 0xF0 ==> 0x90 <= c)
    && (b == 0xF4 ==> c < 0x90)
  }

  /** The rune at the start of s and its length. An empty string has length 0; a byte that starts no
      rune is an error rune of length 1. */
  function DecodeRune(s: Bytes): (r: (Rune, nat))
    ensures r.1 <= |s| && r.1 <= 4
    ensures r.1 == 0 <==> s == []
  {
    if s == [] then (RUNE_ERROR, 0)
    else if s[0] < 0x80 then (s[0], 1)
    else if 0xC2 <= s[0] < 0xE0 && |s| > 1 && IsTail(s[1]) then
      ((s[0] as int - 0xC0) * 64 + SixBits(s[1]), 2)
    else if 0xE0 <= s[0] < 0xF0 && |s| > 2 && IsSecond(s[0], s[1]) && IsTail(s[2]) then
      (((s[0] as int - 0xE0) * 64 + SixBits(s[1])) * 64 + SixBits(s[2]), 3)
    else if 0xF0 <= s[0] < 0xF5 && |s| > 3 && IsSecond(s[0], s[1]) && IsTail(s[2]) && IsTail(s[3]) then
      ((((s[0] as int - 0xF0) * 64 + SixBits(s[1])) * 64 + SixBits(s[2])) * 64 + SixBits(s[3]), 4)
    else (RUNE_ERROR, 1)
  }

  lemma DecodeTwo(r: Rune, s: Bytes)
    requires 0x80 <= r < 0x800 && |s| > 1 && s[0] == 0xC0 + r / 64 && s[1] == Tail(r)
    ensures DecodeRune(s) == (r, 2)
  {
  }

  lemma DecodeThree(r: Rune, s: Bytes)
    requires 0x800 <= r < 0x10000 && IsScalar(r)
    requires |s| > 2 && s[0] == 0xE0 + r / 64 / 64 && s[1] == Tail(r / 64) && s[2] == Tail(r)
    ensures DecodeRune(s) == (r, 3)
  {
    var high := r / 64;
    assert high == high / 64 * 64 + SixBits(s[1]);
    assert r == high * 64 + SixBits(s[2]);
  }

  lemma DecodeFour(r: Rune, s: Bytes)
    requires 0x10000 <= r <= 0x10FFFF
    requires |s| > 3 && s[0] == 0xF0 + r / 64 / 64 / 64 && s[1] == Tail(r / 64 / 64)
    requires s[2] == Tail(r / 64) && s[3] == Tail(r)
    ensures DecodeRune(s) == (r, 4)
  {
    var high := r / 64;
    var higher := high / 64;
    assert higher == higher / 64 * 64 + SixBits(s[1]);
    assert high == higher * 64 + SixBits(s[2]);
    assert r == high * 64 + SixBits(s[3]);
  }

  /** Decoding inverts encoding. */
  lemma DecodeInvertsEncode(r: Rune, rest: Bytes)
    requires IsScalar(r)
    ensures DecodeRune(Encode(r) + rest) == (r, |Encode(r)|)
  {
    var s := Encode(r) + rest;
    hide DecodeRune;
    if r < 0x80 {
      assert s[0] == r;
      DecodeOne(s);
    } else if r < 0x800 {
      DecodeTwo(r, s);
    } else if r < 0x10000 {
      DecodeThree(r, s);
    } else {
      DecodeFour(r, s);
    }
  }

  lemma DecodeOne(s: Bytes)
    requires s != [] && s[0] < 0x80
    ensures DecodeRune(s) == (s[0] as int, 1)
  {
  }

  function Size(s: Bytes): (n: nat)
    ensures n <= |s| && n <= 4
    ensures n == 0 <==> s == []
  {
    DecodeRune(s).1
  }

  /** Whether s begins with a properly encoded rune. */
  predicate StartsWell(s: Bytes) {
    s != [] && (s[0] < 0x80 || Size(s) > 1)
  }

  predicate Valid(s: Bytes) {
    s == [] || (StartsWell(s) && Valid(s[Size(s)..]))
  }

  function EncodeAll(runes: seq<Rune>): Bytes
    requires forall r :: r in runes ==> IsScalar(r)
  {
    if runes == [] then [] else Encode(runes[0]) + EncodeAll(runes[1..])
  }

  /** The runes a `range` over s visits. */
  function Runes(s: Bytes): seq<Rune> {
    if s == [] then [] else [DecodeRune(s).0] + Runes(s[Size(s)..])
  }

  /** Encoded text is valid, and a range over it visits the runes it was made from. */
  lemma {:induction false} EncodedIsValid(runes: seq<Rune>)
    requires forall r :: r in runes ==> IsScalar(r)
    ensures Valid(EncodeAll(runes)) && Runes(EncodeAll(runes)) == runes
  {
    if runes != [] {
      var head, tail := Encode(runes[0]), EncodeAll(runes[1..]);
      var s := head + tail;
      EncodedIsValid(runes[1..]);
      DecodeInvertsEncode(runes[0], tail);
      assert s[|head|..] == tail;
    }
  }

  /** Whether a `range` over s stops at offset i, or i is the end. */
  predicate Boundary(s: Bytes, i: nat) {
    i == 0 || (s != [] && i >= Size(s) && Boundary(s[Size(s)..], i - Size(s)))
  }

  /** After one boundary comes the next, a rune further, and nothing between. */
  lemma {:induction false} NextBoundary(s: Bytes, i: nat, j: nat)
    requires i < |s| && Boundary(s, i)
    ensures i < j < i + Size(s[i..]) ==> !Boundary(s, j)
    ensures j == i + Size(s[i..]) ==> Boundary(s, j)
  {
    var n := Size(s);
    if i == 0 {
      assert s[0..] == s;
    } else {
      assert s[n..][i - n..] == s[i..];
      if j >= n {
        NextBoundary(s[n..], i - n, j - n);
      }
    }
  }

  // ----- Case-insensitive search; `lower` is the library's idea of lower case -----

  predicate FoldPrefix(lower: Rune -> Rune, s: seq<Rune>, prefix: seq<Rune>) {
    |prefix| <= |s| && forall k :: 0 <= k < |prefix| ==> lower(s[k]) == lower(prefix[k])
  }

  lemma FoldPrefixStep(lower: Rune -> Rune, s: Bytes, prefix: Bytes)
    requires prefix != []
    ensures FoldPrefix(lower, Runes(s), Runes(prefix)) <==>
              s != [] && lower(DecodeRune(s).0) == lower(DecodeRune(prefix).0) &&
              FoldPrefix(lower, Runes(s[Size(s)..]), Runes(prefix[Size(prefix)..]))
  {
    if s != [] {
      var a, b := Runes(s), Runes(prefix);
      var a', b' := Runes(s[Size(s)..]), Runes(prefix[Size(prefix)..]);
      if FoldPrefix(lower, a, b) {
        forall k | 0 <= k < |b'| ensures lower(a'[k]) == lower(b'[k]) {
          assert lower(a[k + 1]) == lower(b[k + 1]);
        }
      }
      if lower(a[0]) == lower(b[0]) && FoldPrefix(lower, a', b') {
        forall k | 0 <= k < |b| ensures lower(a[k]) == lower(b[k]) {
          assert k > 0 ==> lower(a'[k - 1]) == lower(b'[k - 1]);
        }
      }
    }
  }

  lemma EmptyPrefixMatches(lower: Rune -> Rune, s: Bytes)
    ensures FoldPrefix(lower, Runes(s), Runes([]))
  {
  }

  method HasFoldPrefix(lower: Rune -> Rune, s: Bytes, prefix: Bytes) returns (found: bool)
    ensures found <==> FoldPrefix(lower, Runes(s), Runes(prefix))
  {
    hide FoldPrefix, Runes, DecodeRune;
    var rest := s;
    var i := 0;
    assert prefix[0..] == prefix;
    while i < |prefix|
      invariant 0 <= i <= |prefix|
      invariant FoldPrefix(lower, Runes(s), Runes(prefix)) <==> FoldPrefix(lower, Runes(rest), Runes(prefix[i..]))
      decreases |prefix| - i
    {
      FoldPrefixStep(lower, rest, prefix[i..]);
      var (pr, n) := DecodeRune(prefix[i..]);
      var (r, size) := DecodeRune(rest);
      if size == 0 {
        return false;
      }
      if lower(r) != lower(pr) {
        return false;
      }
      assert prefix[i..][n..] == prefix[i + n..];
      rest := rest[size..];
      i := i + n;
    }
    EmptyPrefixMatches(lower, rest);
    assert prefix[|prefix|..] == [];
    found := true;
  }

  predicate MatchAt(lower: Rune -> Rune, s: Bytes, substr: Bytes, i: nat) {
    i < |s| && Boundary(s, i) && FoldPrefix(lower, Runes(s[i..]), Runes(substr))
  }

  /** The least offset of a rune of s at which substr matches, or -1 if there is none. */
  method IndexFold(lower: Rune -> Rune, s: Bytes, substr: Bytes) returns (at: int)
    ensures at == -1 <==> forall i: nat :: !MatchAt(lower, s, substr, i)
    ensures at != -1 ==> at >= 0 && MatchAt(lower, s, substr, at) && forall i: nat :: i < at ==>
        !MatchAt(lower, s, substr, i)
  {
    var i := 0;
    while i < |s|
      invariant 0 <= i <= |s| && Boundary(s, i)
      invariant forall j: nat :: j < i ==> !MatchAt(lower, s, substr, j)
      decreases |s| - i
    {
      var here := HasFoldPrefix(lower, s[i..], substr);
      if here {
        assert MatchAt(lower, s, substr, i);
        return i;
      }
      var next := i + Size(s[i..]);
      forall j: nat | j < next ensures !MatchAt(lower, s, substr, j) {
        if j > i {
          NextBoundary(s, i, j);
        }
      }
      NextBoundary(s, i, next);
      i := next;
    }
    at := -1;
  }

  // ----- The excerpt -----

  const PREFIX := 40
  const MAX_LEN := 200
  const MARKER: Bytes := [0xE2, 0x80, 0xA6]

  predicate RuneStart(b: Byte) {
    !IsTail(b)
  }

  /** The last offset up to `from` that may start a rune. */
  predicate IsFloor(text: Bytes, from: nat, a: nat) {
    a <= from <= |text| && (a == 0 || (a < |text| && RuneStart(text[a]))) &&
    forall k :: a < k <= from && k < |text| ==> !RuneStart(text[k])
  }

  /** The first offset from `to` on that may start a rune. */
  predicate IsCeiling(text: Bytes, to: nat, b: nat) {
    to <= b <= |text| && (b == |text| || RuneStart(text[b])) &&
    forall k :: to <= k < b ==> !RuneStart(text[k])
  }

  function Max(a: int, b: int): int {
    if a < b then b else a
  }

  function Min(a: int, b: int): int {
    if a < b then a else b
  }

  /** The excerpt text[a..b] is cut around the match: from 40 bytes before it, 200 bytes long, each
      edge moved outwards to where a rune may start. */
  predicate CutAround(text: Bytes, matchAt: int, a: nat, b: nat) {
    var from := Max(Max(matchAt, 0) - PREFIX, 0);
    from <= |text| && IsFloor(text, from, a) && IsCeiling(text, Min(from + MAX_LEN, |text|), b)
  }

  function Marked(text: Bytes, a: nat, b: nat): Bytes
    requires a <= b <= |text|
  {
    (if a > 0 then MARKER else []) + text[a..b] + (if b < |text| then MARKER else [])
  }

  method SearchSnippet(text: Bytes, matchAt: int) returns (snippet: Bytes)
    requires matchAt <= |text|
    ensures text == [] ==> snippet == []
    ensures text != [] ==> exists a, b ::
        0 <= a <= b <= |text| && CutAround(text, matchAt, a, b) && snippet == Marked(text, a, b)
  {
    if text == [] {
      return [];
    }
    var at := Max(matchAt, 0);
    var from := Max(at - PREFIX, 0);
    var to := Min(from + MAX_LEN, |text|);
    var start, end := from, to;
    while start > 0 && !RuneStart(text[start])
      invariant 0 <= start <= from
      invariant forall k :: start < k <= from ==> !RuneStart(text[k])
    {
      start := start - 1;
    }
    while end < |text| && !RuneStart(text[end])
      invariant to <= end <= |text|
      invariant forall k :: to <= k < end ==> !RuneStart(text[k])
    {
      end := end + 1;
    }
    assert CutAround(text, matchAt, start, end);
    snippet := text[start..end];
    if start > 0 {
      snippet := MARKER + snippet;
    }
    if end < |text| {
      snippet := snippet + MARKER;
    }
    assert snippet == Marked(text, start, end);
  }

  /** In valid text a byte starts a rune exactly where a range over the text stops. */
  lemma {:induction false} StartsAreBoundaries(s: Bytes, i: nat)
    requires Valid(s) && i < |s|
    ensures Boundary(s, i) <==> RuneStart(s[i])
  {
    var n := Size(s);
    if i >= n {
      assert s[n..][i - n] == s[i];
      StartsAreBoundaries(s[n..], i - n);
    } else if i > 0 {
      assert s[0] >= 0x80;
      assert IsTail(s[i]);
    }
  }

  /** And every byte is at most three after one that does. */
  lemma {:induction false} StartIsNear(s: Bytes, i: nat)
    requires Valid(s) && i < |s|
    ensures exists k :: 0 <= k <= i && i - k <= 3 && RuneStart(s[k])
  {
    var n := Size(s);
    if i >= n {
      StartIsNear(s[n..], i - n);
      var k :| 0 <= k <= i - n && i - n - k <= 3 && RuneStart(s[n..][k]);
      assert RuneStart(s[n + k]);
    } else {
      assert RuneStart(s[0]);
    }
  }

  lemma {:induction false} EndIsBoundary(s: Bytes)
    requires Valid(s)
    ensures Boundary(s, |s|)
  {
    if s != [] {
      EndIsBoundary(s[Size(s)..]);
    }
  }

  /** The excerpt of valid text: cut between runes, no longer than 206 bytes, with the match's start in it. */
  lemma ExcerptIsWholeRunes(text: Bytes, matchAt: int, a: nat, b: nat)
    requires Valid(text) && text != [] && matchAt <= |text| && CutAround(text, matchAt, a, b)
    ensures a <= b && b - a <= MAX_LEN + 6
    ensures a <= Max(matchAt, 0) <= b && (0 <= matchAt < |text| ==> matchAt < b)
    ensures Boundary(text, a) && Boundary(text, b)
  {
    var from := Max(Max(matchAt, 0) - PREFIX, 0);
    var to := Min(from + MAX_LEN, |text|);
    assert from < |text|;
    StartIsNear(text, from);
    if a > 0 {
      StartsAreBoundaries(text, a);
    }
    if b < |text| {
      StartsAreBoundaries(text, b);
    } else {
      EndIsBoundary(text);
    }
    if b > to + 3 {
      StartIsNear(text, to + 3);
    }
  }

  /** What the search shows for a query it found in a valid text: the excerpt begins no later than the
      match, and reaches beyond its first byte. */
  method Excerpt(lower: Rune -> Rune, text: Bytes, query: Bytes) returns (snippet: Bytes, at: int)
    requires Valid(text)
    ensures |snippet| <= MAX_LEN + 6 + 2 * |MARKER|
    ensures text != [] ==> exists a, b ::
              && 0 <= a <= b <= |text| && snippet == Marked(text, a, b)
              && Boundary(text, a) && Boundary(text, b)
              && (at >= 0 ==> MatchAt(lower, text, query, at) && a <= at < b)
    ensures at < 0 <==> forall i: nat :: !MatchAt(lower, text, query, i)
  {
    at := IndexFold(lower, text, query);
    snippet := SearchSnippet(text, at);
    if text != [] {
      var a, b :| 0 <= a <= b <= |text| && CutAround(text, at, a, b) && snippet == Marked(text, a, b);
      ExcerptIsWholeRunes(text, at, a, b);
    }
  }
}
