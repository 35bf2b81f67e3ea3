/** Literal search text inside LIKE patterns (api/search.go). */
module LikePattern {
  // ----- The escaper -----

  /** Every occurrence of one character replaced. */
  function ReplaceAll(s: string, from: char, subst: string): string {
    if s == "" then "" else (if s[0] == from then subst else [s[0]]) + ReplaceAll(s[1..], from, subst)
  }

  function EscapeLikePattern(s: string): string {
    ReplaceAll(ReplaceAll(ReplaceAll(s, '\\', "\\\\"), '%', "\\%"), '_', "\\_")
  }

  predicate IsSpecial(c: char) {
    c == '\\' || c == '%' || c == '_'
  }

  /** Each special character preceded by a backslash. */
  function Quoted(s: string): string {
    if s == "" then "" else (if IsSpecial(s[0]) then ['\\', s[0]] else [s[0]]) + Quoted(s[1..])
  }

  lemma {:induction false} ReplaceAllOfConcat(a: string, b: string, from: char, subst: string)
    ensures ReplaceAll(a + b, from, subst) == ReplaceAll(a, from, subst) + ReplaceAll(b, from, subst)
  {
    if a == "" {
      assert a + b == b;
    } else {
      assert (a + b)[1..] == a[1..] + b;
      ReplaceAllOfConcat(a[1..], b, from, subst);
    }
  }

  lemma EscapeOfConcat(a: string, b: string)
    ensures EscapeLikePattern(a + b) == EscapeLikePattern(a) + EscapeLikePattern(b)
  {
    ReplaceAllOfConcat(a, b, '\\', "\\\\");
    var a1, b1 := ReplaceAll(a, '\\', "\\\\"), ReplaceAll(b, '\\', "\\\\");
    ReplaceAllOfConcat(a1, b1, '%', "\\%");
    ReplaceAllOfConcat(ReplaceAll(a1, '%', "\\%"), ReplaceAll(b1, '%', "\\%"), '_', "\\_");
  }

  lemma ReplaceOne(c: char, from: char, subst: string)
    ensures ReplaceAll([c], from, subst) == if c == from then subst else [c]
  {
    assert ReplaceAll([c][1..], from, subst) == "";
  }

  lemma ReplacePair(c: char, d: char, from: char, subst: string)
    requires c != from
    ensures ReplaceAll([c, d], from, subst) == [c] + if d == from then subst else [d]
  {
    assert [c, d] == [c] + [d];
    ReplaceAllOfConcat([c], [d], from, subst);
    ReplaceOne(c, from, subst);
    ReplaceOne(d, from, subst);
  }

  lemma EscapeOfOne(c: char)
    ensures EscapeLikePattern([c]) == if IsSpecial(c) then ['\\', c] else [c]
  {
    ReplaceOne(c, '\\', "\\\\");
    ReplaceOne(c, '%', "\\%");
    ReplaceOne(c, '_', "\\_");
    ReplacePair('\\', '\\', '%', "\\%");
    ReplacePair('\\', '\\', '_', "\\_");
    ReplacePair('\\', '%', '_', "\\_");
  }

  /** The three replacements in this order escape each special character once. */
  lemma {:induction false} EscapeQuotesEachOnce(s: string)
    ensures EscapeLikePattern(s) == Quoted(s)
  {
    if s != "" {
      assert s == [s[0]] + s[1..];
      EscapeOfConcat([s[0]], s[1..]);
      EscapeOfOne(s[0]);
      EscapeQuotesEachOnce(s[1..]);
    }
  }

  // ----- The matcher: LIKE with a backslash as its escape character -----

  /** Whether t matches the pattern p; `same` is the collation's idea of equal characters. */
  predicate Like(same: (char, char) -> bool, t: string, p: string)
    decreases |p|, |t|
  {
    if p == "" then t == ""
    else if p[0] == '%' then Like(same, t, p[1..]) || (t != "" && Like(same, t[1..], p))
    else if t == "" then false
    else if p[0] == '_' then Like(same, t[1..], p[1..])
    else if p[0] == '\\' && |p| > 1 then same(t[0], p[1]) && Like(same, t[1..], p[2..])
    else same(t[0], p[0]) && Like(same, t[1..], p[1..])
  }

  /** q is found in t at offset i. */
  predicate OccursAt(same: (char, char) -> bool, t: string, q: string, i: nat) {
    i + |q| <= |t| && forall k :: 0 <= k < |q| ==> same(t[i + k], q[k])
  }

  lemma {:induction false} PercentMatchesAll(same: (char, char) -> bool, t: string)
    ensures Like(same, t, "%")
  {
    if t != "" {
      PercentMatchesAll(same, t[1..]);
    }
  }

  lemma {:induction false} QuotedMatchesItself(same: (char, char) -> bool, t: string, q: string)
    ensures Like(same, t, Quoted(q) + "%") <==> OccursAt(same, t, q, 0)
  {
    var p := Quoted(q) + "%";
    if q == "" {
      assert p == "%";
      PercentMatchesAll(same, t);
    } else if t == "" {
      assert p[0] == Quoted(q)[0];
    } else {
      QuotedMatchesItself(same, t[1..], q[1..]);
      var rest := Quoted(q[1..]) + "%";
      if IsSpecial(q[0]) {
        assert p == ['\\', q[0]] + rest;
        assert p[2..] == rest;
      } else {
        assert p == [q[0]] + rest;
        assert p[1..] == rest;
      }
      assert Like(same, t, p) <==> same(t[0], q[0]) && Like(same, t[1..], rest);
      if OccursAt(same, t[1..], q[1..], 0) && same(t[0], q[0]) {
        forall k | 0 <= k < |q| ensures same(t[0 + k], q[k]) {
          if k > 0 {
            assert same(t[1..][0 + (k - 1)], q[1..][k - 1]);
          }
        }
      }
      if OccursAt(same, t, q, 0) {
        forall k | 0 <= k < |q[1..]| ensures same(t[1..][0 + k], q[1..][k]) {
          assert same(t[0 + (k + 1)], q[k + 1]);
        }
        assert same(t[0 + 0], q[0]);
      }
    }
  }

  lemma {:induction false} PercentSkips(same: (char, char) -> bool, t: string, p: string)
    ensures Like(same, t, "%" + p) <==> exists i :: 0 <= i <= |t| && Like(same, t[i..], p)
  {
    assert ("%" + p)[1..] == p;
    assert t[0..] == t;
    if t != "" {
      PercentSkips(same, t[1..], p);
      if i :| 0 <= i <= |t[1..]| && Like(same, t[1..][i..], p) {
        assert t[1..][i..] == t[i + 1..];
      }
      if i :| 0 <= i <= |t| && Like(same, t[i..], p) && i > 0 {
        assert t[1..][i - 1..] == t[i..];
      }
    }
  }

  /** A search finds exactly the texts that contain the query literally, whatever the query contains. */
  lemma SearchIsLiteral(same: (char, char) -> bool, t: string, q: string)
    ensures Like(same, t, "%" + EscapeLikePattern(q) + "%") <==> exists i :: OccursAt(same, t, q, i)
  {
    EscapeQuotesEachOnce(q);
    var p := Quoted(q) + "%";
    assert "%" + EscapeLikePattern(q) + "%" == "%" + p;
    PercentSkips(same, t, p);
    forall i | 0 <= i <= |t| ensures Like(same, t[i..], p) <==> OccursAt(same, t, q, i) {
      QuotedMatchesItself(same, t[i..], q);
      OccursAtSuffix(same, t, q, i);
    }
    if i: nat :| OccursAt(same, t, q, i) {
      assert Like(same, t[i..], p);
    }
  }

  lemma OccursAtSuffix(same: (char, char) -> bool, t: string, q: string, i: nat)
    requires i <= |t|
    ensures OccursAt(same, t[i..], q, 0) <==> OccursAt(same, t, q, i)
  {
    if i + |q| <= |t| {
      forall k | 0 <= k < |q| ensures t[i..][k] == t[i + k] {}
    }
  }
}
