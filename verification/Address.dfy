/**
 * The Black Rock City address normalizer (lib/format/address.go): the patterns as languages, a
 * scanner that decides them, and the canonical printer.
 *
 * Characters fold and count as spaces the ASCII way.
 */
module Address {
  import opened Base

  // ----- Characters -----

  predicate IsDigit(c: char) { '0' <= c <= '9' }

  /** What the patterns' \s matches. */
  predicate IsSpace(c: char) { c == ' ' || c == '\t' || c == '\n' || c == '\r' || c == '\U{000C}' }

  /** What trimming removes: the same, and the vertical tab. */
  predicate IsTrimmed(c: char) { IsSpace(c) || c == '\U{000B}' }

  predicate IsPunctuation(c: char) { c == '&' || c == '+' || c == '/' || c == ',' }

  predicate IsLetter(c: char) { 'A' <= c <= 'Z' || 'a' <= c <= 'z' }

  function Upper(c: char): (r: char)
    ensures IsLetter(c) ==> 'A' <= r <= 'Z'
    ensures !IsLetter(c) ==> r == c
  {
    if 'a' <= c <= 'z' then c - 'a' + 'A' else c
  }

  function ToUpper(s: string): (r: string)
    ensures |r| == |s|
    ensures forall i :: 0 <= i < |s| ==> r[i] == Upper(s[i])
  {
    seq(|s|, i requires 0 <= i < |s| => Upper(s[i]))
  }

  /** The length of the longest prefix of s whose characters all satisfy p. */
  function Run(p: char -> bool, s: string): (n: nat)
    ensures n <= |s|
    ensures forall i :: 0 <= i < n ==> p(s[i])
    ensures n < |s| ==> !p(s[n])
  {
    if s == "" || !p(s[0]) then 0 else 1 + Run(p, s[1..])
  }

  predicate All(p: char -> bool, s: string) {
    forall i :: 0 <= i < |s| ==> p(s[i])
  }

  lemma {:induction false} RunOf(p: char -> bool, a: string, b: string)
    requires All(p, a) && (b == "" || !p(b[0]))
    ensures Run(p, a + b) == |a|
  {
    if a == "" {
      assert a + b == b;
    } else {
      assert (a + b)[1..] == a[1..] + b;
      RunOf(p, a[1..], b);
    }
  }

  function TrimLeft(s: string): string {
    s[Run(IsTrimmed, s)..]
  }

  function TrimRight(s: string): (r: string)
    ensures |r| <= |s| && r == s[..|r|] && All(IsTrimmed, s[|r|..])
    ensures r != "" ==> !IsTrimmed(r[|r| - 1])
  {
    if s == "" || !IsTrimmed(s[|s| - 1]) then s else TrimRight(s[..|s| - 1])
  }

  function TrimSpace(s: string): string {
    TrimRight(TrimLeft(s))
  }

  // Only what is trimmed goes, and none of it is left at either end.
  lemma TrimSpaceTrims(s: string)
    ensures exists i, j ::
      && 0 <= i <= j <= |s| && TrimSpace(s) == s[i..j]
      && All(IsTrimmed, s[..i]) && All(IsTrimmed, s[j..])
      && (i < j ==> !IsTrimmed(s[i]) && !IsTrimmed(s[j - 1]))
  {
    var i := Run(IsTrimmed, s);
    var j := i + |TrimSpace(s)|;
    assert TrimSpace(s) == TrimLeft(s)[..j - i] == s[i..j];
    assert s[j..] == TrimLeft(s)[j - i..];
    if i < j {
      assert s[j - 1] == TrimSpace(s)[j - i - 1];
    }
  }

  lemma TrimmedIsItself(s: string)
    requires s != "" && !IsTrimmed(s[0]) && !IsTrimmed(s[|s| - 1])
    ensures TrimSpace(s) == s
  {
    assert Run(IsTrimmed, s) == 0;
  }

  // ----- The patterns, as languages -----

  /** What the radial pattern captures: an hour and maybe a minute, or a colonless radial. */
  datatype Radial = Radial(hour: string, minute: string, colonless: string)

  predicate Digits(s: string, lo: nat, hi: nat) {
    lo <= |s| <= hi && All(IsDigit, s)
  }

  predicate IsRadial(t: string, r: Radial) {
    || (Digits(r.hour, 1, 2) && r.minute == "" && r.colonless == "" && t == r.hour)
    || (Digits(r.hour, 1, 2) && Digits(r.minute, 1, 2) && r.colonless == "" && t == r.hour + ":" + r.minute)
    || (r.hour == "" && r.minute == "" && Digits(r.colonless, 3, 4) && t == r.colonless)
  }

  /** Spaces around one punctuation mark, which is at position i. */
  predicate PunctuatedAt(t: string, i: int) {
    0 <= i < |t| && All(IsSpace, t[..i]) && IsPunctuation(t[i]) && All(IsSpace, t[i + 1..])
  }

  /** The word AND, at position i, with spaces on both sides. */
  predicate AndAt(t: string, i: int) {
    0 < i < |t| - 3 && All(IsSpace, t[..i]) && ToUpper(t[i..i + 3]) == "AND" && All(IsSpace, t[i + 3..])
  }

  ghost predicate IsSeparator(t: string) {
    || (exists i :: PunctuatedAt(t, i))
    || (exists i :: AndAt(t, i))
    || (t != "" && All(IsSpace, t))
  }

  predicate IsStreet(street: string) {
    var u := ToUpper(street);
    (|u| == 1 && 'A' <= u[0] <= 'L') || u == "ESPLANADE" || u == "ESPL" || u == "ESP"
  }

  predicate IsConcentric(t: string, street: string) {
    IsStreet(street) && (t == street || t == street + ".")
  }

  predicate IsUnit(unit: string) {
    unit == "'" || unit == "\U{2019}" || ToUpper(unit) == "FT" || ToUpper(unit) == "FT." || ToUpper(unit) == "FEET"
  }

  ghost predicate IsDistance(t: string, feet: string, unit: string) {
    Digits(feet, 1, 5) && (unit == "" || IsUnit(unit)) &&
    exists n :: |feet| <= n <= |t| && t[..|feet|] == feet && All(IsSpace, t[|feet|..n]) && t[n..] == unit
  }

  ghost predicate MatchesRadialConcentric(s: string, r: Radial, street: string) {
    exists i, j :: 0 <= i <= j <= |s| && IsRadial(s[..i], r) && IsSeparator(s[i..j]) && IsConcentric(s[j..], street)
  }

  ghost predicate MatchesConcentricRadial(s: string, street: string, r: Radial) {
    exists i, j :: 0 <= i <= j <= |s| && IsConcentric(s[..i], street) && IsSeparator(s[i..j]) && IsRadial(s[j..], r)
  }

  ghost predicate MatchesRadialDistance(s: string, r: Radial, feet: string, unit: string) {
    exists i, j :: 0 <= i <= j <= |s| && IsRadial(s[..i], r) && IsSeparator(s[i..j]) && IsDistance(s[j..], feet, unit)
  }

  // ----- The scanner -----

  /** A radial at the start of s and how many characters it takes. */
  function ScanRadial(s: string): Option<(Radial, nat)> {
    var n := Run(IsDigit, s);
    if 3 <= n <= 4 then Some((Radial("", "", s[..n]), n))
    else if !(1 <= n <= 2) then None
    else if n < |s| && s[n] == ':' then
      var k := Run(IsDigit, s[n + 1..]);
      if 1 <= k <= 2 then Some((Radial(s[..n], s[n + 1..n + 1 + k], ""), n + 1 + k)) else None
    else Some((Radial(s[..n], "", ""), n))
  }

  /** The length of the separator at the start of s, 0 if there is none. */
  function ScanSeparator(s: string): (n: nat)
    ensures n <= |s|
  {
    var a := Run(IsSpace, s);
    if a < |s| && IsPunctuation(s[a]) then a + 1 + Run(IsSpace, s[a + 1..])
    else if a > 0 && a + 3 < |s| && ToUpper(s[a..a + 3]) == "AND" && IsSpace(s[a + 3]) then
        a + 3 + Run(IsSpace, s[a + 3..])
    else a
  }

  function ScanConcentric(s: string): Option<(string, nat)> {
    var n := Run(IsLetter, s);
    if !IsStreet(s[..n]) then None
    else if n < |s| && s[n] == '.' then Some((s[..n], n + 1))
    else Some((s[..n], n))
  }

  function ScanDistance(s: string): Option<(string, string)> {
    var n := Run(IsDigit, s);
    var k := n + Run(IsSpace, s[n..]);
    if 1 <= n <= 5 && (k == |s| || IsUnit(s[k..])) then Some((s[..n], s[k..])) else None
  }

  lemma ScanDigits(digits: string, rest: string)
    requires All(IsDigit, digits) && (rest == "" || !IsDigit(rest[0]))
    ensures Run(IsDigit, digits + rest) == |digits|
    ensures (digits + rest)[..|digits|] == digits
    ensures (digits + rest)[|digits|..] == rest
  {
    RunOf(IsDigit, digits, rest);
  }

  lemma ScanHourMinute(s: string, hour: string, minute: string, rest: string)
    requires Digits(hour, 1, 2) && Digits(minute, 1, 2) && (rest == "" || !IsDigit(rest[0]))
    requires s == hour + (":" + (minute + rest))
    ensures ScanRadial(s) == Some((Radial(hour, minute, ""), |hour| + 1 + |minute|))
  {
    var n := |hour|;
    ScanDigits(hour, ":" + (minute + rest));
    assert s[n] == ':';
    assert s[n + 1..] == minute + rest;
    ScanDigits(minute, rest);
    assert s[n + 1..n + 1 + |minute|] == minute;
  }

  lemma ScanPlainRadial(t: string, rest: string)
    requires Digits(t, 1, 4)
    requires rest == "" || (!IsDigit(rest[0]) && rest[0] != ':')
    ensures ScanRadial(t + rest) == Some((if |t| <= 2 then Radial(t, "", "") else Radial("", "", t), |t|))
  {
    ScanDigits(t, rest);
    assert rest != "" ==> (t + rest)[|t|] == rest[0];
  }

  lemma ScanRadialFinds(t: string, r: Radial, rest: string)
    requires IsRadial(t, r)
    requires rest == "" || (!IsDigit(rest[0]) && rest[0] != ':')
    ensures ScanRadial(t + rest) == Some((r, |t|))
  {
    hide ScanRadial;
    if r.minute == "" {
      assert Digits(t, 1, 4) && r == if |t| <= 2 then Radial(t, "", "") else Radial("", "", t);
      ScanPlainRadial(t, rest);
    } else {
      assert t + rest == r.hour + (":" + (r.minute + rest));
      ScanHourMinute(t + rest, r.hour, r.minute, rest);
    }
  }

  lemma ScanRadialSound(s: string)
    requires ScanRadial(s).Some?
    ensures var (r, n) := ScanRadial(s).value; n <= |s| && IsRadial(s[..n], r)
  {
    var (r, n) := ScanRadial(s).value;
    var d := Run(IsDigit, s);
    assert All(IsDigit, s[..d]);
    if n > d {
      var k := Run(IsDigit, s[d + 1..]);
      assert forall i :: 0 <= i < k ==> s[d + 1..][i] == r.minute[i];
      assert All(IsDigit, r.minute);
      assert s[..n] == r.hour + ":" + r.minute;
    }
  }

  /** The rest after a separator decides it: it starts with neither a space, nor punctuation, nor AND. */
  predicate AfterSeparator(rest: string) {
    rest != "" && !IsSpace(rest[0]) && !IsPunctuation(rest[0]) &&
    !(|rest| > 3 && ToUpper(rest[..3]) == "AND" && IsSpace(rest[3]))
  }

  lemma ScanPunctuation(s: string, a: string, c: char, b: string, rest: string)
    requires All(IsSpace, a) && IsPunctuation(c) && All(IsSpace, b) && AfterSeparator(rest)
    requires s == a + ([c] + (b + rest))
    ensures ScanSeparator(s) == |a| + 1 + |b|
  {
    RunOf(IsSpace, a, [c] + (b + rest));
    assert s[|a|] == c;
    assert s[|a| + 1..] == b + rest;
    RunOf(IsSpace, b, rest);
  }

  lemma ScanAnd(s: string, a: string, w: string, b: string, rest: string)
    requires a != "" && All(IsSpace, a) && |w| == 3 && ToUpper(w) == "AND" && b != "" && All(IsSpace, b) &&
        AfterSeparator(rest)
    requires s == a + (w + (b + rest))
    ensures ScanSeparator(s) == |a| + 3 + |b|
  {
    assert ToUpper(w)[0] == Upper(w[0]);
    RunOf(IsSpace, a, w + (b + rest));
    assert s[|a|] == w[0];
    assert s[|a|..|a| + 3] == w;
    assert s[|a| + 3..] == b + rest;
    RunOf(IsSpace, b, rest);
    assert s[|a| + 3] == b[0];
  }

  lemma ScanSpaces(a: string, rest: string)
    requires a != "" && All(IsSpace, a) && AfterSeparator(rest)
    ensures ScanSeparator(a + rest) == |a|
  {
    var s := a + rest;
    RunOf(IsSpace, a, rest);
    if |a| + 3 < |s| {
      assert s[|a|..|a| + 3] == rest[..3];
      assert s[|a| + 3] == rest[3];
    }
  }

  lemma ScanPunctuatedAt(t: string, i: int, rest: string)
    requires PunctuatedAt(t, i) && AfterSeparator(rest)
    ensures ScanSeparator(t + rest) == |t|
  {
    assert t + rest == t[..i] + ([t[i]] + (t[i + 1..] + rest));
    ScanPunctuation(t + rest, t[..i], t[i], t[i + 1..], rest);
  }

  lemma ScanAndAt(t: string, i: int, rest: string)
    requires AndAt(t, i) && AfterSeparator(rest)
    ensures ScanSeparator(t + rest) == |t|
  {
    assert t + rest == t[..i] + (t[i..i + 3] + (t[i + 3..] + rest));
    ScanAnd(t + rest, t[..i], t[i..i + 3], t[i + 3..], rest);
  }

  lemma ScanSeparatorFinds(t: string, rest: string)
    requires IsSeparator(t) && AfterSeparator(rest)
    ensures ScanSeparator(t + rest) == |t|
  {
    if i :| PunctuatedAt(t, i) {
      ScanPunctuatedAt(t, i, rest);
    } else if i :| AndAt(t, i) {
      ScanAndAt(t, i, rest);
    } else {
      ScanSpaces(t, rest);
    }
  }

  lemma ScanSeparatorSound(s: string)
    requires ScanSeparator(s) > 0
    ensures IsSeparator(s[..ScanSeparator(s)])
  {
    var a := Run(IsSpace, s);
    var t := s[..ScanSeparator(s)];
    assert t[..a] == s[..a];
    if a < |s| && IsPunctuation(s[a]) {
      assert PunctuatedAt(t, a);
    } else if a > 0 && a + 3 < |s| && ToUpper(s[a..a + 3]) == "AND" && IsSpace(s[a + 3]) {
      assert t[a..a + 3] == s[a..a + 3];
      assert AndAt(t, a);
    }
  }

  lemma StreetIsLetters(street: string)
    requires IsStreet(street)
    ensures street != "" && All(IsLetter, street)
    ensures AfterSeparator(street) && AfterSeparator(street + ".")
  {
    var u := ToUpper(street);
    forall i | 0 <= i < |street| ensures IsLetter(street[i]) {
      assert u[i] == Upper(street[i]);
    }
    if |street| > 1 {
      assert u[1] == 'S';
      assert ToUpper(street[..3])[1] == 'S' && ToUpper((street + ".")[..3])[1] == 'S';
    }
  }

  lemma ScanConcentricFinds(t: string, street: string, rest: string)
    requires IsConcentric(t, street)
    requires rest == "" || (!IsLetter(rest[0]) && rest[0] != '.')
    ensures ScanConcentric(t + rest) == Some((street, |t|))
  {
    StreetIsLetters(street);
    var tail := t[|street|..] + rest;
    assert t + rest == street + tail;
    RunOf(IsLetter, street, tail);
  }

  lemma UnitStart(unit: string)
    requires IsUnit(unit)
    ensures unit != "" && !IsSpace(unit[0]) && !IsDigit(unit[0])
  {
    assert |ToUpper(unit)| == |unit|;
    assert unit != "" ==> ToUpper(unit)[0] == Upper(unit[0]);
  }

  lemma ScanDistanceFinds(feet: string, spaces: string, unit: string)
    requires Digits(feet, 1, 5) && All(IsSpace, spaces) && (unit == "" || IsUnit(unit))
    ensures ScanDistance(feet + spaces + unit) == Some((feet, unit))
  {
    var s := feet + spaces + unit;
    if unit != "" { UnitStart(unit); }
    hide IsUnit;
    assert s == feet + (spaces + unit);
    ScanDigits(feet, spaces + unit);
    RunOf(IsSpace, spaces, unit);
    assert s[|feet| + |spaces|..] == unit;
  }

  lemma ScanDistanceSound(s: string, feet: string, unit: string)
    requires ScanDistance(s) == Some((feet, unit))
    ensures IsDistance(s, feet, unit)
  {
    hide IsUnit, Digits;
    var d := Run(IsDigit, s);
    var n := d + Run(IsSpace, s[d..]);
    assert feet == s[..d] && unit == s[n..];
    assert unit == "" || IsUnit(unit);
    assert Digits(feet, 1, 5) by { DigitsOfRun(s, d); }
    assert s[d..n] == s[d..][..n - d];
    assert |feet| <= n <= |s| && s[..|feet|] == feet && All(IsSpace, s[|feet|..n]) && s[n..] == unit;
  }

  lemma DigitsOfRun(s: string, d: nat)
    requires d == Run(IsDigit, s) && 1 <= d <= 5
    ensures Digits(s[..d], 1, 5)
  {
  }

  lemma ScanDistanceDecides(s: string, feet: string, unit: string)
    ensures IsDistance(s, feet, unit) <==> ScanDistance(s) == Some((feet, unit))
  {
    if IsDistance(s, feet, unit) {
      var n :| |feet| <= n <= |s| && s[..|feet|] == feet && All(IsSpace, s[|feet|..n]) && s[n..] == unit;
      assert s == feet + s[|feet|..n] + unit;
      ScanDistanceFinds(feet, s[|feet|..n], unit);
    }
    hide ScanDistance, IsDistance;
    if ScanDistance(s) == Some((feet, unit)) {
      ScanDistanceSound(s, feet, unit);
    }
  }

  // ----- The three patterns, decided -----

  function MatchRadialConcentric(s: string): Option<(Radial, string)> {
    match ScanRadial(s)
    case None => None
    case Some((r, n)) =>
      var k := if n <= |s| then ScanSeparator(s[n..]) else 0;
      if k == 0 then None
      else match ScanConcentric(s[n + k..])
        case None => None
        case Some((street, m)) => if n + k + m == |s| then Some((r, street)) else None
  }

  function MatchConcentricRadial(s: string): Option<(string, Radial)> {
    match ScanConcentric(s)
    case None => None
    case Some((street, n)) =>
      var k := if n <= |s| then ScanSeparator(s[n..]) else 0;
      if k == 0 then None
      else match ScanRadial(s[n + k..])
        case None => None
        case Some((r, m)) => if n + k + m == |s| then Some((street, r)) else None
  }

  function MatchRadialDistance(s: string): Option<(Radial, string, string)> {
    match ScanRadial(s)
    case None => None
    case Some((r, n)) =>
      var k := if n <= |s| then ScanSeparator(s[n..]) else 0;
      if k == 0 then None
      else match ScanDistance(s[n + k..])
        case None => None
        case Some((feet, unit)) => Some((r, feet, unit))
  }

  /** The character a separator starts with belongs to no radial and no street. */
  lemma SeparatorStart(t: string)
    requires IsSeparator(t)
    ensures t != "" && (IsSpace(t[0]) || IsPunctuation(t[0]))
  {
    if i :| PunctuatedAt(t, i) {
      assert i > 0 ==> t[..i][0] == t[0];
    } else if i :| AndAt(t, i) {
      assert t[..i][0] == t[0];
    }
  }

  lemma RadialStart(t: string, r: Radial)
    requires IsRadial(t, r)
    ensures t != "" && IsDigit(t[0]) && AfterSeparator(t)
  {
    if |t| > 3 {
      assert ToUpper(t[..3])[0] == Upper(t[0]);
    }
  }

  lemma DistanceStart(t: string, feet: string, unit: string)
    requires IsDistance(t, feet, unit)
    ensures t != "" && IsDigit(t[0]) && AfterSeparator(t)
  {
    assert t[0] == feet[0];
    if |t| > 3 {
      assert ToUpper(t[..3])[0] == Upper(t[0]);
    }
  }

  lemma ConcentricStart(t: string, street: string)
    requires IsConcentric(t, street)
    ensures t != "" && IsLetter(t[0]) && AfterSeparator(t)
  {
    StreetIsLetters(street);
  }

  lemma MatchRadialConcentricFinds(a: string, b: string, c: string, r: Radial, street: string)
    requires IsRadial(a, r) && IsSeparator(b) && IsConcentric(c, street)
    ensures MatchRadialConcentric(a + (b + c)) == Some((r, street))
  {
    hide IsRadial, IsSeparator, IsConcentric, IsDistance, ScanRadial, ScanSeparator, ScanConcentric, ScanDistance,
           AfterSeparator;
    var s := a + (b + c);
    SeparatorStart(b);
    ScanRadialFinds(a, r, b + c);
    assert s[|a|..] == b + c;
    ConcentricStart(c, street);
    ScanSeparatorFinds(b, c);
    assert s[|a| + |b|..] == c == c + "";
    ScanConcentricFinds(c, street, "");
  }

  lemma MatchConcentricRadialFinds(a: string, b: string, c: string, street: string, r: Radial)
    requires IsConcentric(a, street) && IsSeparator(b) && IsRadial(c, r)
    ensures MatchConcentricRadial(a + (b + c)) == Some((street, r))
  {
    hide IsRadial, IsSeparator, IsConcentric, IsDistance, ScanRadial, ScanSeparator, ScanConcentric, ScanDistance,
           AfterSeparator;
    var s := a + (b + c);
    SeparatorStart(b);
    ScanConcentricFinds(a, street, b + c);
    assert s[|a|..] == b + c;
    RadialStart(c, r);
    ScanSeparatorFinds(b, c);
    assert s[|a| + |b|..] == c == c + "";
    ScanRadialFinds(c, r, "");
  }

  lemma MatchRadialDistanceFinds(a: string, b: string, c: string, r: Radial, feet: string, unit: string)
    requires IsRadial(a, r) && IsSeparator(b) && IsDistance(c, feet, unit)
    ensures MatchRadialDistance(a + (b + c)) == Some((r, feet, unit))
  {
    hide IsRadial, IsSeparator, IsConcentric, IsDistance, ScanRadial, ScanSeparator, ScanConcentric, ScanDistance,
           AfterSeparator;
    var s := a + (b + c);
    SeparatorStart(b);
    ScanRadialFinds(a, r, b + c);
    assert s[|a|..] == b + c;
    DistanceStart(c, feet, unit);
    ScanSeparatorFinds(b, c);
    assert s[|a| + |b|..] == c;
    ScanDistanceDecides(c, feet, unit);
  }

  lemma ScanConcentricSound(s: string)
    requires ScanConcentric(s).Some?
    ensures var (street, n) := ScanConcentric(s).value; n <= |s| && IsConcentric(s[..n], street)
  {
    var (street, n) := ScanConcentric(s).value;
    if n > |street| {
      assert s[..n] == street + ".";
    }
  }

  /** The scanner finds exactly what the patterns describe. So each pattern captures in one way only. */
  lemma ScannerDecidesRadialConcentric(s: string, r: Radial, street: string)
    ensures MatchesRadialConcentric(s, r, street) <==> MatchRadialConcentric(s) == Some((r, street))
  {
    hide IsRadial, IsSeparator, IsConcentric, ScanRadial, ScanSeparator, ScanConcentric;
    if MatchesRadialConcentric(s, r, street) {
      var i, j :| 0 <= i <= j <= |s| && IsRadial(s[..i], r) && IsSeparator(s[i..j]) && IsConcentric(s[j..], street);
      assert s == s[..i] + (s[i..j] + s[j..]);
      MatchRadialConcentricFinds(s[..i], s[i..j], s[j..], r, street);
    }
    if MatchRadialConcentric(s) == Some((r, street)) {
      ScanRadialSound(s);
      var i := ScanRadial(s).value.1;
      ScanSeparatorSound(s[i..]);
      var j := i + ScanSeparator(s[i..]);
      assert s[i..j] == s[i..][..j - i];
      ScanConcentricSound(s[j..]);
      assert s[j..][..|s| - j] == s[j..];
      assert 0 <= i <= j <= |s| && IsRadial(s[..i], r) && IsSeparator(s[i..j]) && IsConcentric(s[j..], street);
    }
  }

  lemma ScannerDecidesConcentricRadial(s: string, street: string, r: Radial)
    ensures MatchesConcentricRadial(s, street, r) <==> MatchConcentricRadial(s) == Some((street, r))
  {
    hide IsRadial, IsSeparator, IsConcentric, ScanRadial, ScanSeparator, ScanConcentric;
    if MatchesConcentricRadial(s, street, r) {
      var i, j :| 0 <= i <= j <= |s| && IsConcentric(s[..i], street) && IsSeparator(s[i..j]) && IsRadial(s[j..], r);
      assert s == s[..i] + (s[i..j] + s[j..]);
      MatchConcentricRadialFinds(s[..i], s[i..j], s[j..], street, r);
    }
    if MatchConcentricRadial(s) == Some((street, r)) {
      ScanConcentricSound(s);
      var i := ScanConcentric(s).value.1;
      ScanSeparatorSound(s[i..]);
      var j := i + ScanSeparator(s[i..]);
      assert s[i..j] == s[i..][..j - i];
      ScanRadialSound(s[j..]);
      assert s[j..][..|s| - j] == s[j..];
      assert 0 <= i <= j <= |s| && IsConcentric(s[..i], street) && IsSeparator(s[i..j]) && IsRadial(s[j..], r);
    }
  }

  lemma ScannerDecidesRadialDistance(s: string, r: Radial, feet: string, unit: string)
    ensures MatchesRadialDistance(s, r, feet, unit) <==> MatchRadialDistance(s) == Some((r, feet, unit))
  {
    hide IsRadial, IsSeparator, IsDistance, ScanRadial, ScanSeparator, ScanDistance;
    if MatchesRadialDistance(s, r, feet, unit) {
      var i, j :| 0 <= i <= j <= |s| && IsRadial(s[..i], r) && IsSeparator(s[i..j]) && IsDistance(s[j..], feet, unit);
      assert s == s[..i] + (s[i..j] + s[j..]);
      MatchRadialDistanceFinds(s[..i], s[i..j], s[j..], r, feet, unit);
    }
    if MatchRadialDistance(s) == Some((r, feet, unit)) {
      ScanRadialSound(s);
      var i := ScanRadial(s).value.1;
      ScanSeparatorSound(s[i..]);
      var j := i + ScanSeparator(s[i..]);
      assert s[i..j] == s[i..][..j - i];
      ScanDistanceDecides(s[j..], feet, unit);
      assert 0 <= i <= j <= |s| && IsRadial(s[..i], r) && IsSeparator(s[i..j]) && IsDistance(s[j..], feet, unit);
    }
  }

  lemma RadialBegins(s: string)
    requires ScanRadial(s).Some?
    ensures s != "" && IsDigit(s[0])
  {
  }

  lemma ConcentricBegins(s: string)
    requires ScanConcentric(s).Some?
    ensures s != "" && IsLetter(s[0])
  {
    ScanConcentricSound(s);
    var (street, n) := ScanConcentric(s).value;
    ConcentricStart(s[..n], street);
    hide ScanConcentric, IsConcentric;
    assert s[..n][0] == s[0];
  }

  lemma DistanceBegins(s: string)
    requires ScanDistance(s).Some?
    ensures s != "" && IsDigit(s[0])
  {
    hide IsUnit;
  }

  /** No text matches two of the three patterns: they differ in the first character, or in the one after
      the separator. */
  lemma PatternsAreDisjoint(s: string)
    ensures MatchRadialConcentric(s).Some? ==> MatchConcentricRadial(s).None? && MatchRadialDistance(s).None?
    ensures MatchConcentricRadial(s).Some? ==> MatchRadialDistance(s).None?
  {
    hide ScanRadial, ScanConcentric, ScanDistance, ScanSeparator;
    if ScanRadial(s).Some? {
      RadialBegins(s);
      var n := ScanRadial(s).value.1;
      if n <= |s| {
        var rest := s[n + ScanSeparator(s[n..])..];
        if ScanConcentric(rest).Some? {
          ConcentricBegins(rest);
        }
        if ScanDistance(rest).Some? {
          DistanceBegins(rest);
        }
      }
    }
    if ScanConcentric(s).Some? {
      ConcentricBegins(s);
    }
  }

  // ----- Numbers -----

  function DigitOf(d: nat): (c: char)
    requires d < 10
    ensures IsDigit(c)
  {
    '0' + d as char
  }

  function Number(s: string): nat
    requires All(IsDigit, s)
  {
    if s == "" then 0 else 10 * Number(s[..|s| - 1]) + (s[|s| - 1] - '0') as nat
  }

  function Decimal(n: nat): (s: string)
    ensures s != "" && All(IsDigit, s)
  {
    if n < 10 then [DigitOf(n)] else Decimal(n / 10) + [DigitOf(n % 10)]
  }

  function TwoDigits(n: nat): (s: string)
    ensures All(IsDigit, s)
  {
    if n < 10 then "0" + Decimal(n) else Decimal(n)
  }

  lemma {:induction false} NumberOfDecimal(n: nat)
    ensures Number(Decimal(n)) == n
    ensures n < 100 ==> |Decimal(n)| <= 2
    ensures n < 100_000 ==> |Decimal(n)| <= 5
  {
    NumberReadsDecimal(n);
    if n < 100_000 {
      DecimalIsShort(n, 5);
    }
    if n < 100 {
      DecimalIsShort(n, 2);
    }
    hide Decimal, Number;
  }

  lemma {:induction false} NumberReadsDecimal(n: nat)
    ensures Number(Decimal(n)) == n
  {
    if n >= 10 {
      NumberReadsDecimal(n / 10);
      var s := Decimal(n);
      assert s[..|s| - 1] == Decimal(n / 10) && s[|s| - 1] == DigitOf(n % 10);
    }
  }

  function PowerOfTen(k: nat): nat {
    if k == 0 then 1 else 10 * PowerOfTen(k - 1)
  }

  lemma {:induction false} ShorterThanPower(n: nat, k: nat)
    requires k > 0 && n < PowerOfTen(k)
    ensures |Decimal(n)| <= k
  {
    if n >= 10 {
      ShorterThanPower(n / 10, k - 1);
    }
  }

  lemma DecimalIsShort(n: nat, k: nat)
    requires (k == 2 && n < 100) || (k == 5 && n < 100_000)
    ensures |Decimal(n)| <= k
  {
    assert PowerOfTen(2) == 10 * PowerOfTen(1) && PowerOfTen(1) == 10;
    assert PowerOfTen(4) == 100 * PowerOfTen(2) && PowerOfTen(5) == 10 * PowerOfTen(4);
    ShorterThanPower(n, k);
  }
}
