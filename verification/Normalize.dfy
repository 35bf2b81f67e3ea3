/** What an address means, its canonical form, and the normalizer built from the two. */
module Normalize {
  import opened Base
  import opened Address

  /** A street/radial intersection, in the order it was written, or a distance out along a radial. */
  datatype Meaning =
    | Intersection(hour: nat, minute: nat, street: string, radialFirst: bool)
    | Playa(hour: nat, minute: nat, feet: nat)

  predicate Canonical(street: string) {
    street == "Esplanade" || (|street| == 1 && 'A' <= street[0] <= 'L')
  }

  /** A clock position, a known street, a distance of one to five digits. */
  predicate Sensible(m: Meaning) {
    && m.hour <= 12 && m.minute <= 59
    && (m.Intersection? ==> Canonical(m.street))
    && (m.Playa? ==> 0 < m.feet < 100_000)
  }

  // ----- formatRadial, formatConcentric, formatDistance -----

  predicate WellCaptured(r: Radial) {
    && All(IsDigit, r.hour) && All(IsDigit, r.minute) && All(IsDigit, r.colonless)
    && (r.colonless == "" || |r.colonless| >= 3)
  }

  /** The hour and minute a radial capture stands for, if they are real ones. */
  function ReadRadial(r: Radial): (t: Option<(nat, nat)>)
    requires WellCaptured(r)
    ensures t.Some? ==> t.value.0 <= 12 && t.value.1 <= 59
  {
    var n := |r.colonless|;
    var hour := if r.colonless != "" then r.colonless[..n - 2] else r.hour;
    var minute := if r.colonless != "" then r.colonless[n - 2..] else r.minute;
    var h := Number(hour);
    var m := Number(minute);
    if hour == "" || h > 12 || m > 59 then None else Some((h, m))
  }

  function FormatRadial(h: nat, m: nat): string {
    Decimal(h) + ":" + TwoDigits(m)
  }

  function FormatConcentric(street: string): (r: string)
    ensures IsStreet(street) ==> Canonical(r)
  {
    if |street| == 1 then ToUpper(street) else "Esplanade"
  }

  function ReadDistance(feet: string, unit: string): (f: Option<nat>)
    requires All(IsDigit, feet)
    ensures f.Some? ==> f.value == Number(feet) && f.value > 0
  {
    if unit == "" && |feet| < 3 then None
    else if Number(feet) == 0 then None
    else Some(Number(feet))
  }

  /** What the matched pieces of each pattern look like. */
  lemma RadialConcentricPieces(s: string, r: Radial, street: string)
    requires MatchRadialConcentric(s) == Some((r, street))
    ensures WellCaptured(r) && IsStreet(street)
  {
    hide MatchRadialConcentric, IsSeparator;
    ScannerDecidesRadialConcentric(s, r, street);
  }

  lemma ConcentricRadialPieces(s: string, street: string, r: Radial)
    requires MatchConcentricRadial(s) == Some((street, r))
    ensures WellCaptured(r) && IsStreet(street)
  {
    hide MatchConcentricRadial, IsSeparator;
    ScannerDecidesConcentricRadial(s, street, r);
  }

  lemma RadialDistancePieces(s: string, r: Radial, feet: string, unit: string)
    requires MatchRadialDistance(s) == Some((r, feet, unit))
    ensures WellCaptured(r) && Digits(feet, 1, 5)
  {
    hide MatchRadialDistance, IsSeparator;
    ScannerDecidesRadialDistance(s, r, feet, unit);
  }

  lemma {:induction false} NumberBelow(s: string)
    requires All(IsDigit, s) && |s| <= 5
    ensures Number(s) < 100_000
    ensures |s| <= 4 ==> Number(s) < 10_000
    ensures |s| <= 3 ==> Number(s) < 1_000
    ensures |s| <= 2 ==> Number(s) < 100
    ensures |s| <= 1 ==> Number(s) < 10
  {
    if s != "" {
      NumberBelow(s[..|s| - 1]);
    }
  }

  /** The first pattern, on trimmed text. */
  function ParseRadialConcentric(s: string): (m: Option<Meaning>)
    ensures m.Some? ==> Sensible(m.value) && m.value.Intersection?
  {
    hide MatchRadialConcentric, ReadRadial, IsStreet, Canonical;
    match MatchRadialConcentric(s)
    case None => None
    case Some((r, street)) =>
      RadialConcentricPieces(s, r, street);
      match ReadRadial(r)
      case None => None
      case Some((h, m)) => Some(Intersection(h, m, FormatConcentric(street), true))
  }

  function ParseConcentricRadial(s: string): (m: Option<Meaning>)
    ensures m.Some? ==> Sensible(m.value) && m.value.Intersection?
  {
    hide MatchConcentricRadial, ReadRadial, IsStreet, Canonical;
    match MatchConcentricRadial(s)
    case None => None
    case Some((street, r)) =>
      ConcentricRadialPieces(s, street, r);
      match ReadRadial(r)
      case None => None
      case Some((h, m)) => Some(Intersection(h, m, FormatConcentric(street), false))
  }

  function ParseRadialDistance(s: string): (m: Option<Meaning>)
    ensures m.Some? ==> Sensible(m.value) && m.value.Playa?
  {
    hide MatchRadialDistance, ReadRadial;
    match MatchRadialDistance(s)
    case None => None
    case Some((r, feet, unit)) =>
      RadialDistancePieces(s, r, feet, unit);
      NumberBelow(feet);
      match (ReadRadial(r), ReadDistance(feet, unit))
      case (Some((h, m)), Some(f)) => Some(Playa(h, m, f))
      case _ => None
  }

  /** The three patterns tried in order, each falling through when it has no sensible reading. */
  function Parse(address: string): (m: Option<Meaning>)
    ensures m.Some? ==> Sensible(m.value)
  {
    var s := TrimSpace(address);
    var first := ParseRadialConcentric(s);
    if first.Some? then first
    else
      var second := ParseConcentricRadial(s);
      if second.Some? then second else ParseRadialDistance(s)
  }

  function Print(m: Meaning): string {
    var radial := FormatRadial(m.hour, m.minute);
    match m
    case Intersection(_, _, street, true) => radial + " & " + street
    case Intersection(_, _, street, false) => street + " & " + radial
    case Playa(_, _, feet) => radial + " " + Decimal(feet) + "'"
  }

  function NormalizeAddress(address: string): string {
    match Parse(address)
    case Some(m) => Print(m)
    case None => address
  }

  // ----- Parsing what was printed -----

  lemma NumberOfTwoDigits(m: nat)
    requires m <= 59
    ensures |TwoDigits(m)| == 2 && Number(TwoDigits(m)) == m
  {
    NumberOfDecimal(m);
    var s := TwoDigits(m);
    if m < 10 {
      assert s[..1] == "0" && s == ['0', DigitOf(m)];
      assert Number("0") == 0;
    } else {
      assert Decimal(m / 10) == [DigitOf(m / 10)];
    }
  }

  /** The printed radial is a radial, captured as its hour and its two-digit minute, and read back. */
  lemma PrintedRadial(h: nat, m: nat)
    requires h <= 12 && m <= 59
    ensures IsRadial(FormatRadial(h, m), Radial(Decimal(h), TwoDigits(m), ""))
    ensures ReadRadial(Radial(Decimal(h), TwoDigits(m), "")) == Some((h, m))
  {
    NumberOfDecimal(h);
    NumberOfTwoDigits(m);
  }

  lemma CanonicalStreet(street: string)
    requires Canonical(street)
    ensures IsConcentric(street, street) && FormatConcentric(street) == street
  {
    if |street| == 1 {
      assert ToUpper(street) == street;
    } else {
      assert ToUpper("Esplanade") == "ESPLANADE";
    }
  }

  lemma Separators()
    ensures IsSeparator(" & ") && IsSeparator(" ")
  {
    assert PunctuatedAt(" & ", 1);
  }

  lemma RadialThenStreet(h: nat, m: nat, street: string)
    requires h <= 12 && m <= 59 && Canonical(street)
    ensures var s := FormatRadial(h, m) + (" & " + street);
            && TrimSpace(s) == s
            && MatchRadialConcentric(s) == Some((Radial(Decimal(h), TwoDigits(m), ""), street))
  {
    hide IsRadial, IsSeparator, IsConcentric, MatchRadialConcentric, FormatRadial, Decimal, TwoDigits, ReadRadial;
    var radial := FormatRadial(h, m);
    var s := radial + (" & " + street);
    var r := Radial(Decimal(h), TwoDigits(m), "");
    PrintedRadial(h, m);
    CanonicalStreet(street);
    Separators();
    RadialStart(radial, r);
    assert s[0] == radial[0] && s[|s| - 1] == street[|street| - 1];
    TrimmedIsItself(s);
    MatchRadialConcentricFinds(radial, " & ", street, r, street);
  }

  lemma StreetThenRadial(h: nat, m: nat, street: string)
    requires h <= 12 && m <= 59 && Canonical(street)
    ensures var s := street + (" & " + FormatRadial(h, m));
            && TrimSpace(s) == s
            && MatchConcentricRadial(s) == Some((street, Radial(Decimal(h), TwoDigits(m), "")))
            && MatchRadialConcentric(s).None?
  {
    hide IsRadial, IsSeparator, IsConcentric, MatchRadialConcentric, MatchConcentricRadial, Decimal, TwoDigits,
           ReadRadial;
    var radial := FormatRadial(h, m);
    var s := street + (" & " + radial);
    var r := Radial(Decimal(h), TwoDigits(m), "");
    PrintedRadial(h, m);
    CanonicalStreet(street);
    Separators();
    NumberOfTwoDigits(m);
    assert s[0] == street[0] && s[|s| - 1] == TwoDigits(m)[1];
    TrimmedIsItself(s);
    MatchConcentricRadialFinds(street, " & ", radial, street, r);
    PatternsAreDisjoint(s);
  }

  lemma RadialThenDistance(h: nat, m: nat, feet: nat)
    requires h <= 12 && m <= 59 && 0 < feet < 100_000
    ensures var s := FormatRadial(h, m) + (" " + (Decimal(feet) + "'"));
            && TrimSpace(s) == s
            && MatchRadialDistance(s) == Some((Radial(Decimal(h), TwoDigits(m), ""), Decimal(feet), "'"))
            && MatchRadialConcentric(s).None? && MatchConcentricRadial(s).None?
  {
    hide IsRadial, IsSeparator, MatchRadialConcentric, MatchConcentricRadial, MatchRadialDistance, FormatRadial,
           Decimal, TwoDigits, ReadRadial, ScanDistance;
    var radial := FormatRadial(h, m);
    var d := Decimal(feet) + "'";
    var s := radial + (" " + d);
    var r := Radial(Decimal(h), TwoDigits(m), "");
    PrintedRadial(h, m);
    Separators();
    RadialStart(radial, r);
    NumberOfDecimal(feet);
    ScanDistanceFinds(Decimal(feet), "", "'");
    assert Decimal(feet) + "" + "'" == d;
    ScanDistanceDecides(d, Decimal(feet), "'");
    assert s[0] == radial[0] && s[|s| - 1] == '\'';
    TrimmedIsItself(s);
    MatchRadialDistanceFinds(radial, " ", d, r, Decimal(feet), "'");
    PatternsAreDisjoint(s);
  }

  /** Print is a right inverse of Parse: every sensible meaning survives being written and re-read. */
  lemma ParseInvertsPrint(m: Meaning)
    requires Sensible(m)
    ensures Parse(Print(m)) == Some(m)
  {
    hide MatchRadialConcentric, MatchConcentricRadial, MatchRadialDistance, TrimSpace, Decimal, TwoDigits, ReadRadial;
    PrintedRadial(m.hour, m.minute);
    match m
    case Intersection(h, n, street, true) =>
      RadialThenStreet(h, n, street);
      CanonicalStreet(street);
      assert Print(m) == FormatRadial(h, n) + (" & " + street);
    case Intersection(h, n, street, false) =>
      StreetThenRadial(h, n, street);
      CanonicalStreet(street);
      assert Print(m) == street + (" & " + FormatRadial(h, n));
    case Playa(h, n, feet) =>
      RadialThenDistance(h, n, feet);
      NumberOfDecimal(feet);
      assert Print(m) == FormatRadial(h, n) + (" " + (Decimal(feet) + "'"));
  }

  /** Normalizing keeps the meaning, does nothing the second time, leaves other text alone, and turns
      exactly the texts with the same meaning into the same text. */
  lemma NormalizeKeepsMeaning(address: string)
    ensures Parse(NormalizeAddress(address)) == Parse(address)
    ensures NormalizeAddress(NormalizeAddress(address)) == NormalizeAddress(address)
    ensures Parse(address).None? ==> NormalizeAddress(address) == address
    ensures Parse(address).Some? ==> Sensible(Parse(address).value)
  {
    if Parse(address).Some? {
      ParseInvertsPrint(Parse(address).value);
    }
  }

  /** Two addresses that parse are normalized to the same text iff they mean the same place. */
  lemma SameTextIffSamePlace(a: string, b: string)
    requires Parse(a).Some? && Parse(b).Some?
    ensures NormalizeAddress(a) == NormalizeAddress(b) <==> Parse(a) == Parse(b)
  {
    NormalizeKeepsMeaning(a);
    NormalizeKeepsMeaning(b);
  }

  // ----- Which texts are addresses, and of what -----

  /** The captured hour and minute; written without a colon, they are the digits of 100 times the hour and the
      minute. */
  predicate IsTime(r: Radial, h: nat, m: nat)
    requires WellCaptured(r)
  {
    && h <= 12 && m <= 59
    && if r.colonless != "" then Number(r.colonless) == 100 * h + m
       else r.hour != "" && Number(r.hour) == h && Number(r.minute) == m
  }

  /** A street of one letter is that letter's capital; every other is the Esplanade. */
  predicate IsNameOf(name: string, street: string) {
    if |street| == 1 then
      |name| == 1 && 'A' <= name[0] <= 'L' && (street[0] == name[0] || street[0] as int == name[0] as int + 32)
    else name == "Esplanade"
  }

  /** What a trimmed text means, by the patterns as they are described and not as they are scanned. */
  ghost predicate Means(s: string, m: Meaning) {
    match m
    case Intersection(h, n, name, true) =>
      exists r, street ::
        MatchesRadialConcentric(s, r, street) && WellCaptured(r) && IsTime(r, h, n) && IsNameOf(name, street)
    case Intersection(h, n, name, false) =>
      exists r, street ::
        MatchesConcentricRadial(s, street, r) && WellCaptured(r) && IsTime(r, h, n) && IsNameOf(name, street)
    case Playa(h, n, feet) =>
      exists r, digits, unit ::
        MatchesRadialDistance(s, r, digits, unit) && WellCaptured(r) && IsTime(r, h, n) && IsFeet(digits, unit, feet)
  }

  /** A distance without a unit has three digits at least. */
  predicate IsFeet(digits: string, unit: string, feet: nat) {
    All(IsDigit, digits) && feet > 0 && Number(digits) == feet && (unit != "" || |digits| >= 3)
  }

  lemma NumberNext(s: string, c: char)
    requires All(IsDigit, s) && IsDigit(c)
    ensures All(IsDigit, s + [c]) && Number(s + [c]) == 10 * Number(s) + (c - '0') as nat
  {
    assert (s + [c])[..|s|] == s;
  }

  lemma NumberNextTwo(s: string, c: char, d: char)
    requires All(IsDigit, s) && IsDigit(c) && IsDigit(d)
    ensures All(IsDigit, s + [c, d])
    ensures Number(s + [c, d]) == 100 * Number(s) + 10 * (c - '0') as nat + (d - '0') as nat
  {
    hide Number;
    NumberNext(s, c);
    NumberNext(s + [c], d);
    assert s + [c] + [d] == s + [c, d];
  }

  lemma NumberOfTwo(c: char, d: char)
    requires IsDigit(c) && IsDigit(d)
    ensures All(IsDigit, [c, d]) && Number([c, d]) == 10 * (c - '0') as nat + (d - '0') as nat < 100
  {
    NumberNextTwo("", c, d);
    assert "" + [c, d] == [c, d] && Number("") == 0;
    hide Number;
  }

  lemma NumberOfLastTwo(s: string)
    requires All(IsDigit, s) && |s| >= 2
    ensures All(IsDigit, s[..|s| - 2]) && All(IsDigit, s[|s| - 2..])
    ensures Number(s) == 100 * Number(s[..|s| - 2]) + Number(s[|s| - 2..])
    ensures Number(s[|s| - 2..]) < 100
  {
    hide Number;
    var n := |s|;
    var c, d := s[n - 2], s[n - 1];
    assert IsDigit(c) && IsDigit(d);
    assert s == s[..n - 2] + [c, d] && s[n - 2..] == [c, d];
    NumberNextTwo(s[..n - 2], c, d);
    NumberOfTwo(c, d);
  }

  lemma ReadsTheTimeIff(r: Radial, h: nat, m: nat)
    requires WellCaptured(r)
    ensures ReadRadial(r) == Some((h, m)) <==> IsTime(r, h, m)
  {
    if r.colonless != "" {
      NumberOfLastTwo(r.colonless);
    }
    hide Number;
  }

  lemma NamesTheStreet(street: string, name: string)
    requires IsStreet(street)
    ensures FormatConcentric(street) == name <==> IsNameOf(name, street)
  {
    if |street| == 1 {
      assert ToUpper(street) == [Upper(street[0])];
    }
  }

  lemma ReadsTheFeetIff(digits: string, unit: string, feet: nat)
    requires All(IsDigit, digits)
    ensures ReadDistance(digits, unit) == Some(feet) <==> IsFeet(digits, unit, feet)
  {
  }

  lemma FirstPatternIff(s: string, m: Meaning)
    ensures ParseRadialConcentric(s) == Some(m) <==> m.Intersection? && m.radialFirst && Means(s, m)
  {
    hide MatchRadialConcentric, MatchesRadialConcentric, ReadRadial, IsTime, IsStreet, IsNameOf, FormatConcentric;
    if MatchRadialConcentric(s).Some? {
      var (r, street) := MatchRadialConcentric(s).value;
      RadialConcentricPieces(s, r, street);
      ScannerDecidesRadialConcentric(s, r, street);
      ReadsTheTimeIff(r, m.hour, m.minute);
      if m.Intersection? {
        NamesTheStreet(street, m.street);
      }
    }
    forall r, street | MatchesRadialConcentric(s, r, street)
      ensures MatchRadialConcentric(s) == Some((r, street))
    {
      ScannerDecidesRadialConcentric(s, r, street);
    }
  }

  lemma SecondPatternIff(s: string, m: Meaning)
    ensures ParseConcentricRadial(s) == Some(m) <==> m.Intersection? && !m.radialFirst && Means(s, m)
  {
    hide MatchConcentricRadial, MatchesConcentricRadial, ReadRadial, IsTime, IsStreet, IsNameOf, FormatConcentric;
    if MatchConcentricRadial(s).Some? {
      var (street, r) := MatchConcentricRadial(s).value;
      ConcentricRadialPieces(s, street, r);
      ScannerDecidesConcentricRadial(s, street, r);
      ReadsTheTimeIff(r, m.hour, m.minute);
      if m.Intersection? {
        NamesTheStreet(street, m.street);
      }
    }
    forall r, street | MatchesConcentricRadial(s, street, r)
      ensures MatchConcentricRadial(s) == Some((street, r))
    {
      ScannerDecidesConcentricRadial(s, street, r);
    }
  }

  lemma ThirdPatternIff(s: string, m: Meaning)
    ensures ParseRadialDistance(s) == Some(m) <==> m.Playa? && Means(s, m)
  {
    hide MatchRadialDistance, MatchesRadialDistance, ReadRadial, IsTime, ReadDistance, IsFeet;
    if MatchRadialDistance(s).Some? {
      var (r, digits, unit) := MatchRadialDistance(s).value;
      RadialDistancePieces(s, r, digits, unit);
      ScannerDecidesRadialDistance(s, r, digits, unit);
      ReadsTheTimeIff(r, m.hour, m.minute);
      if m.Playa? {
        ReadsTheFeetIff(digits, unit, m.feet);
      }
    }
    forall r, digits, unit | MatchesRadialDistance(s, r, digits, unit)
      ensures MatchRadialDistance(s) == Some((r, digits, unit))
    {
      ScannerDecidesRadialDistance(s, r, digits, unit);
    }
  }

  /** An address parses exactly when, trimmed, it fits one of the patterns with a time of the clock and, out on
      the playa, a distance; and then to what the pieces say. */
  lemma ParsesIff(address: string, m: Meaning)
    ensures Parse(address) == Some(m) <==> Means(TrimSpace(address), m)
  {
    var s := TrimSpace(address);
    PatternsAreDisjoint(s);
    FirstPatternIff(s, m);
    SecondPatternIff(s, m);
    ThirdPatternIff(s, m);
    OnePatternParses(s);
    hide ParseRadialConcentric, ParseConcentricRadial, ParseRadialDistance, Means, TrimSpace, MatchRadialConcentric,
           MatchConcentricRadial, MatchRadialDistance, Sensible;
  }

  lemma OnePatternParses(s: string)
    ensures ParseRadialConcentric(s).Some? ==> ParseConcentricRadial(s).None? && ParseRadialDistance(s).None?
    ensures ParseConcentricRadial(s).Some? ==> ParseRadialDistance(s).None?
  {
    PatternsAreDisjoint(s);
    hide MatchRadialConcentric, MatchConcentricRadial, MatchRadialDistance, ReadRadial, ReadDistance;
  }
}
