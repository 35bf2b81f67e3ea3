/** The text of an Incident's change-log entry, and when it tells the changes (api/incident.go, api/reportentry.go). */
module ChangeText {
  import opened Base
  import opened EditProtocol
  import opened Changes
  import opened Incident
  import opened ReportEntries
  import Address

  // ----- One line -----

  /** The name a change log gives a field. */
  function FieldName(f: Field): (name: string)
    ensures ':' !in name && '\n' !in name
  {
    match f
    case Priority => "priority"
    case IncidentState => "state"
    case StartTime => "start time"
    case Summary => "summary"
    case LocationName => "location name"
    case LocationAddress => "location address"
    case LocationDescription => "location description"
    case _ => ""
  }

  function NamedField(name: string): Option<Field> {
    if name == "priority" then Some(Priority)
    else if name == "state" then Some(IncidentState)
    else if name == "start time" then Some(StartTime)
    else if name == "summary" then Some(Summary)
    else if name == "location name" then Some(LocationName)
    else if name == "location address" then Some(LocationAddress)
    else if name == "location description" then Some(LocationDescription)
    else None
  }

  lemma NamesAreRead(f: Field)
    requires f in INCIDENT_FIELDS
    ensures NamedField(FieldName(f)) == Some(f)
  {
  }

  /** A change as it is printed: its field and the text of its value. */
  datatype Shown = Shown(field: Field, value: string)

  const CHANGED := "Changed "
  const COLON := ": "

  function Line(c: Shown): string {
    CHANGED + (FieldName(c.field) + (COLON + c.value))
  }

  /** What stands before the first colon. */
  function Head(s: string): string {
    if s == "" || s[0] == ':' then "" else [s[0]] + Head(s[1..])
  }

  lemma {:induction false} HeadOf(a: string, b: string)
    requires ':' !in a
    ensures Head(a + (COLON + b)) == a
  {
    if a == "" {
      assert a + (COLON + b) == COLON + b;
    } else {
      HeadOf(a[1..], b);
      assert (a + (COLON + b))[1..] == a[1..] + (COLON + b);
    }
  }

  /** Reading a line back. */
  function ReadLine(line: string): Option<Shown> {
    if !(CHANGED <= line) then None
    else
      var rest := line[|CHANGED|..];
      var name := Head(rest);
      if |rest| < |name| + 2 then None
      else match NamedField(name)
        case None => None
        case Some(f) => Some(Shown(f, rest[|name| + 2..]))
  }

  lemma LineIsRead(c: Shown)
    requires c.field in INCIDENT_FIELDS
    ensures ReadLine(Line(c)) == Some(c)
  {
    var name := FieldName(c.field);
    var rest := name + (COLON + c.value);
    assert Line(c)[|CHANGED|..] == rest;
    HeadOf(name, c.value);
    NamesAreRead(c.field);
    assert rest[|name| + 2..] == c.value;
    hide FieldName, NamedField, Head;
  }

  lemma LineHasNewlineIff(c: Shown)
    ensures '\n' in Line(c) <==> '\n' in c.value
  {
    var name := FieldName(c.field);
    hide FieldName;
    assert forall i :: 0 <= i < |CHANGED| ==> CHANGED[i] != '\n';
    assert forall i :: 0 <= i < |COLON| ==> COLON[i] != '\n';
  }

  // ----- The entry -----

  function AllLines(cs: seq<Shown>): (lines: seq<string>)
    ensures |lines| == |cs| && forall i :: 0 <= i < |cs| ==> lines[i] == Line(cs[i])
  {
    seq(|cs|, i requires 0 <= i < |cs| => Line(cs[i]))
  }

  function EntryText(cs: seq<Shown>): string {
    Join(AllLines(cs))
  }

  function ReadAll(lines: seq<string>): (cs: seq<Option<Shown>>)
    ensures |cs| == |lines| && forall i :: 0 <= i < |lines| ==> cs[i] == ReadLine(lines[i])
  {
    seq(|lines|, i requires 0 <= i < |lines| => ReadLine(lines[i]))
  }

  /** Reading an entry line by line. */
  function ReadEntry(text: string): seq<Option<Shown>> {
    ReadAll(Split(text))
  }

  ghost predicate IsReadAs(text: string, cs: seq<Shown>) {
    |ReadEntry(text)| == |cs| && forall i :: 0 <= i < |cs| ==> ReadEntry(text)[i] == Some(cs[i])
  }

  ghost predicate NoNewlines(cs: seq<Shown>) {
    forall i :: 0 <= i < |cs| ==> '\n' !in cs[i].value
  }

  ghost predicate OfIncident(cs: seq<Shown>) {
    forall i :: 0 <= i < |cs| ==> cs[i].field in INCIDENT_FIELDS
  }

  /** Reading an entry line by line gives its changes back if and only if it has some and no value holds a
      newline. */
  lemma EntryIsReadBackIff(cs: seq<Shown>)
    requires OfIncident(cs)
    ensures IsReadAs(EntryText(cs), cs) <==> cs != [] && NoNewlines(cs)
  {
    var lines := AllLines(cs);
    hide ReadLine, Line, INCIDENT_FIELDS, Join;
    if cs != [] && NoNewlines(cs) {
      forall i | 0 <= i < |cs| ensures '\n' !in lines[i] && ReadLine(lines[i]) == Some(cs[i]) {
        LineHasNewlineIff(cs[i]);
        LineIsRead(cs[i]);
      }
      SplitJoin(lines);
    }
    if IsReadAs(EntryText(cs), cs) {
      forall i | 0 <= i < |cs| ensures '\n' !in cs[i].value {
        assert ReadEntry(EntryText(cs))[i] == ReadLine(Split(EntryText(cs))[i]);
        ReadValueIsInLine(Split(EntryText(cs))[i]);
      }
    }
  }

  lemma ReadValueIsInLine(line: string)
    requires ReadLine(line).Some? && '\n' !in line
    ensures '\n' !in ReadLine(line).value.value
  {
    hide NamedField, Head;
  }

  // ----- The changes behind the text -----

  function Digits(n: int): string {
    if n < 0 then "-" + Address.Decimal(-n) else Address.Decimal(n)
  }

  /** A value's text; `clock` prints a time, to the second. */
  function ValueText(v: Value, clock: int -> string): string {
    match v
    case Number(n) => Digits(n)
    case Text(s) => s
    case Seconds(t) => clock(t)
  }

  function Show(c: Change, clock: int -> string): Shown {
    Shown(c.field, ValueText(c.value, clock))
  }

  function ShowAll(logs: seq<Change>, clock: int -> string): (cs: seq<Shown>)
    ensures |cs| == |logs| && forall i :: 0 <= i < |logs| ==> cs[i] == Show(logs[i], clock)
  {
    seq(|logs|, i requires 0 <= i < |logs| => Show(logs[i], clock))
  }

  /** Every field logs one kind of value. */
  predicate WellTyped(c: Change) {
    c.field in INCIDENT_FIELDS &&
    match c.field
    case Priority => c.value.Number?
    case StartTime => c.value.Seconds?
    case _ => c.value.Text?
  }

  ghost predicate AllWellTyped(logs: seq<Change>) {
    forall i :: 0 <= i < |logs| ==> WellTyped(logs[i])
  }

  lemma AddLineStaysWellTyped(logs: seq<Change>, p: IncidentPatch, field: Field)
    requires AllWellTyped(logs) && field in INCIDENT_FIELDS
    ensures AllWellTyped(AddLine(logs, LineFor(p, field)))
  {
    hide ParseState, StateName;
  }

  lemma LogsAreWellTyped(p: IncidentPatch)
    ensures AllWellTyped(Lines(p))
  {
    var l0: seq<Change> := [];
    assert AllWellTyped(l0);
    hide AllWellTyped, LineFor, AddLine;
    AddLineStaysWellTyped(l0, p, Priority);
    var l1 := AddLine(l0, LineFor(p, Priority));
    AddLineStaysWellTyped(l1, p, IncidentState);
    var l2 := AddLine(l1, LineFor(p, IncidentState));
    AddLineStaysWellTyped(l2, p, StartTime);
    var l3 := AddLine(l2, LineFor(p, StartTime));
    AddLineStaysWellTyped(l3, p, Summary);
    var l4 := AddLine(l3, LineFor(p, Summary));
    AddLineStaysWellTyped(l4, p, LocationName);
    var l5 := AddLine(l4, LineFor(p, LocationName));
    AddLineStaysWellTyped(l5, p, LocationAddress);
    var l6 := AddLine(l5, LineFor(p, LocationAddress));
    AddLineStaysWellTyped(l6, p, LocationDescription);
    assert Lines(p) == AddLine(l6, LineFor(p, LocationDescription));
  }

  lemma DigitsDiffer(m: int, n: int)
    requires Digits(m) == Digits(n)
    ensures m == n
  {
    MinusIff(m);
    MinusIff(n);
    if m < 0 && n < 0 {
      assert Digits(m)[1..] == Address.Decimal(-m) && Digits(n)[1..] == Address.Decimal(-n);
      DecimalsDiffer(-m, -n);
    } else if m >= 0 && n >= 0 {
      DecimalsDiffer(m, n);
    }
  }

  lemma MinusIff(n: int)
    ensures Digits(n) != "" && (Digits(n)[0] == '-' <==> n < 0)
  {
  }

  lemma DecimalsDiffer(m: nat, n: nat)
    requires Address.Decimal(m) == Address.Decimal(n)
    ensures m == n
  {
    Address.NumberOfDecimal(m);
    Address.NumberOfDecimal(n);
    hide Address.Decimal, Address.Number;
  }

  /** A clock that prints different seconds differently. */
  ghost predicate TellsTimes(clock: int -> string) {
    forall t, u :: clock(t) == clock(u) ==> t == u
  }

  lemma ShownChangesDiffer(a: Change, b: Change, clock: int -> string)
    requires WellTyped(a) && WellTyped(b) && TellsTimes(clock) && Show(a, clock) == Show(b, clock)
    ensures a == b
  {
    hide INCIDENT_FIELDS;
    if a.value.Number? {
      DigitsDiffer(a.value.number, b.value.number);
    }
    hide Digits;
  }

  /** So two requests whose values hold no newline leave entries with the same text only if they logged
      the same changes. */
  lemma TextTellsChanges(p: IncidentPatch, q: IncidentPatch, clock: int -> string)
    requires TellsTimes(clock)
    requires NoNewlines(ShowAll(Lines(p), clock)) && NoNewlines(ShowAll(Lines(q), clock))
    requires Lines(p) != [] && Lines(q) != []
    requires EntryText(ShowAll(Lines(p), clock)) == EntryText(ShowAll(Lines(q), clock))
    ensures Lines(p) == Lines(q)
  {
    var a, b := ShowAll(Lines(p), clock), ShowAll(Lines(q), clock);
    LogsAreWellTyped(p);
    LogsAreWellTyped(q);
    hide Lines, EntryText, ReadEntry, INCIDENT_FIELDS, ValueText;
    EntryIsReadBackIff(a);
    EntryIsReadBackIff(b);
    assert |a| == |b|;
    forall i | 0 <= i < |a| ensures Lines(p)[i] == Lines(q)[i] {
      assert Some(a[i]) == Some(b[i]);
      ShownChangesDiffer(Lines(p)[i], Lines(q)[i], clock);
    }
  }
}
