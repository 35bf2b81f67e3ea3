/** Visits as records of the edit protocol (api/visit.go). */
module Visit {
  import opened Base
  import opened Retry
  import opened EditProtocol
  import opened EditProofs
  import opened EditAudit
  import opened EditTheorems
  import opened Changes
  import EditAlone
  import EditAnswers
  import EditHistory
  import Normalize

  /** The text columns, in the order the merge visits them: before the arrival time, between the two
      times, and after the departure time. */
  const GUEST_TEXTS: seq<Field> :=
    [GuestPreferredName, GuestLegalName, GuestDescription, GuestActionPlan, ResourceBedID,
     GuestCampName, GuestCampAddress, GuestCampDescription, GuestCampContacts, ResourceSitter]
  const ARRIVAL_TEXTS: seq<Field> := [ArrivalMethod, ArrivalState, ArrivalReason, ArrivalBelongings]
  const DEPARTURE_TEXTS: seq<Field> :=
    [DepartureMethod, DepartureState, ResourceRest, ResourceClothes, ResourcePogs, ResourceFoodBev, ResourceOther]

  /** A text column missing from the map is NULL. */
  datatype VisitRow = VisitRow(
    incident: Option<int>, texts: map<Field, NullText>, arrival: Option<Time>, departure: Option<Time>)

  /** An edit body. A time given as None is the zero time, which clears the column; a nonpositive
      incident number unassigns the Visit. */
  datatype VisitPatch = VisitPatch(
    incident: Option<int>, texts: map<Field, string>,
    arrival: Option<Option<Time>>, departure: Option<Option<Time>>, normalizeAddresses: bool)

  function TextAt(texts: map<Field, NullText>, field: Field): NullText {
    if field in texts then texts[field] else None
  }

  /** The value a request gives a text column, with camp addresses normalized on request. */
  function PatchText(p: VisitPatch, field: Field): Option<string> {
    var given := if field in p.texts then Some(p.texts[field]) else None;
    if field == GuestCampAddress then NormalizedAddress(given, p.normalizeAddresses) else given
  }

  function MergedTexts(texts: map<Field, NullText>, p: VisitPatch, fields: seq<Field>): map<Field, NullText> {
    if fields == [] then texts
    else
      var n := |fields| - 1;
      var before := MergedTexts(texts, p, fields[..n]);
      if PatchText(p, fields[n]).Some? then before[fields[n] := StringToSql(PatchText(p, fields[n]).value)] else before
  }

  function TextLines(logs: seq<Change>, p: VisitPatch, fields: seq<Field>): seq<Change> {
    if fields == [] then logs
    else
      var n := |fields| - 1;
      AddLine(TextLines(logs, p, fields[..n]), TextLine(fields[n], PatchText(p, fields[n])))
  }

  function TimeValue(t: Option<Time>): Value {
    match t
    case Some(ns) => Seconds(ns / SECOND)
    case None => Text("(cleared)")
  }

  function IncidentValue(n: Option<int>): Value {
    match n
    case Some(i) => Number(i)
    case None => Text("(unassigned)")
  }

  function Assigned(n: int): Option<int> {
    if n > 0 then Some(n) else None
  }

  function TimeLine(field: Field, t: Option<Option<Time>>): Option<Change> {
    match t
    case Some(v) => Some(Change(field, TimeValue(v)))
    case None => None
  }

  function IncidentLine(p: VisitPatch): Option<Change> {
    match p.incident
    case Some(n) => Some(Change(IncidentNumber, IncidentValue(Assigned(n))))
    case None => None
  }

  function Merged(stored: VisitRow, p: VisitPatch): VisitRow {
    VisitRow(
      match p.incident case Some(n) => Assigned(n) case None => stored.incident,
      MergedTexts(MergedTexts(MergedTexts(stored.texts, p, GUEST_TEXTS), p, ARRIVAL_TEXTS), p, DEPARTURE_TEXTS),
      p.arrival.GetOr(stored.arrival),
      p.departure.GetOr(stored.departure))
  }

  /** The change log of a request, for given stretches of text columns. */
  function LinesOver(p: VisitPatch, guest: seq<Field>, arrival: seq<Field>, departure: seq<Field>): seq<Change> {
    var l1 := AddLine([], IncidentLine(p));
    var l2 := TextLines(l1, p, guest);
    var l3 := AddLine(l2, TimeLine(ArrivalTime, p.arrival));
    var l4 := TextLines(l3, p, arrival);
    var l5 := AddLine(l4, TimeLine(DepartureTime, p.departure));
    TextLines(l5, p, departure)
  }

  function Lines(p: VisitPatch): seq<Change> {
    LinesOver(p, GUEST_TEXTS, ARRIVAL_TEXTS, DEPARTURE_TEXTS)
  }

  /** A Visit does not end before it begins. */
  predicate TimesOrdered(row: VisitRow) {
    row.arrival.Some? && row.departure.Some? ==> row.arrival.value <= row.departure.value
  }

  const VISIT_KIND: Kind<VisitRow, VisitPatch> :=
    Kind((stored, p, _) => if TimesOrdered(Merged(stored, p)) then Merge(Merged(stored, p), Lines(p))
        else Reject(BadRequest),
         _ => false)

  /** One run of `applyStringChange` calls over a stretch of the text columns. */
  method ApplyStringChanges(texts: map<Field, NullText>, p: VisitPatch, fields: seq<Field>, logs: seq<Change>)
    returns (texts': map<Field, NullText>, logs': seq<Change>)
    ensures texts' == MergedTexts(texts, p, fields) && logs' == TextLines(logs, p, fields)
  {
    texts', logs' := texts, logs;
    for k := 0 to |fields|
      invariant texts' == MergedTexts(texts, p, fields[..k]) && logs' == TextLines(logs, p, fields[..k])
    {
      assert fields[..k + 1][..k] == fields[..k];
      var newVal := PatchText(p, fields[k]);
      if newVal.Some? {
        var text;
        text, logs' := ApplyStringChange(TextAt(texts', fields[k]), newVal, fields[k], logs');
        texts' := texts'[fields[k] := text];
      }
    }
    assert fields[..|fields|] == fields;
  }

  predicate IsText(field: Field) {
    field in GUEST_TEXTS || field in ARRIVAL_TEXTS || field in DEPARTURE_TEXTS
  }

  lemma {:induction false} MergedTextsSetEach(texts: map<Field, NullText>, p: VisitPatch, fields: seq<Field>, f: Field)
    ensures TextAt(MergedTexts(texts, p, fields), f)
         == if f in fields then Overwrite(TextAt(texts, f), PatchText(p, f)) else TextAt(texts, f)
  {
    if fields != [] {
      var n := |fields| - 1;
      MergedTextsSetEach(texts, p, fields[..n], f);
      assert fields == fields[..n] + [fields[n]];
    }
  }

  /** Each text column has what the body gives for it, a camp address in canonical form if that is asked for,
      and is as stored where the body gives nothing. */
  ghost predicate TextsAsAsked(stored: map<Field, NullText>, p: VisitPatch, texts: map<Field, NullText>) {
    forall f :: IsText(f) ==>
      && (f !in p.texts ==> TextAt(texts, f) == TextAt(stored, f))
      && (f in p.texts && !(f == GuestCampAddress && p.normalizeAddresses) ==> TextOf(TextAt(texts, f)) == p.texts[f])
      && (f in p.texts && f == GuestCampAddress && p.normalizeAddresses ==>
            TextOf(TextAt(texts, f)) == Normalize.NormalizeAddress(p.texts[f]))
  }

  ghost predicate AsAsked(stored: VisitRow, p: VisitPatch, row: VisitRow) {
    && TextsAsAsked(stored.texts, p, row.texts)
    && (p.arrival.Some? ==> row.arrival == p.arrival.value) && (p.arrival.None? ==> row.arrival == stored.arrival)
    && (p.departure.Some? ==> row.departure == p.departure.value)
    && (p.departure.None? ==> row.departure == stored.departure)
    && (p.incident.None? ==> row.incident == stored.incident)
    && (p.incident.Some? ==> row.incident == if p.incident.value > 0 then Some(p.incident.value) else None)
  }

  lemma MergedIsAsAsked(stored: VisitRow, p: VisitPatch)
    ensures AsAsked(stored, p, Merged(stored, p))
  {
    TextsAreAsAsked(stored, p);
    hide TextsAsAsked, MergedTexts;
  }

  lemma TextsAreAsAsked(stored: VisitRow, p: VisitPatch)
    ensures TextsAsAsked(stored.texts, p, Merged(stored, p).texts)
  {
    hide Normalize.NormalizeAddress;
    forall f | IsText(f)
      ensures TextAt(Merged(stored, p).texts, f) == Overwrite(TextAt(stored.texts, f), PatchText(p, f))
    {
      MergedTextIs(stored, p, f);
    }
    hide IsText, Merged;
  }

  lemma MergedTextIs(stored: VisitRow, p: VisitPatch, f: Field)
    requires IsText(f)
    ensures TextAt(Merged(stored, p).texts, f) == Overwrite(TextAt(stored.texts, f), PatchText(p, f))
  {
    hide MergedTexts, PatchText;
    var guest := MergedTexts(stored.texts, p, GUEST_TEXTS);
    var arrival := MergedTexts(guest, p, ARRIVAL_TEXTS);
    MergedTextsSetEach(stored.texts, p, GUEST_TEXTS, f);
    MergedTextsSetEach(guest, p, ARRIVAL_TEXTS, f);
    MergedTextsSetEach(arrival, p, DEPARTURE_TEXTS, f);
  }

  /** The two ways to refuse a request. */
  datatype Complaint = ArrivalAfterDeparture | DepartureBeforeArrival

  /** Why a request is refused, if it is: the complaint names the end of the Visit the request moved. */
  function ComplaintOf(merged: VisitRow, p: VisitPatch): Option<Complaint> {
    if TimesOrdered(merged) then None
    else if p.departure.None? then Some(ArrivalAfterDeparture)
    else Some(DepartureBeforeArrival)
  }

  /** `buildVisitUpdate`: both times are applied before the pair is checked. */
  method BuildVisitUpdate(stored: VisitRow, p: VisitPatch)
    returns (update: VisitRow, logs: seq<Change>, error: Option<Complaint>)
    ensures error == ComplaintOf(Merged(stored, p), p)
    ensures var arrival, departure := p.arrival.GetOr(stored.arrival), p.departure.GetOr(stored.departure);
            && (error.Some? <==> arrival.Some? && departure.Some? && departure.value < arrival.value)
            && (error == Some(DepartureBeforeArrival) ==> p.departure.Some?)
            && (error == Some(ArrivalAfterDeparture) ==> p.departure.None?)
    ensures error.None? ==> update == Merged(stored, p) && logs == Lines(p) && AsAsked(stored, p, update)
    ensures error.Some? ==> logs == []
  {
    MergedIsAsAsked(stored, p);
    hide AsAsked, MergedTexts, TextLines, StringToSql;
    update, logs, error := stored, [], None;
    if p.incident.Some? {
      update := update.(incident := if p.incident.value > 0 then Some(p.incident.value) else None);
      logs := logs + [Change(IncidentNumber, IncidentValue(update.incident))];
    }
    assert logs == AddLine([], IncidentLine(p));
    var texts;
    texts, logs := ApplyStringChanges(update.texts, p, GUEST_TEXTS, logs);
    update := update.(texts := texts);
    ghost var logged := logs;
    if p.arrival.Some? {
      update := update.(arrival := p.arrival.value);
      logs := logs + [Change(ArrivalTime, TimeValue(p.arrival.value))];
    }
    assert logs == AddLine(logged, TimeLine(ArrivalTime, p.arrival));
    texts, logs := ApplyStringChanges(update.texts, p, ARRIVAL_TEXTS, logs);
    update := update.(texts := texts);
    logged := logs;
    if p.departure.Some? {
      update := update.(departure := p.departure.value);
      logs := logs + [Change(DepartureTime, TimeValue(p.departure.value))];
    }
    assert logs == AddLine(logged, TimeLine(DepartureTime, p.departure));
    ghost var merged := Merged(stored, p);
    assert merged.arrival == update.arrival && merged.departure == update.departure &&
        merged.incident == update.incident;
    if update.arrival.Some? && update.departure.Some? && update.departure.value < update.arrival.value {
      var msg := DepartureBeforeArrival;
      if p.departure.None? {
        msg := ArrivalAfterDeparture;
      }
      return update, [], Some(msg);
    }
    hide AddLine, IncidentLine, TimeLine;
    texts, logs := ApplyStringChanges(update.texts, p, DEPARTURE_TEXTS, logs);
    update := update.(texts := texts);
  }

  // ----- The audit law -----

  const VISIT_FIELDS: set<Field> := set f: Field | IsText(f) || f in {IncidentNumber, ArrivalTime, DepartureTime}

  function Show(row: VisitRow, field: Field): Value {
    if field == IncidentNumber then IncidentValue(row.incident)
    else if field == ArrivalTime then TimeValue(row.arrival)
    else if field == DepartureTime then TimeValue(row.departure)
    else Text(TextOf(TextAt(row.texts, field)))
  }

  /** The value a request sets a field to, if it does: read off its body. */
  function SetTo(p: VisitPatch, field: Field): Option<Value> {
    if field == IncidentNumber then
      if p.incident.None? then None
      else Some(if p.incident.value > 0 then Number(p.incident.value) else Text("(unassigned)"))
    else if field == ArrivalTime then (match p.arrival case Some(t) => Some(TimeValue(t)) case None => None)
    else if field == DepartureTime then (match p.departure case Some(t) => Some(TimeValue(t)) case None => None)
    else if field !in p.texts then None
    else if field == GuestCampAddress && p.normalizeAddresses then
      Some(Text(Normalize.NormalizeAddress(p.texts[GuestCampAddress])))
    else Some(Text(p.texts[field]))
  }

  lemma SetToIsTheText(p: VisitPatch, field: Field)
    requires field !in {IncidentNumber, ArrivalTime, DepartureTime}
    ensures SetTo(p, field) == match PatchText(p, field) case Some(s) => Some(Text(s)) case None => None
  {
    hide Normalize.NormalizeAddress;
  }

  lemma {:induction false} TextLinesSayEach(logs: seq<Change>, p: VisitPatch, fields: seq<Field>, f: Field,
      stored: Value)
    ensures LoggedValue(TextLines(logs, p, fields), f, stored)
         == if f in fields && PatchText(p, f).Some? then Text(PatchText(p, f).value) else LoggedValue(logs, f, stored)
  {
    if fields != [] {
      var n := |fields| - 1;
      TextLinesSayEach(logs, p, fields[..n], f, stored);
      LoggedLine(TextLines(logs, p, fields[..n]), TextLine(fields[n], PatchText(p, fields[n])), f, stored);
      assert fields == fields[..n] + [fields[n]];
    }
  }

  /** Which line, if any, has the last word on a field. */
  lemma LinesOverSayEachField(
    p: VisitPatch, guest: seq<Field>, arrival: seq<Field>, departure: seq<Field>, f: Field, stored: Value)
    requires forall g :: g in guest || g in arrival || g in departure ==>
        g !in {IncidentNumber, ArrivalTime, DepartureTime}
    requires f in guest || f in arrival || f in departure || f in {IncidentNumber, ArrivalTime, DepartureTime}
    ensures LoggedValue(LinesOver(p, guest, arrival, departure), f, stored) == SetTo(p, f).GetOr(stored)
  {
    if f !in {IncidentNumber, ArrivalTime, DepartureTime} {
      SetToIsTheText(p, f);
    }
    assert LoggedValue([], f, stored) == stored;
    hide LoggedValue, AddLine, TextLines, PatchText, TimeValue, IncidentValue;
    var l1 := AddLine([], IncidentLine(p));
    LoggedLine([], IncidentLine(p), f, stored);
    var l2 := TextLines(l1, p, guest);
    TextLinesSayEach(l1, p, guest, f, stored);
    var l3 := AddLine(l2, TimeLine(ArrivalTime, p.arrival));
    LoggedLine(l2, TimeLine(ArrivalTime, p.arrival), f, stored);
    var l4 := TextLines(l3, p, arrival);
    TextLinesSayEach(l3, p, arrival, f, stored);
    var l5 := AddLine(l4, TimeLine(DepartureTime, p.departure));
    LoggedLine(l4, TimeLine(DepartureTime, p.departure), f, stored);
    TextLinesSayEach(l5, p, departure, f, stored);
  }

  lemma LinesSayEachField(p: VisitPatch, f: Field, stored: Value)
    requires f in VISIT_FIELDS
    ensures LoggedValue(Lines(p), f, stored) == SetTo(p, f).GetOr(stored)
  {
    hide LoggedValue, LinesOver, SetTo;
    LinesOverSayEachField(p, GUEST_TEXTS, ARRIVAL_TEXTS, DEPARTURE_TEXTS, f, stored);
  }

  lemma MergeSetsEachField(stored: VisitRow, p: VisitPatch, f: Field)
    requires f in VISIT_FIELDS
    ensures Show(Merged(stored, p), f) == SetTo(p, f).GetOr(Show(stored, f))
  {
    hide MergedTexts, PatchText, SetTo, Merged;
    if f in {IncidentNumber, ArrivalTime, DepartureTime} {
      MergeSetsNumberAndTimes(stored, p, f);
    } else {
      SetToIsTheText(p, f);
      MergedTextIs(stored, p, f);
    }
  }

  lemma MergeSetsNumberAndTimes(stored: VisitRow, p: VisitPatch, f: Field)
    requires f in {IncidentNumber, ArrivalTime, DepartureTime}
    ensures Show(Merged(stored, p), f) == SetTo(p, f).GetOr(Show(stored, f))
  {
    hide MergedTexts;
  }

  lemma VisitLaws()
    ensures Honest(VISIT_KIND) && DirectIsSilent(VISIT_KIND)
    ensures SetsWhatItLogs(VISIT_KIND, Show, VISIT_FIELDS)
  {
    hide Merged, Lines, Show;
    forall row, p, t, f | f in VISIT_FIELDS && VISIT_KIND.build(row, p, t).Merge?
      ensures MergeShows(Show, row, VISIT_KIND.build(row, p, t), f)
    {
      MergeSetsEachField(row, p, f);
      LinesSayEachField(p, f, Show(row, f));
    }
  }

  // ----- What this means for every run of edits on a Visit -----

  type Edits = System<VisitRow, VisitPatch>

  /** No run leaves a Visit that ends before it begins, even when requests move one end each. */
  lemma VisitTimesStayOrdered(init: Versioned<VisitRow>, run: seq<Action<VisitPatch>>, s: Edits)
    requires Reaches(VISIT_KIND, init, run, s) && s.row.Some?
    requires init.data.arrival.Some? && init.data.departure.Some? ==>
               init.data.arrival.value <= init.data.departure.value
    ensures var row := s.row.value.data;
            row.arrival.Some? && row.departure.Some? ==> row.arrival.value <= row.departure.value
  {
    VisitLaws();
    hide Merged, Lines;
    RowInvariant(VISIT_KIND, init, run, s, TimesOrdered);
  }

  /** Each committed request was checked against the row it was merged into: the pair of times it
      left behind is its own where it set one, and the stored one otherwise. */
  lemma EachCommitWasCheckedOnTheStoredPair(
    init: Versioned<VisitRow>, run: seq<Action<VisitPatch>>, s: Edits, i: nat)
    requires Reaches(VISIT_KIND, init, run, s) && i < |s.commits|
    ensures var before := Serial(VISIT_KIND, init.data, s.commits, i);
            var after := Serial(VISIT_KIND, init.data, s.commits, i + 1);
            && after.arrival == s.commits[i].patch.arrival.GetOr(before.arrival)
            && after.departure == s.commits[i].patch.departure.GetOr(before.departure)
            && TimesOrdered(after)
  {
    VisitLaws();
    EditsAreSerial(VISIT_KIND, init, run, s);
    assert AcceptedAt(VISIT_KIND, init.data, s.commits, i);
  }

  /** The latest change-log entry naming a field of a Visit holds the field's stored value. */
  lemma VisitLogDeterminesRow(init: Versioned<VisitRow>, run: seq<Action<VisitPatch>>, s: Edits, field: Field, id: nat)
    requires Reaches(VISIT_KIND, init, run, s) && s.row.Some? && field in VISIT_FIELDS
    requires NamesField(s.entries, id, field)
    requires forall later :: NamesField(s.entries, later, field) ==> later <= id
    ensures Show(s.row.value.data, field) == LastValue(s.entries[id].changes, field)
  {
    VisitLaws();
    hide Show, LastValue;
    AuditDeterminesRow(VISIT_KIND, init, run, s, Show, VISIT_FIELDS, field, id);
  }

  // ----- No edit of a Visit is lost -----

  lemma UnsetFieldIsUnnamed(p: VisitPatch, field: Field)
    requires SetTo(p, field).None? && field in VISIT_FIELDS
    ensures !Names(Lines(p), field)
  {
    LinesSayEachField(p, field, Number(0));
    LinesSayEachField(p, field, Number(1));
    hide Lines, SetTo;
  }

  /** An accepted edit logs what its request says and sets the fields to that. */
  lemma CommitSetsItsField(init: VisitRow, commits: seq<Commit<VisitPatch>>, field: Field, i: nat)
    requires i < |commits| && field in VISIT_FIELDS
    requires VISIT_KIND.build(Serial(VISIT_KIND, init, commits, i), commits[i].patch, commits[i].now).Merge?
    ensures LogOf(VISIT_KIND, init, commits, i) == Lines(commits[i].patch)
    ensures SetTo(commits[i].patch, field).Some? ==>
              Show(Serial(VISIT_KIND, init, commits, i + 1), field) == SetTo(commits[i].patch, field).value
  {
    MergeSetsEachField(Serial(VISIT_KIND, init, commits, i), commits[i].patch, field);
    hide Show, SetTo, Lines, Merged, TimesOrdered;
  }

  /** A field holds what the last committed request setting it asked for, whatever requests on other
      fields ran or committed meanwhile. */
  lemma LastEditOfAFieldWins(init: Versioned<VisitRow>, run: seq<Action<VisitPatch>>, s: Edits, field: Field, i: nat)
    requires Reaches(VISIT_KIND, init, run, s) && s.row.Some? && field in VISIT_FIELDS
    requires i < |s.commits| && SetTo(s.commits[i].patch, field).Some?
    requires forall j :: i < j < |s.commits| ==> SetTo(s.commits[j].patch, field).None?
    ensures Show(s.row.value.data, field) == SetTo(s.commits[i].patch, field).value
  {
    hide Reaches, Show, SetTo, Lines, Merged, Serial, LogOf, SetsWhatItLogs, Honest, DirectIsSilent, VISIT_FIELDS,
           VISIT_KIND;
    VisitLaws();
    EditsAreSerial(VISIT_KIND, init, run, s);
    forall j | i <= j < |s.commits|
      ensures LogOf(VISIT_KIND, init.data, s.commits, j) == Lines(s.commits[j].patch)
      ensures i < j ==> !Names(LogOf(VISIT_KIND, init.data, s.commits, j), field)
    {
      assert AcceptedAt(VISIT_KIND, init.data, s.commits, j);
      CommitSetsItsField(init.data, s.commits, field, j);
      if i < j {
        UnsetFieldIsUnnamed(s.commits[j].patch, field);
      }
    }
    assert AcceptedAt(VISIT_KIND, init.data, s.commits, i);
    CommitSetsItsField(init.data, s.commits, field, i);
    UntouchedFieldStays(VISIT_KIND, init.data, s.commits, Show, VISIT_FIELDS, field, i + 1, |s.commits|);
  }

  // ----- Success and refusal -----

  ghost predicate AsksForSomething(p: VisitPatch) {
    || p.incident.Some? || p.arrival.Some? || p.departure.Some?
    || exists f :: IsText(f) && f in p.texts
  }

  lemma SetIsLogged(p: VisitPatch, field: Field)
    requires SetTo(p, field).Some? && field in VISIT_FIELDS
    ensures Lines(p) != []
  {
    assert LoggedValue([], field, Number(0)) == Number(0) && LoggedValue([], field, Number(1)) == Number(1);
    hide Lines, SetTo, LoggedValue;
    LinesSayEachField(p, field, Number(0));
    LinesSayEachField(p, field, Number(1));
  }

  lemma TextIsSet(p: VisitPatch, f: Field)
    requires IsText(f) && f in p.texts
    ensures SetTo(p, f).Some? && f in VISIT_FIELDS
  {
    assert f in VISIT_FIELDS;
    hide VISIT_FIELDS, Normalize.NormalizeAddress;
    assert f !in {IncidentNumber, ArrivalTime, DepartureTime};
    hide IsText;
  }

  lemma AskingIsLogged(p: VisitPatch)
    requires AsksForSomething(p)
    ensures Lines(p) != []
  {
    hide Lines, Normalize.NormalizeAddress, IsText;
    if p.incident.Some? {
      SetIsLogged(p, IncidentNumber);
    } else if p.arrival.Some? {
      SetIsLogged(p, ArrivalTime);
    } else if p.departure.Some? {
      SetIsLogged(p, DepartureTime);
    } else {
      var f :| IsText(f) && f in p.texts;
      TextIsSet(p, f);
      SetIsLogged(p, f);
    }
  }

  lemma MergesLogWhatIsAsked(p: VisitPatch)
    requires AsksForSomething(p)
    ensures forall row, now :: VISIT_KIND.build(row, p, now).Merge? ==> VISIT_KIND.build(row, p, now).changes != []
  {
    AskingIsLogged(p);
    hide Lines, Merged, TimesOrdered, AsksForSomething;
  }

  /** A request that asks for something and was told of success has committed its own patch. */
  lemma SuccessMeansCommitted(init: Versioned<VisitRow>, run: seq<Action<VisitPatch>>, s: Edits, c: ReqId)
    requires Reaches(VISIT_KIND, init, run, s) && EditHistory.ToldDone(s, c) && AsksForSomething(s.clients[c].patch)
    ensures EditAnswers.CommittedBy(s.commits, c, s.clients[c].patch)
  {
    VisitLaws();
    MergesLogWhatIsAsked(s.clients[c].patch);
    hide VISIT_KIND, Lines, Merged, TimesOrdered, AsksForSomething, Reaches, EditAnswers.CommittedBy;
    EditAnswers.SuccessMeansCommitted(VISIT_KIND, init, run, s, c);
  }

  /** A 400 comes of a statement that failed, or of a stored Visit that the request would have made end before
      it begins. */
  lemma RefusedForItsTimes(init: Versioned<VisitRow>, run: seq<Action<VisitPatch>>, s: Edits, c: ReqId)
    requires Reaches(VISIT_KIND, init, run, s) && c in s.clients && s.clients[c].progress == Answered(BadRequest)
    requires !EditAnswers.StatementFailed(run, c, BadRequest)
    ensures exists n: nat :: s.clients[c].since <= n <= |s.commits| &&
              var stored := Serial(VISIT_KIND, init.data, s.commits, n);
              !TimesOrdered(stored.(arrival := s.clients[c].patch.arrival.GetOr(stored.arrival),
                                    departure := s.clients[c].patch.departure.GetOr(stored.departure)))
  {
    VisitLaws();
    hide Reaches, EditAnswers.StatementFailed, MergedTexts, Lines;
    EditAnswers.AnswersAreDeserved(VISIT_KIND, init, run, s, c);
    var cl := s.clients[c];
    assert EditAnswers.Refuses(VISIT_KIND, init.data, s.commits, cl.since, cl.patch, BadRequest);
    var n: nat, now :| cl.since <= n <= |s.commits|
      && EditAnswers.BuildAt(VISIT_KIND, init.data, s.commits, n, cl.patch, now) == Reject(BadRequest);
    assert !TimesOrdered(Merged(Serial(VISIT_KIND, init.data, s.commits, n), cl.patch));
  }

  /** A request that meets no other and leaves the times in order is told of success, and the row then has
      what it asks for. */
  lemma EditAloneSetsWhatIsAsked(s: Edits, c: ReqId, p: VisitPatch, notes: seq<string>, now: Time) returns (t: Edits)
    requires c !in s.clients && s.row.Some? && s.lock == None && AsksForSomething(p)
    requires var stored := s.row.value.data;
             TimesOrdered(stored.(arrival := p.arrival.GetOr(stored.arrival),
                                  departure := p.departure.GetOr(stored.departure)))
    ensures Legal(VISIT_KIND, s, EditAlone.Alone(c, p, notes, now, Lines(p)))
    ensures After(VISIT_KIND, s, EditAlone.Alone(c, p, notes, now, Lines(p))) == t
    ensures EditHistory.ToldDone(t, c) && t.published == s.published + [c]
    ensures t.row.Some? && t.row.value.version == s.row.value.version + 1
    ensures AsAsked(s.row.value.data, p, t.row.value.data)
  {
    AskingIsLogged(p);
    MergedIsAsAsked(s.row.value.data, p);
    assert TimesOrdered(Merged(s.row.value.data, p)) by { hide MergedTexts; }
    hide Lines, Merged, AsAsked, AsksForSomething, Legal, After, EditHistory.ToldDone, EditAlone.Alone, Plan;
    hide AddEntries, TimesOrdered;
    t := EditAlone.AloneGetsThrough(VISIT_KIND, s, c, p, notes, now);
  }
}
