/** Incidents as records of the edit protocol (api/incident.go). */
module Incident {
  import opened Base
  import opened EditProtocol
  import opened EditProofs
  import opened EditAudit
  import opened EditTheorems
  import opened Changes
  import opened Retry
  import EditAlone
  import EditAnswers
  import EditHistory
  import Normalize

  datatype State = New | OnHold | Dispatched | OnScene | Closed

  function StateName(s: State): string {
    match s
    case New => "new"
    case OnHold => "on_hold"
    case Dispatched => "dispatched"
    case OnScene => "on_scene"
    case Closed => "closed"
  }

  /** The state a request names, if it names one. Anything else is ignored. */
  function ParseState(name: string): (r: Option<State>)
    ensures forall s :: r == Some(s) <==> name == StateName(s)
  {
    if name == "new" then Some(New)
    else if name == "on_hold" then Some(OnHold)
    else if name == "dispatched" then Some(Dispatched)
    else if name == "on_scene" then Some(OnScene)
    else if name == "closed" then Some(Closed)
    else None
  }

  lemma NoStateIff(name: string)
    ensures ParseState(name).None? <==> forall state: State :: name != StateName(state)
  {
    var parsed := ParseState(name);
    assert parsed.Some? ==> name == StateName(parsed.value);
  }

  datatype IncidentRow = IncidentRow(
    priority: int, state: State, started: Time, closed: Option<Time>, summary: NullText,
    locationName: NullText, locationAddress: NullText, locationDescription: NullText)

  /** An edit body: 0, an unknown state, or an absent value means "leave it alone". */
  datatype IncidentPatch = IncidentPatch(
    priority: int, state: string, started: Option<Time>, summary: Option<string>,
    locationName: Option<string>, locationAddress: Option<string>, locationDescription: Option<string>,
    normalizeAddresses: bool)

  /** The row a request asks for, field by field. */
  function Merged(stored: IncidentRow, p: IncidentPatch, now: Time): IncidentRow {
    IncidentRow(
      if p.priority != 0 then p.priority else stored.priority,
      ParseState(p.state).GetOr(stored.state),
      p.started.GetOr(stored.started),
      match ParseState(p.state)
      case None => stored.closed
      case Some(Closed) => Some(now)
      case Some(_) => None,
      Overwrite(stored.summary, p.summary),
      Overwrite(stored.locationName, p.locationName),
      Overwrite(stored.locationAddress, NormalizedAddress(p.locationAddress, p.normalizeAddresses)),
      Overwrite(stored.locationDescription, p.locationDescription))
  }

  /** A text column after a request that may set it. */
  ghost predicate TextAsAsked(stored: NullText, asked: Option<string>, text: NullText) {
    match asked
    case Some(given) => TextOf(text) == given
    case None => text == stored
  }

  /** Every column is what the request asks for, or as stored where it asks for nothing. Naming a state also
      sets the closing time: the clock's reading for the closed state, none for another. */
  ghost predicate AsAsked(stored: IncidentRow, p: IncidentPatch, now: Time, row: IncidentRow) {
    && row.priority == (if p.priority == 0 then stored.priority else p.priority)
    && (forall state: State :: p.state == StateName(state) ==>
          row.state == state && row.closed == if state == Closed then Some(now) else None)
    && ((forall state: State :: p.state != StateName(state)) ==>
          row.state == stored.state && row.closed == stored.closed)
    && (p.started.Some? ==> row.started == p.started.value) && (p.started.None? ==> row.started == stored.started)
    && TextAsAsked(stored.summary, p.summary, row.summary)
    && TextAsAsked(stored.locationName, p.locationName, row.locationName)
    && TextAsAsked(stored.locationDescription, p.locationDescription, row.locationDescription)
    && (p.locationAddress.None? ==> row.locationAddress == stored.locationAddress)
    && (p.locationAddress.Some? ==>
          var given := p.locationAddress.value;
          TextOf(row.locationAddress) == if p.normalizeAddresses then Normalize.NormalizeAddress(given) else given)
  }

  lemma MergedIsAsAsked(stored: IncidentRow, p: IncidentPatch, now: Time)
    ensures AsAsked(stored, p, now, Merged(stored, p, now))
  {
    NoStateIff(p.state);
    var parsed := ParseState(p.state);
    assert forall state: State :: p.state == StateName(state) ==> parsed == Some(state);
    hide StateName, Normalize.NormalizeAddress;
  }

  /** The change-log line a request leaves for a field, if it sets it. */
  function LineFor(p: IncidentPatch, field: Field): (line: Option<Change>)
    ensures line.Some? ==> line.value.field == field
  {
    match field
    case Priority => if p.priority != 0 then Some(Change(Priority, Number(p.priority))) else None
    case IncidentState =>
      (match ParseState(p.state)
       case Some(s) => Some(Change(IncidentState, Text(StateName(s))))
       case None => None)
    case StartTime =>
      (match p.started
       case Some(t) => Some(Change(StartTime, Seconds(t / SECOND)))
       case None => None)
    case Summary => TextLine(Summary, p.summary)
    case LocationName => TextLine(LocationName, p.locationName)
    case LocationAddress => TextLine(LocationAddress, NormalizedAddress(p.locationAddress, p.normalizeAddresses))
    case LocationDescription => TextLine(LocationDescription, p.locationDescription)
    case _ => None
  }

  /** The change log of a request: one line per field it sets, in this order. */
  function Lines(p: IncidentPatch): seq<Change> {
    var l1 := AddLine([], LineFor(p, Priority));
    var l2 := AddLine(l1, LineFor(p, IncidentState));
    var l3 := AddLine(l2, LineFor(p, StartTime));
    var l4 := AddLine(l3, LineFor(p, Summary));
    var l5 := AddLine(l4, LineFor(p, LocationName));
    var l6 := AddLine(l5, LineFor(p, LocationAddress));
    AddLine(l6, LineFor(p, LocationDescription))
  }

  lemma AddLineIs(logs: seq<Change>, line: Option<Change>)
    ensures line.Some? ==> AddLine(logs, line) == logs + [line.value]
    ensures line.None? ==> AddLine(logs, line) == logs
  {
  }

  /** `buildIncidentUpdate`: the update starts as the stored row and is overwritten field by field. */
  method BuildIncidentUpdate(stored: IncidentRow, p: IncidentPatch, now: Time)
    returns (update: IncidentRow, logs: seq<Change>)
    ensures update == Merged(stored, p, now) && logs == Lines(p)
    ensures AsAsked(stored, p, now, update)
  {
    MergedIsAsAsked(stored, p, now);
    hide AsAsked, Overwrite, TextLine, ParseState, NormalizedAddress, StateName, AddLine;
    update, logs := stored, [];
    if p.priority != 0 {
      update := update.(priority := p.priority);
      logs := logs + [Change(Priority, Number(update.priority))];
    }
    ghost var l1 := AddLine([], LineFor(p, Priority));
    assert logs == l1 by { AddLineIs([], LineFor(p, Priority)); }
    var newState := ParseState(p.state);
    if newState.Some? {
      update := update.(state := newState.value);
      logs := logs + [Change(IncidentState, Text(StateName(update.state)))];
      if newState.value == Closed {
        update := update.(closed := Some(now));
      } else {
        update := update.(closed := None);
      }
    }
    ghost var l2 := AddLine(l1, LineFor(p, IncidentState));
    assert logs == l2 by { AddLineIs(l1, LineFor(p, IncidentState)); }
    if p.started.Some? {
      update := update.(started := p.started.value);
      logs := logs + [Change(StartTime, Seconds(p.started.value / SECOND))];
    }
    ghost var l3 := AddLine(l2, LineFor(p, StartTime));
    assert logs == l3 by { AddLineIs(l2, LineFor(p, StartTime)); }
    ghost var merged := Merged(stored, p, now);
    assert update == stored.(priority := merged.priority, state := merged.state, started := merged.started,
        closed := merged.closed);
    var text;
    text, logs := ApplyStringChange(update.summary, p.summary, Summary, logs);
    update := update.(summary := text);
    text, logs := ApplyStringChange(update.locationName, p.locationName, LocationName, logs);
    update := update.(locationName := text);
    text, logs := ApplyStringChange(update.locationAddress, NormalizedAddress(p.locationAddress,
        p.normalizeAddresses), LocationAddress, logs);
    update := update.(locationAddress := text);
    text, logs := ApplyStringChange(update.locationDescription, p.locationDescription, LocationDescription, logs);
    update := update.(locationDescription := text);
  }

  const INCIDENT_KIND: Kind<IncidentRow, IncidentPatch> :=
    Kind((stored, p, now) => Merge(Merged(stored, p, now), Lines(p)), _ => false)

  /** A field of a row the way the change log writes it. NULL reads as the empty string. */
  function Show(row: IncidentRow, field: Field): Value {
    match field
    case Priority => Number(row.priority)
    case IncidentState => Text(StateName(row.state))
    case StartTime => Seconds(row.started / SECOND)
    case Summary => Text(TextOf(row.summary))
    case LocationName => Text(TextOf(row.locationName))
    case LocationAddress => Text(TextOf(row.locationAddress))
    case LocationDescription => Text(TextOf(row.locationDescription))
    case _ => Text("")
  }

  const INCIDENT_FIELDS: set<Field> :=
    {Priority, IncidentState, StartTime, Summary, LocationName, LocationAddress, LocationDescription}

  /** The change log's last word on a field is the request's own line for it. */
  lemma LinesSayEachField(p: IncidentPatch, field: Field, stored: Value)
    requires field in INCIDENT_FIELDS
    ensures LoggedValue(Lines(p), field, stored) ==
        match LineFor(p, field) case Some(line) => line.value case None => stored
  {
    assert LoggedValue([], field, stored) == stored;
    hide LoggedValue, AddLine, LineFor;
    var l1 := AddLine([], LineFor(p, Priority));
    LoggedLine([], LineFor(p, Priority), field, stored);
    var l2 := AddLine(l1, LineFor(p, IncidentState));
    LoggedLine(l1, LineFor(p, IncidentState), field, stored);
    var l3 := AddLine(l2, LineFor(p, StartTime));
    LoggedLine(l2, LineFor(p, StartTime), field, stored);
    var l4 := AddLine(l3, LineFor(p, Summary));
    LoggedLine(l3, LineFor(p, Summary), field, stored);
    var l5 := AddLine(l4, LineFor(p, LocationName));
    LoggedLine(l4, LineFor(p, LocationName), field, stored);
    var l6 := AddLine(l5, LineFor(p, LocationAddress));
    LoggedLine(l5, LineFor(p, LocationAddress), field, stored);
    LoggedLine(l6, LineFor(p, LocationDescription), field, stored);
  }

  /** Merging sets each field to exactly what the change log says, and nothing else. */
  lemma MergeLogsWhatItSets(stored: IncidentRow, p: IncidentPatch, now: Time, field: Field)
    requires field in INCIDENT_FIELDS
    ensures Show(Merged(stored, p, now), field) == LoggedValue(Lines(p), field, Show(stored, field))
  {
    LinesSayEachField(p, field, Show(stored, field));
    hide LoggedValue, Lines;
  }

  lemma IncidentLaws()
    ensures Honest(INCIDENT_KIND) && DirectIsSilent(INCIDENT_KIND)
    ensures SetsWhatItLogs(INCIDENT_KIND, Show, INCIDENT_FIELDS)
  {
    forall row, p, t, f | f in INCIDENT_FIELDS
      ensures MergeShows(Show, row, INCIDENT_KIND.build(row, p, t), f)
    {
      MergeLogsWhatItSets(row, p, t, f);
    }
  }

  // ----- What this means for every run of edits on an Incident -----

  type Edits = System<IncidentRow, IncidentPatch>

  /** The latest change-log entry naming a field of an Incident holds the field's stored value. */
  lemma IncidentLogDeterminesRow(
    init: Versioned<IncidentRow>, run: seq<Action<IncidentPatch>>, s: Edits, field: Field, id: nat)
    requires Reaches(INCIDENT_KIND, init, run, s) && s.row.Some? && field in INCIDENT_FIELDS
    requires NamesField(s.entries, id, field)
    requires forall later :: NamesField(s.entries, later, field) ==> later <= id
    ensures Show(s.row.value.data, field) == LastValue(s.entries[id].changes, field)
  {
    IncidentLaws();
    AuditDeterminesRow(INCIDENT_KIND, init, run, s, Show, INCIDENT_FIELDS, field, id);
  }

  /** No edit is lost: a field holds what the last committed request setting it asked for, whatever
      requests on other fields ran or committed meanwhile. */
  lemma LastEditOfAFieldWins(
    init: Versioned<IncidentRow>, run: seq<Action<IncidentPatch>>, s: Edits, field: Field, i: nat)
    requires Reaches(INCIDENT_KIND, init, run, s) && s.row.Some? && field in INCIDENT_FIELDS
    requires i < |s.commits| && LineFor(s.commits[i].patch, field).Some?
    requires forall j :: i < j < |s.commits| ==> LineFor(s.commits[j].patch, field).None?
    ensures Show(s.row.value.data, field) == LineFor(s.commits[i].patch, field).value.value
  {
    hide Reaches, Show, LineFor, Lines, Merged, Serial, LogOf, SetsWhatItLogs, Honest, DirectIsSilent, Accepted;
    IncidentLaws();
    EditsAreSerial(INCIDENT_KIND, init, run, s);
    CommitSetsItsField(init.data, s.commits, field, i);
    forall j | i < j < |s.commits| ensures !Names(LogOf(INCIDENT_KIND, init.data, s.commits, j), field) {
      LogIsTheRequests(init.data, s.commits, j);
      UnsetFieldIsUnnamed(s.commits[j].patch, field);
    }
    UntouchedFieldStays(INCIDENT_KIND, init.data, s.commits, Show, INCIDENT_FIELDS, field, i + 1, |s.commits|);
  }

  /** What an edit logs depends on its request only. */
  lemma LogIsTheRequests(init: IncidentRow, commits: seq<Commit<IncidentPatch>>, i: nat)
    requires i < |commits|
    ensures LogOf(INCIDENT_KIND, init, commits, i) == Lines(commits[i].patch)
  {
    hide Lines, Merged;
  }

  /** Right after a commit that sets a field, the row holds what its request asked for. */
  lemma CommitSetsItsField(init: IncidentRow, commits: seq<Commit<IncidentPatch>>, field: Field, i: nat)
    requires i < |commits| && field in INCIDENT_FIELDS && LineFor(commits[i].patch, field).Some?
    ensures Show(Serial(INCIDENT_KIND, init, commits, i + 1), field) == LineFor(commits[i].patch, field).value.value
  {
    var before := Serial(INCIDENT_KIND, init, commits, i);
    LinesSayEachField(commits[i].patch, field, Show(before, field));
    MergeLogsWhatItSets(before, commits[i].patch, commits[i].now, field);
    hide Show, LineFor, Lines, Merged, LoggedValue;
  }

  lemma UnsetFieldIsUnnamed(p: IncidentPatch, field: Field)
    requires LineFor(p, field).None? && field in INCIDENT_FIELDS
    ensures !Names(Lines(p), field)
  {
    LinesSayEachField(p, field, Number(0));
    LinesSayEachField(p, field, Number(1));
    hide Lines;
  }

  /** Requests that set different fields commute. */
  lemma DisjointEditsCommute(row: IncidentRow, p: IncidentPatch, q: IncidentPatch, t: Time, u: Time)
    requires forall f :: f in INCIDENT_FIELDS ==> LineFor(p, f).None? || LineFor(q, f).None?
    ensures Merged(Merged(row, p, t), q, u) == Merged(Merged(row, q, u), p, t)
  {
    assert LineFor(p, Priority).None? || LineFor(q, Priority).None?;
    assert LineFor(p, IncidentState).None? || LineFor(q, IncidentState).None?;
    assert LineFor(p, StartTime).None? || LineFor(q, StartTime).None?;
    assert LineFor(p, Summary).None? || LineFor(q, Summary).None?;
    assert LineFor(p, LocationName).None? || LineFor(q, LocationName).None?;
    assert LineFor(p, LocationAddress).None? || LineFor(q, LocationAddress).None?;
    assert LineFor(p, LocationDescription).None? || LineFor(q, LocationDescription).None?;
    hide INCIDENT_FIELDS, ParseState, StateName, NormalizedAddress;
    assert ParseState(p.state).None? || ParseState(q.state).None?;
    OverwritesCommute(row.summary, p.summary, q.summary);
    OverwritesCommute(row.locationName, p.locationName, q.locationName);
    OverwritesCommute(row.locationDescription, p.locationDescription, q.locationDescription);
    OverwritesCommute(row.locationAddress, NormalizedAddress(p.locationAddress, p.normalizeAddresses),
                      NormalizedAddress(q.locationAddress, q.normalizeAddresses));
    assert p.priority == 0 || q.priority == 0;
    assert p.started.None? || q.started.None?;
    hide LineFor, Overwrite, TextLine;
    NonTextsCommute(row, p, q, t, u);
  }

  lemma NonTextsCommute(row: IncidentRow, p: IncidentPatch, q: IncidentPatch, t: Time, u: Time)
    requires p.priority == 0 || q.priority == 0
    requires p.started.None? || q.started.None?
    requires ParseState(p.state).None? || ParseState(q.state).None?
    ensures var pq, qp := Merged(Merged(row, p, t), q, u), Merged(Merged(row, q, u), p, t);
            pq.priority == qp.priority && pq.state == qp.state && pq.started == qp.started && pq.closed == qp.closed
  {
    hide Overwrite, ParseState, NormalizedAddress;
  }

  lemma OverwritesCommute(stored: NullText, a: Option<string>, b: Option<string>)
    requires TextLine(Summary, a).None? || TextLine(Summary, b).None?
    ensures Overwrite(Overwrite(stored, a), b) == Overwrite(Overwrite(stored, b), a)
  {
  }

  /** A closing time is stored exactly while the state is closed. */
  predicate ClosedAgrees(row: IncidentRow) {
    row.closed.Some? <==> row.state == Closed
  }

  lemma ClosingTimeAgreesWithState(init: Versioned<IncidentRow>, run: seq<Action<IncidentPatch>>, s: Edits)
    requires Reaches(INCIDENT_KIND, init, run, s) && ClosedAgrees(init.data)
    ensures s.row.Some? ==> ClosedAgrees(s.row.value.data)
  {
    IncidentLaws();
    hide Show, SetsWhatItLogs, Reaches, LineFor, Lines, Overwrite, ParseState;
    RowInvariant(INCIDENT_KIND, init, run, s, ClosedAgrees);
  }

  /** The closing time is the clock's reading of the last committed request that named a state. */
  lemma ClosingTimeIsTheClosers(init: Versioned<IncidentRow>, run: seq<Action<IncidentPatch>>, s: Edits, i: nat,
      state: State)
    requires Reaches(INCIDENT_KIND, init, run, s) && s.row.Some?
    requires i < |s.commits| && s.commits[i].patch.state == StateName(state)
    requires forall j :: i < j < |s.commits| ==> forall other: State :: s.commits[j].patch.state != StateName(other)
    ensures s.row.value.data.closed == if state == Closed then Some(s.commits[i].now) else None
  {
    IncidentLaws();
    EditsAreSerial(INCIDENT_KIND, init, run, s);
    hide Reaches, SetsWhatItLogs, Honest, DirectIsSilent, Accepted;
    assert ParseState(s.commits[i].patch.state) == Some(state);
    forall j | i < j < |s.commits| ensures ParseState(s.commits[j].patch.state).None? {
      NoStateIff(s.commits[j].patch.state);
    }
    hide StateName, Serial, Merged;
    ClosedAfter(init.data, s.commits, i, state, |s.commits|);
  }

  lemma {:induction false} ClosedAfter(init: IncidentRow, commits: seq<Commit<IncidentPatch>>, i: nat, state: State,
      n: nat)
    requires i < n <= |commits| && ParseState(commits[i].patch.state) == Some(state)
    requires forall j :: i < j < n ==> ParseState(commits[j].patch.state).None?
    ensures Serial(INCIDENT_KIND, init, commits, n).closed == if state == Closed then Some(commits[i].now) else None
  {
    hide ParseState, StateName, Overwrite, NormalizedAddress, Lines;
    if i < n - 1 {
      ClosedAfter(init, commits, i, state, n - 1);
    }
  }

  // ----- Success -----

  /** The request asks for something to be set. */
  ghost predicate AsksForSomething(p: IncidentPatch) {
    || p.priority != 0 || (exists state: State :: p.state == StateName(state)) || p.started.Some?
    || p.summary.Some? || p.locationName.Some? || p.locationAddress.Some? || p.locationDescription.Some?
  }

  lemma AskingIsLogged(p: IncidentPatch)
    requires AsksForSomething(p)
    ensures Lines(p) != []
  {
    var field :=
      if p.priority != 0 then Priority
      else if p.started.Some? then StartTime
      else if p.summary.Some? then Summary
      else if p.locationName.Some? then LocationName
      else if p.locationAddress.Some? then LocationAddress
      else if p.locationDescription.Some? then LocationDescription
      else IncidentState;
    if field == IncidentState {
      var state: State :| p.state == StateName(state);
      assert ParseState(p.state) == Some(state);
    }
    assert LineFor(p, field).Some?;
    LinesSayEachField(p, field, Number(0));
    LinesSayEachField(p, field, Number(1));
    assert LoggedValue([], field, Number(0)) == Number(0) && LoggedValue([], field, Number(1)) == Number(1);
    hide Lines, LineFor, LoggedValue;
  }

  /** A request that asks for something and was told of success has committed: its own patch is one of those
      the row is the serial merge of. */
  lemma SuccessMeansCommitted(init: Versioned<IncidentRow>, run: seq<Action<IncidentPatch>>, s: Edits, c: ReqId)
    requires Reaches(INCIDENT_KIND, init, run, s) && EditHistory.ToldDone(s, c) && AsksForSomething(s.clients[c].patch)
    ensures EditAnswers.CommittedBy(s.commits, c, s.clients[c].patch)
  {
    IncidentLaws();
    AskingIsLogged(s.clients[c].patch);
    hide Lines, Merged, AsksForSomething, Reaches, EditAnswers.CommittedBy;
    EditAnswers.SuccessMeansCommitted(INCIDENT_KIND, init, run, s, c);
  }

  /** A 400 is never the Incident's own refusal, which there is none of: only of a statement that failed. */
  lemma IncidentsRefuseNothing(init: Versioned<IncidentRow>, run: seq<Action<IncidentPatch>>, s: Edits, c: ReqId)
    requires Reaches(INCIDENT_KIND, init, run, s) && c in s.clients && s.clients[c].progress.Answered?
    ensures s.clients[c].progress.answer == BadRequest ==> EditAnswers.StatementFailed(run, c, BadRequest)
    ensures s.clients[c].progress.answer == NotFound ==>
              s.row.None? || EditAnswers.StatementFailed(run, c, NotFound)
  {
    IncidentLaws();
    hide Lines, Merged, Reaches, EditAnswers.StatementFailed;
    EditAnswers.AnswersAreDeserved(INCIDENT_KIND, init, run, s, c);
  }

  /** A request that meets no other is told of success, and the row then has what it asks for. */
  lemma EditAloneSetsWhatIsAsked(s: Edits, c: ReqId, p: IncidentPatch, notes: seq<string>, now: Time) returns (t: Edits)
    requires c !in s.clients && s.row.Some? && s.lock == None && AsksForSomething(p)
    ensures Legal(INCIDENT_KIND, s, EditAlone.Alone(c, p, notes, now, Lines(p)))
    ensures After(INCIDENT_KIND, s, EditAlone.Alone(c, p, notes, now, Lines(p))) == t
    ensures EditHistory.ToldDone(t, c) && t.published == s.published + [c]
    ensures t.row.Some? && t.row.value.version == s.row.value.version + 1
    ensures AsAsked(s.row.value.data, p, now, t.row.value.data)
  {
    AskingIsLogged(p);
    MergedIsAsAsked(s.row.value.data, p, now);
    hide Lines, Merged, AsAsked, AsksForSomething, Legal, After, EditHistory.ToldDone, EditAlone.Alone, Plan;
    hide AddEntries;
    t := EditAlone.AloneGetsThrough(INCIDENT_KIND, s, c, p, notes, now);
  }
}
