/**
 * The read, merge, guarded-write protocol behind every edit of an Incident, a Field Report or a
 * Visit, as a machine over its database statements. Any number of requests edit one record at the
 * same time; each statement of each request is one step, and the steps interleave freely.
 *
 * The machine is generic: a `Kind` says how one kind of record merges a request into a stored row.
 */
module EditProtocol {
  import opened Base
  import opened Retry

  /** The fields a change log can name. */
  datatype Field =
    // Incidents
    | Priority | IncidentState | StartTime | Summary | LocationName | LocationAddress | LocationDescription
    // Visits
    | IncidentNumber
    | GuestPreferredName | GuestLegalName | GuestDescription | GuestActionPlan | ResourceBedID
    | GuestCampName | GuestCampAddress | GuestCampDescription | GuestCampContacts | ResourceSitter
    | ArrivalTime | ArrivalMethod | ArrivalState | ArrivalReason | ArrivalBelongings
    | DepartureTime | DepartureMethod | DepartureState
    | ResourceRest | ResourceClothes | ResourcePogs | ResourceFoodBev | ResourceOther

  /** One line of the change log: a field and the value it was set to. */
  datatype Change = Change(field: Field, value: Value)
  datatype Value = Number(number: int) | Text(text: string) | Seconds(seconds: int)

  /** What merging a request over a stored row gives. */
  datatype Build<+Row> = Reject(answer: Answer) | Merge(row: Row, changes: seq<Change>)

  /** `build` merges a request into a row. A `direct` request is a single unguarded UPDATE instead. */
  datatype Kind<!Row, !Patch> = Kind(build: (Row, Patch, Time) -> Build<Row>, direct: Patch -> bool)

  /** A report entry: a generated change log or a note the client sent along. */
  datatype Entry = ChangeLog(who: ReqId, changes: seq<Change>) | Note(who: ReqId, text: string)

  datatype Versioned<+Row> = Versioned(version: int, data: Row)

  /** What one attempt carries: the row it read and when, the merged row, the change log, and the
      ids of the report entries its open transaction inserted. */
  datatype Work<+Row> = Work(snap: Versioned<Row>, now: Time, row: Row, changes: seq<Change>, staged: seq<nat>)

  datatype Phase<+Row> =
    | Reading                    // about to read the stored row
    | Guarding(work: Work<Row>)   // about to run the guarded UPDATE
    | Rechecking(work: Work<Row>) // the UPDATE matched no row; about to ask whether the row exists
    | Writing(work: Work<Row>)    // inserting report entries, then committing
    | Notifying                  // committed, about to publish
    | Over

  /** `since` is history: how many field edits were committed when the request arrived. */
  datatype Client<+Row, +Patch> =
    Client(patch: Patch, notes: seq<string>, phase: Phase<Row>, progress: Progress, since: nat)

  /** History: one committed write of the row. A direct write belongs to no edit request. */
  datatype Commit<+Patch> = Commit(who: Option<ReqId>, patch: Patch, now: Time, entry: nat)

  datatype System<Row, Patch> = System(
    row: Option<Versioned<Row>>,             // the committed row, if it still exists
    lock: Option<ReqId>,                     // the transaction holding the exclusive row lock
    nextId: nat,                             // auto-increment of the report entry table
    entries: map<nat, Entry>,                // committed report entries of this record
    published: seq<ReqId>,                   // notifications, one per publishing request
    commits: seq<Commit<Patch>>,             // history: committed writes, in commit order
    clients: map<ReqId, Client<Row, Patch>>)

  datatype Action<+Patch> =
    | Arrive(c: ReqId, patch: Patch, notes: seq<string>)
    | Read(c: ReqId, now: Time)
    | Guard(c: ReqId)
    | Recheck(c: ReqId)
    | Insert(c: ReqId)
    | CommitTxn(c: ReqId)
    | Notify(c: ReqId)
    | Deadlock(c: ReqId)
    | Fail(c: ReqId, answer: Answer)
    | DirectWrite(patch: Patch, now: Time)
    | OtherEntry                  // another record's transaction draws a report entry id
    | Vanish                      // the event, and the record with it, is deleted

  /** How many of the notes are not empty. */
  function CountNotes(notes: seq<string>): (n: nat)
    ensures n <= |notes|
  {
    if notes == [] then 0 else (if notes[0] == "" then 0 else 1) + CountNotes(notes[1..])
  }

  function NoteEntries(c: ReqId, notes: seq<string>): (r: seq<Entry>)
    ensures |r| == CountNotes(notes)
    ensures forall i :: 0 <= i < |r| ==> r[i].Note? && r[i].who == c
  {
    if notes == [] then []
    else (if notes[0] == "" then [] else [Note(c, notes[0])]) + NoteEntries(c, notes[1..])
  }

  /** The report entries an attempt inserts, in order: its change log, if any, then each nonempty note. */
  function Plan(c: ReqId, changes: seq<Change>, notes: seq<string>): (r: seq<Entry>)
    ensures |r| == (if changes != [] then 1 else 0) + CountNotes(notes)
    ensures changes != [] ==> r[0] == ChangeLog(c, changes)
    ensures forall i :: 0 <= i < |r| ==> r[i].who == c && (r[i].ChangeLog? <==> i == 0 && changes != [])
  {
    (if changes != [] then [ChangeLog(c, changes)] else []) + NoteEntries(c, notes)
  }

  /** The place of a note among the nonempty ones. */
  lemma {:induction false} NotePlace(c: ReqId, notes: seq<string>, i: nat)
    requires i < |notes| && notes[i] != ""
    ensures CountNotes(notes[..i]) < CountNotes(notes)
    ensures NoteEntries(c, notes)[CountNotes(notes[..i])] == Note(c, notes[i])
  {
    if i > 0 {
      assert notes[..i][1..] == notes[1..][..i - 1];
      NotePlace(c, notes[1..], i - 1);
    }
  }

  /** Each place is that of a nonempty note. */
  lemma {:induction false} NoteAt(c: ReqId, notes: seq<string>, k: nat) returns (i: nat)
    requires k < CountNotes(notes)
    ensures i < |notes| && notes[i] != "" && CountNotes(notes[..i]) == k
  {
    if notes[0] != "" && k == 0 {
      i := 0;
    } else {
      i := NoteAt(c, notes[1..], if notes[0] == "" then k else k - 1);
      i := i + 1;
      assert notes[..i][1..] == notes[1..][..i - 1];
    }
  }

  lemma {:induction false} CountNotesOfTwo(a: seq<string>, b: seq<string>)
    ensures CountNotes(a + b) == CountNotes(a) + CountNotes(b)
  {
    if a == [] {
      assert a + b == b;
    } else {
      assert (a + b)[1..] == a[1..] + b;
      CountNotesOfTwo(a[1..], b);
    }
  }

  /** An attempt has an entry for each nonempty note, after the change log if there is one, in the order
      of the notes. */
  lemma PlanHasEachNote(c: ReqId, changes: seq<Change>, notes: seq<string>, i: nat)
    requires i < |notes| && notes[i] != ""
    ensures var k := (if changes != [] then 1 else 0) + CountNotes(notes[..i]);
            k < |Plan(c, changes, notes)| && Plan(c, changes, notes)[k] == Note(c, notes[i])
    ensures forall j :: 0 <= j < i && notes[j] != "" ==> CountNotes(notes[..j]) < CountNotes(notes[..i])
  {
    NotePlace(c, notes, i);
    forall j | 0 <= j < i && notes[j] != "" ensures CountNotes(notes[..j]) < CountNotes(notes[..i]) {
      assert notes[..i] == notes[..j] + notes[j..i];
      CountNotesOfTwo(notes[..j], notes[j..i]);
      assert notes[j..i][0] == notes[j];
    }
  }

  predicate InTxn<Row>(p: Phase<Row>) {
    p.Guarding? || p.Writing?
  }

  predicate Attempting<Row>(p: Phase<Row>) {
    p.Guarding? || p.Rechecking? || p.Writing?
  }

  /** The row lock is free, or already held by c. */
  predicate CanLock<Row, Patch>(s: System<Row, Patch>, c: ReqId) {
    s.lock == None || s.lock == Some(c)
  }

  predicate CanRead<Row, Patch>(s: System<Row, Patch>, c: ReqId) {
    c in s.clients && s.clients[c].phase.Reading?
  }

  predicate CanGuard<Row, Patch>(s: System<Row, Patch>, c: ReqId) {
    c in s.clients && s.clients[c].phase.Guarding? && CanLock(s, c)
  }

  /** A report entry needs its record: the foreign key would fail without it. */
  predicate CanInsert<Row, Patch>(s: System<Row, Patch>, c: ReqId) {
    c in s.clients && s.clients[c].phase.Writing? && s.row.Some? &&
    var cl := s.clients[c];
    |cl.phase.work.staged| < |Plan(c, cl.phase.work.changes, cl.notes)|
  }

  predicate CanCommit<Row, Patch>(s: System<Row, Patch>, c: ReqId) {
    c in s.clients && s.clients[c].phase.Writing? &&
    var cl := s.clients[c];
    |cl.phase.work.staged| == |Plan(c, cl.phase.work.changes, cl.notes)|
  }

  predicate CanWriteDirectly<Row, Patch>(kind: Kind<Row, Patch>, s: System<Row, Patch>, patch: Patch, now: Time) {
    kind.direct(patch) && s.lock == None && s.row.Some? && kind.build(s.row.value.data, patch, now).Merge?
  }

  /** Deleting the record waits for every open transaction that wrote to it or to its entries. */
  predicate CanVanish<Row, Patch>(s: System<Row, Patch>) {
    s.row.Some? && s.lock == None &&
    forall c :: c in s.clients && s.clients[c].phase.Writing? ==> s.clients[c].phase.work.staged == []
  }

  /** What a failing statement can answer: the database's error, or the 404 for a broken reference. */
  predicate IsError(answer: Answer) {
    answer != Done && answer != Conflict
  }

  predicate Enabled<Row, Patch>(kind: Kind<Row, Patch>, s: System<Row, Patch>, a: Action<Patch>) {
    match a
    case Arrive(c, patch, _) => c !in s.clients && !kind.direct(patch)
    case Read(c, _) => CanRead(s, c)
    case Guard(c) => CanGuard(s, c)
    case Recheck(c) => c in s.clients && s.clients[c].phase.Rechecking?
    case Insert(c) => CanInsert(s, c)
    case CommitTxn(c) => CanCommit(s, c)
    case Notify(c) => c in s.clients && s.clients[c].phase.Notifying?
    case Deadlock(c) => c in s.clients && InTxn(s.clients[c].phase)
    case Fail(c, answer) =>
      c in s.clients && (s.clients[c].phase.Reading? || Attempting(s.clients[c].phase)) && IsError(answer)
    case DirectWrite(patch, now) => CanWriteDirectly(kind, s, patch, now)
    case OtherEntry => true
    case Vanish => CanVanish(s)
  }

  /** The transaction of c is rolled back: its staged work goes, its lock is released. */
  function Release<Row, Patch>(s: System<Row, Patch>, c: ReqId): Option<ReqId> {
    if s.lock == Some(c) then None else s.lock
  }

  /** An attempt of c ends without a commit; the retry policy says what happens next. */
  function EndAttempt<Row, Patch>(s: System<Row, Patch>, c: ReqId, o: Outcome): System<Row, Patch>
    requires c in s.clients
  {
    var cl := s.clients[c];
    var p := Advance(cl.progress, o);
    s.(lock := Release(s, c),
       clients := s.clients[c := cl.(progress := p, phase := if p.Trying? then Reading else Over)])
  }

  function SetPhase<Row, Patch>(s: System<Row, Patch>, c: ReqId, phase: Phase<Row>): System<Row, Patch>
    requires c in s.clients
  {
    s.(clients := s.clients[c := s.clients[c].(phase := phase)])
  }

  /** The initial read of an attempt, up to and including the merge. */
  function StepRead<Row, Patch>(kind: Kind<Row, Patch>, s: System<Row, Patch>, c: ReqId, now: Time): System<Row, Patch>
    requires CanRead(s, c)
  {
    match s.row
    case None => EndAttempt(s, c, Failed(NotFound))
    case Some(snap) =>
      match kind.build(snap.data, s.clients[c].patch, now)
      case Reject(answer) => EndAttempt(s, c, Failed(answer))
      case Merge(row, changes) =>
        var work := Work(snap, now, row, changes, []);
        // A request that only appends report entries skips the guarded update.
        SetPhase(s, c, if changes != [] then Guarding(work) else Writing(work))
  }

  /** The guarded UPDATE: it matches the row only at the version that was read. */
  function StepGuard<Row, Patch>(s: System<Row, Patch>, c: ReqId): System<Row, Patch>
    requires CanGuard(s, c)
  {
    var work := s.clients[c].phase.work;
    if s.row.Some? && s.row.value.version == work.snap.version then
      SetPhase(s, c, Writing(work)).(lock := Some(c))
    else
      SetPhase(s, c, Rechecking(work))
  }

  function StepInsert<Row, Patch>(s: System<Row, Patch>, c: ReqId): System<Row, Patch>
    requires CanInsert(s, c)
  {
    var work := s.clients[c].phase.work;
    SetPhase(s, c, Writing(work.(staged := work.staged + [s.nextId]))).(nextId := s.nextId + 1)
  }

  /** The staged entries become committed rows, each under its own id. */
  function AddEntries(entries: map<nat, Entry>, ids: seq<nat>, plan: seq<Entry>): (r: map<nat, Entry>)
    requires |ids| == |plan|
  {
    if ids == [] then entries
    else AddEntries(entries, ids[..|ids| - 1], plan[..|ids| - 1])[ids[|ids| - 1] := plan[|ids| - 1]]
  }

  function StepCommit<Row, Patch>(s: System<Row, Patch>, c: ReqId): System<Row, Patch>
    requires CanCommit(s, c)
  {
    var cl := s.clients[c];
    var work := cl.phase.work;
    var after := s.(
      entries := AddEntries(s.entries, work.staged, Plan(c, work.changes, cl.notes)),
      clients := s.clients[c := cl.(phase := Notifying, progress := Advance(cl.progress, Applied))]);
    if work.changes == [] then after
    else after.(
      row := Some(Versioned(work.snap.version + 1, work.row)),
      lock := Release(s, c),
      commits := s.commits + [Commit(Some(c), cl.patch, work.now, work.staged[0])])
  }

  function StepDirect<Row, Patch>(kind: Kind<Row, Patch>, s: System<Row, Patch>, patch: Patch,
      now: Time): System<Row, Patch>
    requires CanWriteDirectly(kind, s, patch, now)
  {
    var v := s.row.value;
    s.(row := Some(Versioned(v.version + 1, kind.build(v.data, patch, now).row)),
       commits := s.commits + [Commit(None, patch, now, 0)])
  }

  function Step<Row, Patch>(kind: Kind<Row, Patch>, s: System<Row, Patch>, a: Action<Patch>): System<Row, Patch>
    requires Enabled(kind, s, a)
  {
    match a
    case Arrive(c, patch, notes) =>
      s.(clients := s.clients[c := Client(patch, notes, Reading, START, |s.commits|)])
    case Read(c, now) => StepRead(kind, s, c, now)
    case Guard(c) => StepGuard(s, c)
    case Recheck(c) => EndAttempt(s, c, if s.row.None? then Failed(NotFound) else Conflicted)
    case Insert(c) => StepInsert(s, c)
    case CommitTxn(c) => StepCommit(s, c)
    case Notify(c) => SetPhase(s, c, Over).(published := s.published + [c])
    case Deadlock(c) => EndAttempt(s, c, Deadlocked)
    case Fail(c, answer) => EndAttempt(s, c, Failed(answer))
    case DirectWrite(patch, now) => StepDirect(kind, s, patch, now)
    case OtherEntry => s.(nextId := s.nextId + 1)
    case Vanish => s.(row := None, entries := map[])
  }

  // ----- Runs -----

  /** A run: every action is enabled where it is taken. */
  ghost predicate Legal<Row(!new), Patch(!new)>(kind: Kind<Row, Patch>, s: System<Row, Patch>, run: seq<Action<Patch>>)
    decreases |run|
  {
    run == [] || (Enabled(kind, s, run[0]) && Legal(kind, Step(kind, s, run[0]), run[1..]))
  }

  ghost function After<Row(!new), Patch(!new)>(kind: Kind<Row, Patch>, s: System<Row, Patch>,
      run: seq<Action<Patch>>): System<Row, Patch>
    requires Legal(kind, s, run)
    decreases |run|
  {
    if run == [] then s else After(kind, Step(kind, s, run[0]), run[1..])
  }

  /** A freshly created record: version as stored, no requests in flight, nothing logged. */
  function Initial<Row, Patch>(init: Versioned<Row>): System<Row, Patch> {
    System(Some(init), None, 0, map[], [], [], map[])
  }

  // ----- The serial specification: commits applied one after another -----

  function Apply<Row, Patch>(kind: Kind<Row, Patch>, row: Row, commit: Commit<Patch>): Row {
    match kind.build(row, commit.patch, commit.now)
    case Merge(r, _) => r
    case Reject(_) => row
  }

  /** The initial row with the first n commits merged into it, in order. */
  function Serial<Row, Patch>(kind: Kind<Row, Patch>, init: Row, commits: seq<Commit<Patch>>, n: nat): Row
    requires n <= |commits|
  {
    if n == 0 then init else Apply(kind, Serial(kind, init, commits, n - 1), commits[n - 1])
  }

  /** The change log the i-th commit produces when it is its turn in the serial order. */
  function LogOf<Row, Patch>(kind: Kind<Row, Patch>, init: Row, commits: seq<Commit<Patch>>, i: nat): seq<Change>
    requires i < |commits|
  {
    match kind.build(Serial(kind, init, commits, i), commits[i].patch, commits[i].now)
    case Merge(_, changes) => changes
    case Reject(_) => []
  }

  lemma {:induction false} SerialOfLonger<Row, Patch>(
    kind: Kind<Row, Patch>, init: Row, commits: seq<Commit<Patch>>, more: seq<Commit<Patch>>, n: nat)
    requires n <= |commits|
    ensures Serial(kind, init, commits + more, n) == Serial(kind, init, commits, n)
  {
    if n > 0 {
      SerialOfLonger(kind, init, commits, more, n - 1);
    }
  }
}
