/** A run in which a Field Report's log ends up wrong about its summary (api/fieldreport.go). */
module FieldReportRace {
  import opened Base
  import opened EditProtocol
  import opened FieldReport
  import opened FieldReportCreation
  import EditAudit
  import EditTheorems
  import Retry

  const ROW_A: FieldReportRow := FieldReportRow(Some("a"), None)
  const ROW_B: FieldReportRow := FieldReportRow(Some("b"), None)
  const SET_B: FieldReportPatch := Edit(Some("b"))
  const SAYS_A: seq<Change> := [Change(Summary, Text("a"))]
  const SAYS_B: seq<Change> := [Change(Summary, Text("b"))]

  /** The request that sets the summary to "b", at a point of its run. */
  function Editor(phase: EditProtocol.Phase<FieldReportRow>): map<ReqId, Client<FieldReportRow, FieldReportPatch>> {
    map[1 := Client(SET_B, [], phase, Retry.START, 0)]
  }

  function Attempt(staged: seq<nat>): Work<FieldReportRow> {
    Work(Versioned(1, ROW_A), 0, ROW_B, SAYS_B, staged)
  }

  /** The report as it was created, with "a", and the edit under way. */
  function Editing(lock: Option<ReqId>, nextId: nat, phase: EditProtocol.Phase<FieldReportRow>): Edits {
    System(Some(Versioned(1, ROW_A)), lock, nextId, map[], [], [], Editor(phase))
  }

  /** The edit has committed, with entry 0. */
  function Edited(nextId: nat): Edits {
    System(Some(Versioned(2, ROW_B)), None, nextId, map[0 := ChangeLog(1, SAYS_B)], [], [Commit(Some(1), SET_B, 0, 0)],
           map[1 := Client(SET_B, [], Notifying, Retry.Answered(Retry.Done), 0)])
  }

  function Creation(phase: FieldReportCreation.Phase, logged: Option<nat>): Creator {
    Creator(0, Some("a"), [], phase, 1, logged)
  }

  /** The edit runs to its commit before the creation inserts its own entry. */
  const RACE: seq<Event> :=
    [Request(Arrive(1, SET_B, []))] + ([Request(Read(1, 0))] + ([Request(Guard(1))] + ([Request(Insert(1))] +
    ([Request(CommitTxn(1))] + ([Draw] + ([CommitLog] + []))))))

  const END: World := World(Edited(2), Creation(Committed, Some(1)), map[1 := ChangeLog(0, SAYS_A)])

  /** An event and where it leads. */
  ghost predicate Leads(w: World, e: Event, next: World) {
    FieldReportCreation.Enabled(w, e) && FieldReportCreation.Step(w, e) == next
  }

  lemma Begin(w: World, e: Event, next: World, rest: seq<Event>)
    requires Leads(w, e, next) && FieldReportCreation.Legal(next, rest)
    ensures FieldReportCreation.Legal(w, [e] + rest)
    ensures FieldReportCreation.After(w, [e] + rest) == FieldReportCreation.After(next, rest)
  {
    assert ([e] + rest)[1..] == rest;
  }

  lemma EditorReads(cr: Creator)
    ensures Leads(World(Editing(None, 0, Reading), cr, map[]), Request(Read(1, 0)),
                  World(Editing(None, 0, Guarding(Attempt([]))), cr, map[]))
    ensures Leads(World(Editing(None, 0, Guarding(Attempt([]))), cr, map[]), Request(Guard(1)),
                  World(Editing(Some(1), 0, Writing(Attempt([]))), cr, map[]))
  {
    assert Merged(ROW_A, SET_B) == ROW_B && Lines(SET_B) == SAYS_B;
  }

  lemma EditorLogs(cr: Creator)
    ensures Leads(World(Editing(Some(1), 0, Writing(Attempt([]))), cr, map[]), Request(Insert(1)),
                  World(Editing(Some(1), 1, Writing(Attempt([0]))), cr, map[]))
    ensures Leads(World(Editing(Some(1), 1, Writing(Attempt([0]))), cr, map[]), Request(CommitTxn(1)),
                  World(Edited(1), cr, map[]))
  {
    assert Plan(1, SAYS_B, []) == [ChangeLog(1, SAYS_B)];
    assert [] + [0] == [0];
    assert AddEntries(map[], [0], [ChangeLog(1, SAYS_B)]) == map[0 := ChangeLog(1, SAYS_B)] by {
      assert [0][..0] == [] && [ChangeLog(1, SAYS_B)][..0] == [];
    }
  }

  lemma CreatorDraws()
    ensures Leads(World(Edited(1), Creation(Logging([]), None), map[]), Draw,
                  World(Edited(2), Creation(Logging([1]), None), map[]))
  {
    assert CreationPlan(Creation(Logging([]), None)) == [ChangeLog(0, SAYS_A)];
    assert [] + [1] == [1];
  }

  lemma CreatorCommits()
    ensures Leads(World(Edited(2), Creation(Logging([1]), None), map[]), CommitLog, END)
  {
    assert CreationPlan(Creation(Logging([1]), None)) == [ChangeLog(0, SAYS_A)];
    assert AddEntries(map[], [1], [ChangeLog(0, SAYS_A)]) == map[1 := ChangeLog(0, SAYS_A)] by {
      assert [1][..0] == [] && [ChangeLog(0, SAYS_A)][..0] == [];
    }
    hide Plan, AddEntries;
  }

  lemma RaceRuns()
    ensures Reached(0, Some("a"), [], RACE, END)
  {
    var cr := Creation(Logging([]), None);
    var s := World(Initial(Versioned(1, ROW_A)), cr, map[]);
    assert Start(0, Some("a"), []) == s;
    assert Leads(s, Request(Arrive(1, SET_B, [])), World(Editing(None, 0, Reading), cr, map[]));
    EditorReads(cr);
    EditorLogs(cr);
    CreatorDraws();
    CreatorCommits();
    assert FieldReportCreation.Legal(END, []) && FieldReportCreation.After(END, []) == END;
    hide Leads, FieldReportCreation.Legal, FieldReportCreation.After, Editing, Edited, Attempt, END;
    var r1 := [CommitLog] + [];
    Begin(World(Edited(2), Creation(Logging([1]), None), map[]), CommitLog, END, []);
    Begin(World(Edited(1), cr, map[]), Draw, World(Edited(2), Creation(Logging([1]), None), map[]), r1);
    var r2 := [Draw] + r1;
    var logged := World(Editing(Some(1), 1, Writing(Attempt([0]))), cr, map[]);
    Begin(logged, Request(CommitTxn(1)), World(Edited(1), cr, map[]), r2);
    var r3 := [Request(CommitTxn(1))] + r2;
    var locked := World(Editing(Some(1), 0, Writing(Attempt([]))), cr, map[]);
    Begin(locked, Request(Insert(1)), logged, r3);
    var r4 := [Request(Insert(1))] + r3;
    var guarding := World(Editing(None, 0, Guarding(Attempt([]))), cr, map[]);
    Begin(guarding, Request(Guard(1)), locked, r4);
    var r5 := [Request(Guard(1))] + r4;
    var reading := World(Editing(None, 0, Reading), cr, map[]);
    Begin(reading, Request(Read(1, 0)), guarding, r5);
    Begin(s, Request(Arrive(1, SET_B, [])), reading, [Request(Read(1, 0))] + r5);
  }

  /** A report created with "a" and edited to "b" before the creation logs: the row holds "b", and the
      latest entry naming the summary says "a". */
  lemma RacingCreationLogsLate()
    ensures Reached(0, Some("a"), [], RACE, END)
    ensures END.edits.row.value.data.summary == Some("b")
    ensures IsLatest(Log(END), 1) && Log(END)[1] == ChangeLog(0, SAYS_A)
    ensures !LogTellsSummary(END)
  {
    RaceRuns();
    assert Log(END) == map[0 := ChangeLog(1, SAYS_B), 1 := ChangeLog(0, SAYS_A)];
    assert SAYS_A[0].field == Summary;
    assert EditTheorems.NamesField(Log(END), 1, Summary);
    assert EditAudit.LastValue(SAYS_A, Summary) == Text("a");
  }
}
