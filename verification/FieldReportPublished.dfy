/** What a published creation of a Field Report has logged, and that a creation alone gets there
    (api/fieldreport.go). */
module FieldReportPublished {
  import opened Base
  import EditProtocol
  import opened EditAudit
  import opened FieldReport
  import opened FieldReportCreation
  import EditNotes
  import EditProofs
  import Retry

  ghost predicate AllLogged(w: World) {
    && (w.creator.summary.Some? ==> w.creator.logged.Some?)
    && exists at :: EditNotes.NotesStand(w.own, w.creator.who, w.creator.notes, at)
  }

  ghost predicate LoggedOk(w: World) {
    if w.creator.phase.Committed? || w.creator.phase.Published? then w.edits.row.Some? ==> AllLogged(w)
    else w.own == map[] && w.creator.logged.None?
  }

  lemma CommitLogsAll(w: World)
    requires Inv(w) && Enabled(w, CommitLog)
    ensures AllLogged(Step(w, CommitLog))
  {
    var cr, t := w.creator, Step(w, CommitLog);
    assert t.own == EditProtocol.AddEntries(map[], cr.phase.staged, CreationPlan(cr));
    assert StagedBy(cr) == cr.phase.staged;
    EditNotes.NotesAreAdded(map[], cr.phase.staged, cr.who, Lines(Edit(cr.summary)), cr.notes);
    hide EditProtocol.AddEntries, EditProtocol.Plan, EditNotes.NotesStand;
  }

  lemma StepKeepsLogged(init: EditProtocol.Versioned<FieldReportRow>, w: World, e: Event)
    requires Fine(init, w) && LoggedOk(w) && Enabled(w, e)
    ensures LoggedOk(Step(w, e))
    ensures Step(w, e).creator.notes == w.creator.notes && Step(w, e).creator.who == w.creator.who
  {
    hide AllLogged;
    match e
    case CommitLog => CommitLogsAll(w);
    case Request(a) =>
      GoneStaysGone(init, w.edits, a);
      hide EditProtocol.Step, EditProtocol.Enabled;
      SameLogging(w, Step(w, e));
    case Draw => SameLogging(w, Step(w, e));
    case Rerun =>
    case GiveUp =>
    case Publish => SameLogging(w, Step(w, e));
  }

  lemma SameLogging(w: World, t: World)
    requires t.edits.row.None? || (t.own == w.own && t.creator.logged == w.creator.logged)
    requires t.creator.who == w.creator.who
    requires t.creator.notes == w.creator.notes && t.creator.summary == w.creator.summary
    ensures t.edits.row.Some? && AllLogged(w) ==> AllLogged(t)
  {
    hide EditNotes.NotesStand;
  }

  lemma GoneStaysGone(init: EditProtocol.Versioned<FieldReportRow>, edits: Edits,
      a: EditProtocol.Action<FieldReportPatch>)
    requires EditProofs.Inv(FIELD_REPORT_KIND, init, edits) && EditProtocol.Enabled(FIELD_REPORT_KIND, edits, a)
    ensures edits.row.None? ==> EditProtocol.Step(FIELD_REPORT_KIND, edits, a).row.None?
    ensures a.Vanish? ==> EditProtocol.Step(FIELD_REPORT_KIND, edits, a).row.None?
  {
    assert a.CommitTxn? ==> EditProofs.ClientInv(FIELD_REPORT_KIND, init, edits, a.c, edits.clients[a.c]);
    hide EditProofs.Inv, EditProtocol.Plan, EditProtocol.AddEntries, FIELD_REPORT_KIND;
  }

  lemma {:induction false} RunKeepsLogged(init: EditProtocol.Versioned<FieldReportRow>, w: World, run: seq<Event>)
    requires Fine(init, w) && LoggedOk(w) && Legal(w, run)
    ensures LoggedOk(After(w, run))
    ensures After(w, run).creator.notes == w.creator.notes && After(w, run).creator.who == w.creator.who
    decreases |run|
  {
    if run != [] {
      StepStaysFine(init, w, run[0]);
      StepKeepsLogged(init, w, run[0]);
      hide Fine, Step, Enabled, LoggedOk;
      RunKeepsLogged(init, Step(w, run[0]), run[1..]);
    }
  }

  lemma StartIsLogged(who: ReqId, summary: Option<string>, notes: seq<string>)
    ensures var start := Start(who, summary, notes);
            Fine(NewRow(summary), start) && LoggedOk(start) && start.creator.notes == notes && start.creator.who == who
  {
    ReachedIsFine(who, summary, notes, [], Start(who, summary, notes));
    hide Fine;
  }

  /** While the report exists: a creation that is published has logged the summary it was given, and each
      nonempty note in the order given; one that failed, or is not through, has left no entry. */
  lemma PublishedMeansLogged(who: ReqId, summary: Option<string>, notes: seq<string>, run: seq<Event>, w: World)
    requires Reached(who, summary, notes, run, w) && w.edits.row.Some?
    ensures w.creator.phase.Committed? || w.creator.phase.Published? ==>
              && (summary.Some? ==>
                    && w.creator.logged.Some? && w.creator.logged.value in w.own
                    && w.own[w.creator.logged.value] == EditProtocol.ChangeLog(w.creator.who, Lines(Edit(summary))))
              && exists at :: EditNotes.NotesStand(w.own, who, notes, at)
    ensures w.creator.phase.Logging? || w.creator.phase.Failed? ==> w.own == map[]
  {
    hide EditNotes.NotesStand, EditProtocol.Plan, Lines;
    StartIsLogged(who, summary, notes);
    ReachedIsFine(who, summary, notes, run, w);
    RunKeepsLogged(NewRow(summary), Start(who, summary, notes), run);
    hide Legal, After, Step;
  }

  function RerunsIn(run: seq<Event>): nat {
    if run == [] then 0 else (if run[0].Rerun? then 1 else 0) + RerunsIn(run[1..])
  }

  /** A creation fails to log only by a failing statement, or as the victim of 6 deadlocks. */
  lemma {:induction false} FailureHasItsCause(w: World, run: seq<Event>)
    requires Legal(w, run) && !w.creator.phase.Failed? && After(w, run).creator.phase.Failed?
    ensures GiveUp in run || w.creator.runs - 1 + RerunsIn(run) >= Retry.MAX_DEADLOCK_ATTEMPTS
    decreases |run|
  {
    hide EditProtocol.Step, EditProtocol.Enabled, EditProtocol.Plan;
    if !Step(w, run[0]).creator.phase.Failed? {
      FailureHasItsCause(Step(w, run[0]), run[1..]);
    }
  }

  function Draws(n: nat): seq<Event> {
    if n == 0 then [] else [Draw] + Draws(n - 1)
  }

  lemma {:induction false} DrawsRun(w: World, n: nat, rest: seq<Event>) returns (t: World)
    requires w.creator.phase.Logging? && w.edits.row.Some? && |w.creator.phase.staged| + n == |CreationPlan(w.creator)|
    ensures t.creator == w.creator.(phase := t.creator.phase) && t.creator.phase.Logging?
    ensures |t.creator.phase.staged| == |CreationPlan(w.creator)| && t.edits.row == w.edits.row
    ensures Legal(t, rest) ==> Legal(w, Draws(n) + rest) && After(w, Draws(n) + rest) == After(t, rest)
    decreases n
  {
    hide EditProtocol.Plan;
    if n == 0 {
      assert Draws(0) + rest == rest;
      t := w;
    } else {
      var next := Step(w, Draw);
      t := DrawsRun(next, n - 1, rest);
      assert (Draws(n) + rest)[1..] == Draws(n - 1) + rest;
      assert (Draws(n) + rest)[0] == Draw;
    }
  }

  /** A creation that meets no other request draws an id for each entry, commits and is published. */
  lemma CreationAlone(who: ReqId, summary: Option<string>, notes: seq<string>)
    ensures var start := Start(who, summary, notes);
            var run := Draws(|CreationPlan(start.creator)|) + ([CommitLog] + [Publish]);
            && Legal(start, run) && After(start, run).creator.phase.Published?
            && After(start, run).edits.row.Some?
            && TextOf(After(start, run).edits.row.value.data.summary) == summary.GetOr("")
  {
    var start := Start(who, summary, notes);
    var last := [CommitLog] + [Publish];
    var t := DrawsRun(start, |CreationPlan(start.creator)|, last);
    hide EditProtocol.Plan, EditProtocol.AddEntries;
    assert CreationPlan(t.creator) == CreationPlan(start.creator);
    var committed := Step(t, CommitLog);
    assert last[0] == CommitLog && last[1..] == [Publish] && [Publish][1..] == [];
    assert Legal(committed, [Publish]) && Legal(t, last);
    assert After(t, last) == Step(committed, Publish);
  }
}
