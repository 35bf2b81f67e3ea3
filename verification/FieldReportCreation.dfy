/**
 * Field Reports from their creation on (api/fieldreport.go). A creation inserts the row with its summary,
 * and then logs that summary in a transaction of its own, which neither guards nor locks the row. Edits
 * and attachments run as in the edit protocol meanwhile.
 */
module FieldReportCreation {
  import opened Base
  import opened EditProtocol
  import opened EditAudit
  import opened EditTheorems
  import opened FieldReport
  import EditHistory
  import EditProofs
  import Retry

  datatype Phase =
    | Logging(staged: seq<nat>)    // the transaction is open, with these report entries inserted
    | Committed                    // about to publish
    | Published
    | Failed

  /** The creation after its row is inserted. `logged` is history: the id of its change log, once
      committed. */
  datatype Creator = Creator(who: ReqId, summary: Option<string>, notes: seq<string>, phase: Phase, runs: nat,
      logged: Option<nat>)

  /** A report, the requests on it, and the creation; `own` are the creation's committed report entries. */
  datatype World = World(edits: Edits, creator: Creator, own: map<nat, Entry>)

  datatype Event = Request(a: Action<FieldReportPatch>) | Draw | CommitLog | Rerun | GiveUp | Publish

  /** What the creation logs: its summary, if it has one, as an edit would, and its notes. */
  function CreationPlan(cr: Creator): seq<Entry> {
    Plan(cr.who, Lines(Edit(cr.summary)), cr.notes)
  }

  predicate Enabled(w: World, e: Event) {
    var cr := w.creator;
    match e
    case Request(a) => EditProtocol.Enabled(FIELD_REPORT_KIND, w.edits, a) && (a.Vanish? ==>
        !cr.phase.Logging? || cr.phase.staged == [])
    case Draw => cr.phase.Logging? && w.edits.row.Some? && |cr.phase.staged| < |CreationPlan(cr)|
    case CommitLog => cr.phase.Logging? && |cr.phase.staged| == |CreationPlan(cr)|
    case Rerun => cr.phase.Logging?
    case GiveUp => cr.phase.Logging?
    case Publish => cr.phase.Committed?
  }

  function Step(w: World, e: Event): World
    requires Enabled(w, e)
  {
    var cr := w.creator;
    match e
    case Request(a) =>
      var edits := EditProtocol.Step(FIELD_REPORT_KIND, w.edits, a);
      if a.Vanish? then World(edits, cr.(logged := None), map[]) else w.(edits := edits)
    case Draw => DrawId(w)
    case CommitLog =>
      w.(own := AddEntries(w.own, cr.phase.staged, CreationPlan(cr)),
         creator := cr.(phase := Committed, logged := if cr.summary.Some? then Some(cr.phase.staged[0]) else None))
    case Rerun =>
      w.(creator := if cr.runs < Retry.MAX_DEADLOCK_ATTEMPTS then cr.(phase := Logging([]), runs := cr.runs + 1)
                    else cr.(phase := Failed))
    case GiveUp => w.(creator := cr.(phase := Failed))
    case Publish => w.(creator := cr.(phase := Published))
  }

  /** An insert of the creation: to the edits, one more id drawn by somebody else. */
  function DrawId(w: World): World
    requires Enabled(w, Draw)
  {
    World(EditProtocol.Step(FIELD_REPORT_KIND, w.edits, OtherEntry),
          w.creator.(phase := Logging(w.creator.phase.staged + [w.edits.nextId])),
          w.own)
  }

  ghost predicate Legal(w: World, run: seq<Event>)
    decreases |run|
  {
    run == [] || (Enabled(w, run[0]) && Legal(Step(w, run[0]), run[1..]))
  }

  ghost function After(w: World, run: seq<Event>): World
    requires Legal(w, run)
    decreases |run|
  {
    if run == [] then w else After(Step(w, run[0]), run[1..])
  }

  /** The row a creation inserts. */
  function NewRow(summary: Option<string>): Versioned<FieldReportRow> {
    Versioned(1, FieldReportRow(if summary.Some? then StringToSql(summary.value) else None, None))
  }

  function Start(who: ReqId, summary: Option<string>, notes: seq<string>): World {
    World(Initial(NewRow(summary)), Creator(who, summary, notes, Logging([]), 1, None), map[])
  }

  // ----- The edits see a run of the edit protocol -----

  function EditsOf(run: seq<Event>): seq<Action<FieldReportPatch>> {
    if run == [] then []
    else match run[0]
      case Request(a) => [a] + EditsOf(run[1..])
      case Draw => [OtherEntry] + EditsOf(run[1..])
      case CommitLog => EditsOf(run[1..])
      case Rerun => EditsOf(run[1..])
      case GiveUp => EditsOf(run[1..])
      case Publish => EditsOf(run[1..])
  }

  lemma {:induction false} EditsRunTheProtocol(w: World, run: seq<Event>)
    requires Legal(w, run)
    ensures EditProtocol.Legal(FIELD_REPORT_KIND, w.edits, EditsOf(run))
    ensures EditProtocol.After(FIELD_REPORT_KIND, w.edits, EditsOf(run)) == After(w, run).edits
    decreases |run|
  {
    if run != [] {
      EditsRunTheProtocol(Step(w, run[0]), run[1..]);
      if run[0].Request? || run[0].Draw? {
        var a := if run[0].Request? then run[0].a else OtherEntry;
        assert ([a] + EditsOf(run[1..]))[1..] == EditsOf(run[1..]);
      }
    }
  }

  // ----- The creation's entries are its own -----

  function StagedBy(cr: Creator): seq<nat> {
    if cr.phase.Logging? then cr.phase.staged else []
  }

  /** The creation's ids, staged or committed, were drawn before now, and no edit has one of them. */
  ghost predicate IsOwn(edits: Edits, id: nat) {
    && id < edits.nextId && id !in edits.entries
    && forall c :: c in edits.clients ==> id !in Staged(edits.clients[c])
  }

  ghost predicate OwnIds(w: World) {
    && (forall id :: id in w.own ==> IsOwn(w.edits, id))
    && (forall k :: 0 <= k < |StagedBy(w.creator)| ==> IsOwn(w.edits, StagedBy(w.creator)[k]))
  }

  /** Staged ids increase, and come after everything the creation committed: it commits once. */
  ghost predicate InOrder(w: World) {
    && (w.creator.phase.Logging? ==> w.own == map[] && w.creator.logged == None)
    && (forall j, k :: 0 <= j < k < |StagedBy(w.creator)| ==> StagedBy(w.creator)[j] < StagedBy(w.creator)[k])
  }

  /** Its one change log says the summary it created the report with. */
  ghost predicate LogsItsSummary(w: World) {
    && (w.creator.logged.Some? ==>
          && w.creator.summary.Some? && w.creator.logged.value in w.own
          && w.own[w.creator.logged.value] == ChangeLog(w.creator.who, Lines(Edit(w.creator.summary))))
    && (forall id :: id in w.own && w.own[id].ChangeLog? ==> w.creator.logged == Some(id))
  }

  ghost predicate Inv(w: World) {
    IdsInv(w.edits) && OwnIds(w) && InOrder(w) && LogsItsSummary(w)
  }

  lemma EditCommitLeavesItAlone(edits: Edits, c: ReqId, id: nat)
    requires IdsInv(edits) && CanCommit(edits, c) && IsOwn(edits, id)
    ensures IsOwn(StepCommit(edits, c), id)
  {
    var cl := edits.clients[c];
    assert EditAudit.OwnIds(edits.nextId, edits.entries.Keys, Staged(cl));
    AddEntriesAdds(edits.entries, Staged(cl), Plan(c, cl.phase.work.changes, cl.notes));
    hide AddEntries, Plan;
  }

  /** An edit's step takes none of the creation's ids: new ids are new, and a commit publishes its own. */
  lemma EditsLeaveItAlone(edits: Edits, a: Action<FieldReportPatch>, id: nat)
    requires IdsInv(edits) && EditProtocol.Enabled(FIELD_REPORT_KIND, edits, a) && IsOwn(edits, id)
    requires a.Guard? ==> edits.clients[a.c].phase.work.staged == []
    ensures IsOwn(EditProtocol.Step(FIELD_REPORT_KIND, edits, a), id)
  {
    hide IdsInv, FIELD_REPORT_KIND;
    if a.CommitTxn? {
      EditCommitLeavesItAlone(edits, a.c, id);
    } else {
      var t := EditProtocol.Step(FIELD_REPORT_KIND, edits, a);
      NoNewIdButTheNext(edits, a);
      forall c | c in t.clients ensures id !in Staged(t.clients[c]) {}
    }
  }

  /** Short of a commit, a step adds no entry, and to what is staged at most the next id. */
  lemma NoNewIdButTheNext(edits: Edits, a: Action<FieldReportPatch>)
    requires EditProtocol.Enabled(FIELD_REPORT_KIND, edits, a) && !a.CommitTxn?
    requires a.Guard? ==> edits.clients[a.c].phase.work.staged == []
    ensures var t := EditProtocol.Step(FIELD_REPORT_KIND, edits, a);
            && t.nextId >= edits.nextId && t.entries.Keys <= edits.entries.Keys
            && forall c :: c in t.clients ==>
                 || Staged(t.clients[c]) == []
                 || (c in edits.clients && Staged(t.clients[c]) == Staged(edits.clients[c]))
                 || (c in edits.clients && Staged(t.clients[c]) == Staged(edits.clients[c]) + [edits.nextId])
  {
    hide FIELD_REPORT_KIND, Plan;
  }

  /** The creation's commit puts its plan under its staged ids. */
  lemma OwnAfterCommit(w: World)
    requires Inv(w) && Enabled(w, CommitLog)
    ensures var staged := StagedBy(w.creator);
            var own := Step(w, CommitLog).own;
            && |staged| == |CreationPlan(w.creator)|
            && (forall id :: id in own <==> id in staged)
            && (forall k :: 0 <= k < |staged| ==> own[staged[k]] == CreationPlan(w.creator)[k])
  {
    hide IdsInv, IsOwn, Plan;
    AddEntriesAdds(w.own, StagedBy(w.creator), CreationPlan(w.creator));
    hide AddEntries;
  }

  /** The plan's one change log, if it has one, is its first entry and says the summary. */
  lemma PlanLogsTheSummary(cr: Creator)
    ensures var plan := CreationPlan(cr);
            && (forall k :: 0 <= k < |plan| ==> (plan[k].ChangeLog? <==> k == 0 && cr.summary.Some?))
            && (cr.summary.Some? ==> |plan| > 0 && plan[0] == ChangeLog(cr.who, Lines(Edit(cr.summary))))
  {
    hide Plan;
  }

  lemma CommitLogsItsSummary(w: World)
    requires Inv(w) && Enabled(w, CommitLog)
    ensures LogsItsSummary(Step(w, CommitLog))
  {
    var staged := StagedBy(w.creator);
    var t := Step(w, CommitLog);
    OwnAfterCommit(w);
    PlanLogsTheSummary(w.creator);
    assert t.creator.logged == (if w.creator.summary.Some? then Some(staged[0]) else None);
    assert t.creator.summary == w.creator.summary && t.creator.who == w.creator.who;
    hide Inv, Step, Enabled, CreationPlan, Lines;
    forall id | id in t.own && t.own[id].ChangeLog? ensures t.creator.logged == Some(id) {
      var k :| 0 <= k < |staged| && staged[k] == id;
    }
  }

  lemma CommitLogs(w: World)
    requires Inv(w) && Enabled(w, CommitLog)
    ensures Inv(Step(w, CommitLog))
  {
    CommitLogsItsSummary(w);
    OwnAfterCommit(w);
    var t := Step(w, CommitLog);
    assert t.edits == w.edits && StagedBy(t.creator) == [] && !t.creator.phase.Logging?;
    hide IdsInv, IsOwn, LogsItsSummary, CreationPlan, Step, Enabled;
  }

  lemma DrawKeepsInv(w: World)
    requires Inv(w) && Enabled(w, Draw)
    ensures Inv(Step(w, Draw))
  {
    var t := Step(w, Draw);
    var next := w.edits.nextId;
    FewerIdsKeepIds(w.edits, t.edits);
    assert next !in w.edits.entries;
    forall c | c in w.edits.clients ensures next !in Staged(w.edits.clients[c]) {
      assert EditAudit.OwnIds(next, w.edits.entries.Keys, Staged(w.edits.clients[c]));
    }
    hide IdsInv;
    assert IsOwn(t.edits, next);
    forall id | IsOwn(w.edits, id) ensures IsOwn(t.edits, id) && id < next {}
    hide IsOwn;
    assert StagedBy(t.creator) == StagedBy(w.creator) + [next];
  }

  lemma StepKeepsInv(w: World, e: Event)
    requires Inv(w) && Enabled(w, e)
    requires e.Request? ==> IdsInv(Step(w, e).edits)
    requires e.Request? && e.a.Guard? ==> w.edits.clients[e.a.c].phase.work.staged == []
    ensures Inv(Step(w, e))
  {
    hide IdsInv, IsOwn;
    match e
    case Request(a) =>
      var t := Step(w, e);
      forall id | IsOwn(w.edits, id) ensures IsOwn(t.edits, id) {
        EditsLeaveItAlone(w.edits, a, id);
      }
      hide EditProtocol.Step, EditProtocol.Enabled;
      assert OwnIds(t);
    case CommitLog => CommitLogs(w);
    case Draw => DrawKeepsInv(w);
    case Rerun =>
    case GiveUp =>
    case Publish =>
  }

  /** What a run gives: a state of the edit protocol with everything known about those, and the creation's
      entries beside it. */
  ghost predicate Reached(who: ReqId, summary: Option<string>, notes: seq<string>, run: seq<Event>, w: World) {
    Legal(Start(who, summary, notes), run) && After(Start(who, summary, notes), run) == w
  }

  ghost predicate Fine(init: Versioned<FieldReportRow>, w: World) {
    Good(FIELD_REPORT_KIND, init, w.edits) && Inv(w)
  }

  lemma StepStaysFine(init: Versioned<FieldReportRow>, w: World, e: Event)
    requires Fine(init, w) && Enabled(w, e)
    ensures Fine(init, Step(w, e)) && Step(w, e).creator.summary == w.creator.summary
  {
    hide EditProofs.Inv, EditHistory.HistoryInv, LogInv, IdsInv, OwnIds, InOrder, LogsItsSummary;
    if e.Request? || e.Draw? {
      EditsStayGood(init, w.edits, if e.Request? then e.a else OtherEntry);
    }
    hide EditProtocol.Step, EditProtocol.Enabled;
    StepKeepsInv(w, e);
  }

  lemma EditsStayGood(init: Versioned<FieldReportRow>, edits: Edits, a: Action<FieldReportPatch>)
    requires Good(FIELD_REPORT_KIND, init, edits) && EditProtocol.Enabled(FIELD_REPORT_KIND, edits, a)
    ensures Good(FIELD_REPORT_KIND, init, EditProtocol.Step(FIELD_REPORT_KIND, edits, a))
    ensures a.Guard? ==> edits.clients[a.c].phase.work.staged == []
  {
    FieldReportLaws();
    assert a.Guard? ==> EditProofs.ClientInv(FIELD_REPORT_KIND, init, edits, a.c, edits.clients[a.c]);
    hide EditProofs.Inv, EditHistory.HistoryInv, LogInv, IdsInv, EditProtocol.Step, FIELD_REPORT_KIND;
    EditProofs.StepKeepsInv(FIELD_REPORT_KIND, init, edits, a);
    EditHistory.StepKeepsHistory(FIELD_REPORT_KIND, init, edits, a);
    StepKeepsAudit(FIELD_REPORT_KIND, init, edits, a);
  }

  lemma {:induction false} RunStaysFine(init: Versioned<FieldReportRow>, w: World, run: seq<Event>)
    requires Fine(init, w) && Legal(w, run)
    ensures Fine(init, After(w, run))
    ensures After(w, run).creator.summary == w.creator.summary
    decreases |run|
  {
    if run != [] {
      var e := run[0];
      StepStaysFine(init, w, e);
      hide Fine, Step, Enabled;
      RunStaysFine(init, Step(w, e), run[1..]);
    }
  }

  lemma ReachedIsFine(who: ReqId, summary: Option<string>, notes: seq<string>, run: seq<Event>, w: World)
    requires Reached(who, summary, notes, run, w)
    ensures Fine(NewRow(summary), w)
    ensures Reaches(FIELD_REPORT_KIND, NewRow(summary), EditsOf(run), w.edits)
    ensures w.creator.summary == summary
  {
    var start := Start(who, summary, notes);
    RunStaysFine(NewRow(summary), start, run);
    EditsRunTheProtocol(start, run);
  }

  // ----- Where the log tells the summary -----

  /** The record's report entries: those of its edits and those of its creation. */
  function Log(w: World): map<nat, Entry> {
    w.edits.entries + w.own
  }

  predicate IsSummaryEdit(c: Commit<FieldReportPatch>) {
    c.patch.Edit? && c.patch.summary.Some?
  }

  /** The last of the first n commits that sets the summary. */
  function LastSummaryEdit(commits: seq<Commit<FieldReportPatch>>, n: nat): (i: Option<nat>)
    requires n <= |commits|
    ensures i.Some? ==> i.value < n && IsSummaryEdit(commits[i.value])
    ensures i.Some? ==> forall j :: i.value < j < n ==> !IsSummaryEdit(commits[j])
    ensures i.None? ==> forall j :: 0 <= j < n ==> !IsSummaryEdit(commits[j])
  {
    if n == 0 then None
    else if IsSummaryEdit(commits[n - 1]) then Some(n - 1)
    else LastSummaryEdit(commits, n - 1)
  }

  /** The latest entry naming the summary. */
  ghost predicate IsLatest(log: map<nat, Entry>, id: nat) {
    NamesField(log, id, Summary) && forall later :: NamesField(log, later, Summary) ==> later <= id
  }

  /** Whether the latest entry naming the summary, if there is one, holds it. */
  ghost predicate LogTellsSummary(w: World)
    requires w.edits.row.Some?
  {
    forall id: nat :: IsLatest(Log(w), id) ==>
      Text(TextOf(w.edits.row.value.data.summary)) == LastValue(Log(w)[id].changes, Summary)
  }

  /** An edit's entry names the summary exactly when its request sets it, and then says that. */
  lemma EntryOfCommit(init: Versioned<FieldReportRow>, w: World, i: nat)
    requires Fine(init, w) && w.edits.row.Some? && i < |w.edits.commits|
    ensures var c := w.edits.commits[i];
            && (IsSummaryEdit(c) ==>
                  && IsEdit(w.edits, i) && NamesField(w.edits.entries, c.entry, Summary)
                  && LastValue(w.edits.entries[c.entry].changes, Summary) == Text(c.patch.summary.value))
            && (IsEdit(w.edits, i) && NamesField(w.edits.entries, c.entry, Summary) ==> IsSummaryEdit(c))
  {
    var c := w.edits.commits[i];
    assert EditProofs.AcceptedAt(FIELD_REPORT_KIND, init.data, w.edits.commits, i);
    assert Logged(FIELD_REPORT_KIND, init.data, w.edits, i);
    assert LogOf(FIELD_REPORT_KIND, init.data, w.edits.commits, i) == Lines(c.patch);
    if IsSummaryEdit(c) {
      assert Lines(c.patch)[0].field == Summary;
    }
  }

  /** Among the edits' entries, the latest naming the summary is that of the last summary edit. */
  lemma LatestOfEdits(init: Versioned<FieldReportRow>, w: World)
    requires Fine(init, w) && w.edits.row.Some?
    ensures var last := LastSummaryEdit(w.edits.commits, |w.edits.commits|);
            && (forall id: nat :: IsLatest(w.edits.entries, id) <==>
                last.Some? && id == w.edits.commits[last.value].entry)
            && (last.None? ==> forall id :: !NamesField(w.edits.entries, id, Summary))
  {
    hide EditProofs.Inv, EditHistory.HistoryInv, Inv, IdsInv;
    var last := LastSummaryEdit(w.edits.commits, |w.edits.commits|);
    forall id | NamesField(w.edits.entries, id, Summary)
      ensures last.Some? && id <= w.edits.commits[last.value].entry
    {
      assert Written(w.edits, id);
      var i :| IsEdit(w.edits, i) && w.edits.commits[i].entry == id;
      EntryOfCommit(init, w, i);
      EntryOfCommit(init, w, last.value);
    }
    if last.Some? {
      EntryOfCommit(init, w, last.value);
    }
  }

  /** Entries of the whole log: the edits' and the creation's one. */
  lemma NamersOfLog(init: Versioned<FieldReportRow>, w: World)
    requires Fine(init, w)
    ensures forall id :: NamesField(Log(w), id, Summary) <==>
              NamesField(w.edits.entries, id, Summary) || w.creator.logged == Some(id)
    ensures w.creator.logged.Some? ==>
              && w.creator.summary.Some? && w.creator.logged.value !in w.edits.entries
              && NamesField(Log(w), w.creator.logged.value, Summary)
              && LastValue(Log(w)[w.creator.logged.value].changes, Summary) == Text(w.creator.summary.value)
    ensures forall id :: id in w.edits.entries ==> Log(w)[id] == w.edits.entries[id]
  {
    if w.creator.logged.Some? {
      assert IsOwn(w.edits, w.creator.logged.value);
      assert Lines(Edit(w.creator.summary))[0].field == Summary;
    }
    forall id | id in w.own ensures id !in w.edits.entries {
      assert IsOwn(w.edits, id);
    }
  }

  /** The row holds what the last summary edit asked for, and before any the created summary. */
  lemma RowHoldsLastEdit(who: ReqId, summary: Option<string>, notes: seq<string>, run: seq<Event>, w: World)
    requires Reached(who, summary, notes, run, w) && w.edits.row.Some?
    ensures var last := LastSummaryEdit(w.edits.commits, |w.edits.commits|);
            TextOf(w.edits.row.value.data.summary)
            == if last.Some? then w.edits.commits[last.value].patch.summary.value else summary.GetOr("")
  {
    ReachedIsFine(who, summary, notes, run, w);
    LatestOfEdits(NewRow(summary), w);
    var last := LastSummaryEdit(w.edits.commits, |w.edits.commits|);
    if last.Some? {
      EntryOfCommit(NewRow(summary), w, last.value);
      var id := w.edits.commits[last.value].entry;
      assert IsLatest(w.edits.entries, id);
      AttachmentsNeverUndoEdits(NewRow(summary), EditsOf(run), w.edits, id);
    } else {
      FieldReportLaws();
      UnloggedFieldIsInitial(FIELD_REPORT_KIND, NewRow(summary), EditsOf(run), w.edits, Show, {Summary}, Summary);
    }
  }

  /** Some summary edit drew its entry's id before the creation drew its own, none did after, and the last
      of them asked for another summary than the report was created with. */
  ghost predicate CreationLoggedLate(w: World) {
    var last := LastSummaryEdit(w.edits.commits, |w.edits.commits|);
    && w.creator.logged.Some? && last.Some?
    && w.edits.commits[last.value].entry < w.creator.logged.value
    && w.edits.commits[last.value].patch.summary != w.creator.summary
  }

  /**
   * In every interleaving of a creation, edits, attachments and detachments: the latest entry naming the
   * summary holds it, unless the creation logged its own summary after the last edit of it had logged
   * another one. Exactly then the log is wrong about the row.
   */
  lemma LogTellsSummaryIff(who: ReqId, summary: Option<string>, notes: seq<string>, run: seq<Event>, w: World)
    requires Reached(who, summary, notes, run, w) && w.edits.row.Some?
    ensures LogTellsSummary(w) <==> !CreationLoggedLate(w)
  {
    hide Fine, Reached, Reaches, LastValue, LastSummaryEdit, IsLatest, Log;
    ReachedIsFine(who, summary, notes, run, w);
    RowHoldsLastEdit(who, summary, notes, run, w);
    NamersOfLog(NewRow(summary), w);
    LatestOfEdits(NewRow(summary), w);
    var last := LastSummaryEdit(w.edits.commits, |w.edits.commits|);
    if last.Some? {
      EntryOfCommit(NewRow(summary), w, last.value);
    }
    LatestOfWhole(w, last);
    if CreationLoggedLate(w) {
      assert IsLatest(Log(w), w.creator.logged.value);
    }
  }

  /** The latest of the two candidates is the latest of all. */
  lemma LatestOfWhole(w: World, last: Option<nat>)
    requires last.Some? ==> last.value < |w.edits.commits|
    requires forall id :: NamesField(Log(w), id, Summary) <==>
               NamesField(w.edits.entries, id, Summary) || w.creator.logged == Some(id)
    requires forall id: nat :: IsLatest(w.edits.entries, id) <==> last.Some? && id == w.edits.commits[last.value].entry
    requires last.None? ==> forall id :: !NamesField(w.edits.entries, id, Summary)
    ensures forall id: nat :: IsLatest(Log(w), id) ==> NamesField(Log(w), id, Summary)
    ensures forall id: nat :: IsLatest(Log(w), id) <==>
              if w.creator.logged.Some? && (last.Some? ==> w.edits.commits[last.value].entry < w.creator.logged.value)
              then id == w.creator.logged.value
              else last.Some? && id == w.edits.commits[last.value].entry
  {
    if last.Some? {
      assert IsLatest(w.edits.entries, w.edits.commits[last.value].entry);
    }
  }

  /** Every change log on the report was written by a committed edit, each of which wrote one, or is the
      one of the creation. */
  lemma EveryLogHasItsWriter(who: ReqId, summary: Option<string>, notes: seq<string>, run: seq<Event>, w: World,
      id: nat)
    requires Reached(who, summary, notes, run, w) && w.edits.row.Some?
    requires id in Log(w) && Log(w)[id].ChangeLog?
    ensures w.creator.logged == Some(id) <==> !(exists i :: IsEdit(w.edits, i) && w.edits.commits[i].entry == id)
    ensures w.creator.logged == Some(id) ==> Log(w)[id] == ChangeLog(w.creator.who, Lines(Edit(summary)))
  {
    ReachedIsFine(who, summary, notes, run, w);
    NamersOfLog(NewRow(summary), w);
    if id in w.own {
      assert w.creator.logged == Some(id) && id !in w.edits.entries;
      forall i | IsEdit(w.edits, i) ensures w.edits.commits[i].entry in w.edits.entries {
        assert Logged(FIELD_REPORT_KIND, NewRow(summary).data, w.edits, i);
      }
    } else {
      assert Written(w.edits, id);
    }
  }
}
