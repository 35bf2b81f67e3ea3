/** Field Reports as records of the edit protocol (api/fieldreport.go). */
module FieldReport {
  import opened Base
  import opened EditProtocol
  import opened EditProofs
  import opened EditAudit
  import opened EditTheorems
  import opened Changes
  import opened Retry
  import EditAlone
  import EditAnswers
  import EditHistory

  datatype FieldReportRow = FieldReportRow(summary: NullText, incident: Option<int>)

  /** An edit sets the summary, or nothing. Attaching to an Incident is a single UPDATE of its own. */
  datatype FieldReportPatch = Edit(summary: Option<string>) | Attach(incident: Option<int>)

  function Merged(stored: FieldReportRow, p: FieldReportPatch): FieldReportRow {
    match p
    case Edit(summary) => stored.(summary := Overwrite(stored.summary, summary))
    case Attach(incident) => stored.(incident := incident)
  }

  function Lines(p: FieldReportPatch): seq<Change> {
    match p
    case Edit(Some(s)) => [Change(Summary, Text(s))]
    case _ => []
  }

  /** The stored report is overwritten and written back, its attachment as it was read. */
  method BuildFieldReportUpdate(stored: FieldReportRow, summary: Option<string>)
    returns (update: FieldReportRow, logs: seq<Change>)
    ensures update == Merged(stored, Edit(summary)) && logs == Lines(Edit(summary))
    ensures update.incident == stored.incident
    ensures summary.Some? ==> TextOf(update.summary) == summary.value
    ensures summary.None? ==> update == stored && logs == []
  {
    update, logs := stored, [];
    if summary.Some? {
      update := update.(summary := StringToSql(summary.value));
      logs := logs + [Change(Summary, Text(summary.value))];
    }
  }

  const FIELD_REPORT_KIND: Kind<FieldReportRow, FieldReportPatch> :=
    Kind((stored, p, _) => Merge(Merged(stored, p), Lines(p)), (p: FieldReportPatch) => p.Attach?)

  function Show(row: FieldReportRow, field: Field): Value {
    if field == Summary then Text(TextOf(row.summary)) else Text("")
  }

  lemma FieldReportLaws()
    ensures Honest(FIELD_REPORT_KIND) && DirectIsSilent(FIELD_REPORT_KIND)
    ensures SetsWhatItLogs(FIELD_REPORT_KIND, Show, {Summary})
  {
    forall row, p, t, f | f in {Summary}
      ensures MergeShows(Show, row, FIELD_REPORT_KIND.build(row, p, t), f)
    {
      if p.Edit? && p.summary.Some? {
        assert Lines(p)[0].field == Summary;
      }
    }
  }

  type Edits = System<FieldReportRow, FieldReportPatch>

  /** The incident the first n commits leave the report attached to. */
  function AttachedTo(init: Option<int>, commits: seq<Commit<FieldReportPatch>>, n: nat): Option<int>
    requires n <= |commits|
  {
    if n == 0 then init
    else if commits[n - 1].patch.Attach? then commits[n - 1].patch.incident
    else AttachedTo(init, commits, n - 1)
  }

  lemma {:induction false} SerialAttachment(init: FieldReportRow, commits: seq<Commit<FieldReportPatch>>, n: nat)
    requires n <= |commits|
    ensures Serial(FIELD_REPORT_KIND, init, commits, n).incident == AttachedTo(init.incident, commits, n)
  {
    if n > 0 {
      SerialAttachment(init, commits, n - 1);
    }
  }

  /** A summary edit writes the attachment column back too, yet it never undoes a concurrent attach:
      the report stays attached where the last attach or detach put it. */
  lemma EditsNeverUndoAttachments(
    init: Versioned<FieldReportRow>, run: seq<Action<FieldReportPatch>>, s: Edits)
    requires Reaches(FIELD_REPORT_KIND, init, run, s)
    ensures s.row.Some? ==> s.row.value.data.incident == AttachedTo(init.data.incident, s.commits, |s.commits|)
  {
    FieldReportLaws();
    EditsAreSerial(FIELD_REPORT_KIND, init, run, s);
    SerialAttachment(init.data, s.commits, |s.commits|);
  }

  /** And an attach never undoes a summary edit: the latest log entry still holds the summary. */
  lemma AttachmentsNeverUndoEdits(
    init: Versioned<FieldReportRow>, run: seq<Action<FieldReportPatch>>, s: Edits, id: nat)
    requires Reaches(FIELD_REPORT_KIND, init, run, s) && s.row.Some?
    requires NamesField(s.entries, id, Summary)
    requires forall later :: NamesField(s.entries, later, Summary) ==> later <= id
    ensures Text(TextOf(s.row.value.data.summary)) == LastValue(s.entries[id].changes, Summary)
  {
    FieldReportLaws();
    AuditDeterminesRow(FIELD_REPORT_KIND, init, run, s, Show, {Summary}, Summary, id);
  }

  /** A summary edit that was told of success has committed; a 404 or a 400 comes of a report that is gone, or
      of a statement that failed. */
  lemma SuccessMeansCommitted(init: Versioned<FieldReportRow>, run: seq<Action<FieldReportPatch>>, s: Edits, c: ReqId)
    requires Reaches(FIELD_REPORT_KIND, init, run, s) && c in s.clients && s.clients[c].progress.Answered?
    ensures s.clients[c].progress.answer == Done && s.clients[c].patch.Edit? && s.clients[c].patch.summary.Some? ==>
              EditAnswers.CommittedBy(s.commits, c, s.clients[c].patch)
    ensures s.clients[c].progress.answer in {NotFound, BadRequest} ==>
              (s.row.None? && s.clients[c].progress.answer == NotFound)
              || EditAnswers.StatementFailed(run, c, s.clients[c].progress.answer)
  {
    FieldReportLaws();
    hide Reaches, EditAnswers.CommittedBy, EditAnswers.StatementFailed;
    EditAnswers.AnswersAreDeserved(FIELD_REPORT_KIND, init, run, s, c);
  }

  /** A report that nobody is writing is attached where a request says, or detached; its summary stays. */
  lemma AttachAloneIsSet(s: Edits, incident: Option<int>, now: Time)
    requires s.row.Some? && s.lock == None
    ensures var a := DirectWrite(Attach(incident), now);
            && Enabled(FIELD_REPORT_KIND, s, a)
            && var t := Step(FIELD_REPORT_KIND, s, a);
            && t.row == Some(Versioned(s.row.value.version + 1, FieldReportRow(s.row.value.data.summary, incident)))
            && t == s.(row := t.row, commits := t.commits)
  {
    assert FIELD_REPORT_KIND.direct(Attach(incident));
  }

  /** An edit that meets no other sets the summary, keeps the attachment and is told of success. */
  lemma EditAloneSetsTheSummary(s: Edits, c: ReqId, summary: string, notes: seq<string>, now: Time) returns (t: Edits)
    requires c !in s.clients && s.row.Some? && s.lock == None
    ensures var run := EditAlone.Alone(c, Edit(Some(summary)), notes, now, Lines(Edit(Some(summary))));
            Legal(FIELD_REPORT_KIND, s, run) && After(FIELD_REPORT_KIND, s, run) == t
    ensures EditHistory.ToldDone(t, c) && t.published == s.published + [c]
    ensures t.row.Some? && t.row.value.version == s.row.value.version + 1
    ensures TextOf(t.row.value.data.summary) == summary && t.row.value.data.incident == s.row.value.data.incident
  {
    hide Legal, After, EditHistory.ToldDone, EditAlone.Alone, Plan, AddEntries;
    t := EditAlone.AloneGetsThrough(FIELD_REPORT_KIND, s, c, Edit(Some(summary)), notes, now);
  }
}
