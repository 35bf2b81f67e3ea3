/** The main results about the edit protocol, for every kind of record and every run. */
module EditTheorems {
  import opened Base
  import opened Retry
  import opened EditProtocol
  import opened EditProofs
  import opened EditHistory
  import opened EditAudit

  ghost predicate Good<Row, Patch>(kind: Kind<Row, Patch>, init: Versioned<Row>, s: System<Row, Patch>) {
    Inv(kind, init, s) && HistoryInv(s) && AuditInv(kind, init.data, s)
  }

  lemma {:induction false} RunStaysGood<Row(!new), Patch(!new)>(
    kind: Kind<Row, Patch>, init: Versioned<Row>, s: System<Row, Patch>, run: seq<Action<Patch>>)
    requires Honest(kind) && Good(kind, init, s) && Legal(kind, s, run)
    ensures Good(kind, init, After(kind, s, run))
    decreases |run|
  {
    if run != [] {
      StepKeepsInv(kind, init, s, run[0]);
      StepKeepsHistory(kind, init, s, run[0]);
      StepKeepsAudit(kind, init, s, run[0]);
      RunStaysGood(kind, init, Step(kind, s, run[0]), run[1..]);
    }
  }

  /** A run of the protocol on a record stored as `init`. */
  ghost predicate Reaches<Row(!new), Patch(!new)>(
    kind: Kind<Row, Patch>, init: Versioned<Row>, run: seq<Action<Patch>>, s: System<Row, Patch>)
  {
    Legal(kind, Initial(init), run) && After(kind, Initial(init), run) == s
  }

  lemma ReachedIsGood<Row(!new), Patch(!new)>(
    kind: Kind<Row, Patch>, init: Versioned<Row>, run: seq<Action<Patch>>, s: System<Row, Patch>)
    requires Honest(kind) && Reaches(kind, init, run, s)
    ensures Good(kind, init, s)
  {
    InvInitial(kind, init);
    RunStaysGood(kind, init, Initial(init), run);
  }

  /** Serial equivalence: whatever the interleaving, the stored row is the committed requests merged
      one after another in commit order, each accepted at its turn, and the version counts them. */
  lemma EditsAreSerial<Row(!new), Patch(!new)>(
    kind: Kind<Row, Patch>, init: Versioned<Row>, run: seq<Action<Patch>>, s: System<Row, Patch>)
    requires Honest(kind) && Reaches(kind, init, run, s)
    ensures Accepted(kind, init, s.commits)
    ensures s.row.Some? ==> s.row.value.data == Serial(kind, init.data, s.commits, |s.commits|)
    ensures s.row.Some? ==> s.row.value.version - init.version == |s.commits|
  {
    ReachedIsGood(kind, init, run, s);
  }

  /** A request is answered 409 only if at least three writes of other requests to the same record
      committed after it arrived. */
  lemma ConflictNeedsRivals<Row(!new), Patch(!new)>(
    kind: Kind<Row, Patch>, init: Versioned<Row>, run: seq<Action<Patch>>, s: System<Row, Patch>, c: ReqId)
    requires Honest(kind) && Reaches(kind, init, run, s)
    requires c in s.clients && s.clients[c].progress == Answered(Conflict)
    ensures s.clients[c].since + MAX_CAS_ATTEMPTS <= |s.commits|
    ensures forall i :: 0 <= i < |s.commits| ==> s.commits[i].who != Some(c)
  {
    ReachedIsGood(kind, init, run, s);
    assert ClientInv(kind, init, s, c, s.clients[c]);
  }

  lemma {:induction false} DistinctCountsOnce(ids: seq<ReqId>, c: ReqId)
    requires forall i, j :: 0 <= i < j < |ids| ==> ids[i] != ids[j]
    ensures multiset(ids)[c] == if c in ids then 1 else 0
  {
    if ids != [] {
      var n := |ids| - 1;
      assert ids == ids[..n] + [ids[n]];
      DistinctCountsOnce(ids[..n], c);
    }
  }

  /** While the record exists, its change-log entries are those of the committed edits, one each, and
      their ids are in commit order. */
  lemma OneLogEntryPerCommittedEdit<Row(!new), Patch(!new)>(
    kind: Kind<Row, Patch>, init: Versioned<Row>, run: seq<Action<Patch>>, s: System<Row, Patch>)
    requires Honest(kind) && Reaches(kind, init, run, s) && s.row.Some?
    ensures forall i :: IsEdit(s, i) ==>
              s.commits[i].entry in s.entries &&
              s.entries[s.commits[i].entry] == ChangeLog(s.commits[i].who.value, LogOf(kind, init.data, s.commits, i))
    ensures forall i, j :: IsEdit(s, i) && IsEdit(s, j) && i < j ==> s.commits[i].entry < s.commits[j].entry
    ensures forall id :: id in s.entries && s.entries[id].ChangeLog? ==>
        exists i :: IsEdit(s, i) && s.commits[i].entry == id
  {
    ReachedIsGood(kind, init, run, s);
    forall i | IsEdit(s, i)
      ensures s.commits[i].entry in s.entries
      ensures s.entries[s.commits[i].entry] == ChangeLog(s.commits[i].who.value, LogOf(kind, init.data, s.commits, i))
    {
      assert Logged(kind, init.data, s, i);
    }
    forall id | id in s.entries && s.entries[id].ChangeLog? ensures exists i ::
        IsEdit(s, i) && s.commits[i].entry == id {
      assert Written(s, id);
    }
  }

  ghost predicate NamesField(entries: map<nat, Entry>, id: int, field: Field) {
    id in entries && entries[id].ChangeLog? && Names(entries[id].changes, field)
  }

  /** If no entry beyond `id` names the field, no commit beyond the one that wrote it does. */
  lemma LaterCommitIsSilent<Row(!new), Patch(!new)>(
    kind: Kind<Row, Patch>, init: Versioned<Row>, s: System<Row, Patch>, field: Field, j: nat)
    requires Good(kind, init, s) && DirectIsSilent(kind) && s.row.Some?
    requires j < |s.commits|
    requires IsEdit(s, j) ==> !NamesField(s.entries, s.commits[j].entry, field)
    ensures !Names(LogOf(kind, init.data, s.commits, j), field)
  {
    assert AcceptedAt(kind, init.data, s.commits, j);
    assert Logged(kind, init.data, s, j);
  }

  /** The commit that wrote an entry, if no later entry names the field, is the last to set it. */
  lemma LatestEntryIsOfLastSetter<Row(!new), Patch(!new)>(
    kind: Kind<Row, Patch>, init: Versioned<Row>, s: System<Row, Patch>, field: Field, id: nat) returns (i: nat)
    requires Good(kind, init, s) && DirectIsSilent(kind) && s.row.Some?
    requires NamesField(s.entries, id, field)
    requires forall later :: NamesField(s.entries, later, field) ==> later <= id
    ensures IsEdit(s, i) && s.entries[id].changes == LogOf(kind, init.data, s.commits, i)
    ensures forall j :: i < j < |s.commits| ==> !Names(LogOf(kind, init.data, s.commits, j), field)
  {
    assert Written(s, id);
    i :| IsEdit(s, i) && s.commits[i].entry == id;
    assert Logged(kind, init.data, s, i);
    hide Inv, HistoryInv, IdsInv;
    forall j | i < j < |s.commits| ensures !Names(LogOf(kind, init.data, s.commits, j), field) {
      LaterCommitIsSilent(kind, init, s, field, j);
    }
  }

  /** The audit log determines the row: the latest change-log entry naming a field holds its value. */
  lemma AuditDeterminesRow<Row(!new), Patch(!new)>(
    kind: Kind<Row, Patch>, init: Versioned<Row>, run: seq<Action<Patch>>, s: System<Row, Patch>,
    show: (Row, Field) -> Value, fields: set<Field>, field: Field, id: nat)
    requires Honest(kind) && SetsWhatItLogs(kind, show, fields) && DirectIsSilent(kind) && field in fields
    requires Reaches(kind, init, run, s) && s.row.Some?
    requires NamesField(s.entries, id, field)
    requires forall later :: NamesField(s.entries, later, field) ==> later <= id
    ensures show(s.row.value.data, field) == LastValue(s.entries[id].changes, field)
  {
    hide Good, Reaches, Honest, DirectIsSilent, SetsWhatItLogs, LastValue, Serial, LogOf, AcceptedAt;
    ReachedIsGood(kind, init, run, s);
    EditsAreSerial(kind, init, run, s);
    var i := LatestEntryIsOfLastSetter(kind, init, s, field, id);
    UntouchedFieldStays(kind, init.data, s.commits, show, fields, field, i + 1, |s.commits|);
    LoggedFieldShows(kind, init.data, s.commits, show, fields, field, i);
  }

  /** Right after a commit that names a field, the row shows what its log says. */
  lemma LoggedFieldShows<Row(!new), Patch(!new)>(
    kind: Kind<Row, Patch>, init: Row, commits: seq<Commit<Patch>>, show: (Row, Field) -> Value, fields: set<Field>,
    field: Field, i: nat)
    requires SetsWhatItLogs(kind, show, fields) && field in fields && i < |commits|
    requires AcceptedAt(kind, init, commits, i) && Names(LogOf(kind, init, commits, i), field)
    ensures show(Serial(kind, init, commits, i + 1), field) == LastValue(LogOf(kind, init, commits, i), field)
  {
    var before := Serial(kind, init, commits, i);
    assert MergeShows(show, before, kind.build(before, commits[i].patch, commits[i].now), field);
    hide LastValue, Names;
  }

  /** A field no change-log entry names still has its initial value. */
  lemma UnloggedFieldIsInitial<Row(!new), Patch(!new)>(
    kind: Kind<Row, Patch>, init: Versioned<Row>, run: seq<Action<Patch>>, s: System<Row, Patch>,
    show: (Row, Field) -> Value, fields: set<Field>, field: Field)
    requires Honest(kind) && SetsWhatItLogs(kind, show, fields) && DirectIsSilent(kind) && field in fields
    requires Reaches(kind, init, run, s) && s.row.Some?
    requires forall id :: !NamesField(s.entries, id, field)
    ensures show(s.row.value.data, field) == show(init.data, field)
  {
    ReachedIsGood(kind, init, run, s);
    forall j | 0 <= j < |s.commits| ensures !Names(LogOf(kind, init.data, s.commits, j), field) {
      LaterCommitIsSilent(kind, init, s, field, j);
    }
    UntouchedFieldStays(kind, init.data, s.commits, show, fields, field, 0, |s.commits|);
  }

  lemma {:induction false} SerialKeeps<Row(!new), Patch(!new)>(
    kind: Kind<Row, Patch>, init: Row, commits: seq<Commit<Patch>>, n: nat, ok: Row -> bool)
    requires n <= |commits| && ok(init)
    requires forall row, p, t :: ok(row) && kind.build(row, p, t).Merge? ==> ok(kind.build(row, p, t).row)
    ensures ok(Serial(kind, init, commits, n))
  {
    if n > 0 {
      SerialKeeps(kind, init, commits, n - 1, ok);
    }
  }

  /** A row property that every single merge keeps holds of the stored row in every run. */
  lemma RowInvariant<Row(!new), Patch(!new)>(
    kind: Kind<Row, Patch>, init: Versioned<Row>, run: seq<Action<Patch>>, s: System<Row, Patch>, ok: Row -> bool)
    requires Honest(kind) && Reaches(kind, init, run, s) && ok(init.data)
    requires forall row, p, t :: ok(row) && kind.build(row, p, t).Merge? ==> ok(kind.build(row, p, t).row)
    ensures s.row.Some? ==> ok(s.row.value.data)
  {
    EditsAreSerial(kind, init, run, s);
    SerialKeeps(kind, init.data, s.commits, |s.commits|, ok);
  }
}
