/** The generated report entries: one per committed edit, in commit order, and enough to tell the row. */
module EditAudit {
  import opened Base
  import opened Retry
  import opened EditProtocol
  import opened EditProofs

  function Staged<Row, Patch>(cl: Client<Row, Patch>): seq<nat> {
    if cl.phase.Writing? then cl.phase.work.staged else []
  }

  // ----- Report entry ids -----

  /** Ids in use are below the counter; those of an open transaction are increasing, not yet
      committed, and its own. */
  ghost predicate IdsInv<Row, Patch>(s: System<Row, Patch>) {
    && (forall id :: id in s.entries ==> id < s.nextId)
    && (forall c :: c in s.clients ==> OwnIds(s.nextId, s.entries.Keys, Staged(s.clients[c])))
    && (forall c, d :: c in s.clients && d in s.clients && c != d ==>
        Disjoint(Staged(s.clients[c]), Staged(s.clients[d])))
  }

  ghost predicate OwnIds(nextId: nat, taken: set<nat>, ids: seq<nat>) {
    && (forall k :: 0 <= k < |ids| ==> ids[k] < nextId && ids[k] !in taken)
    && (forall j, k :: 0 <= j < k < |ids| ==> ids[j] < ids[k])
  }

  ghost predicate Disjoint(a: seq<nat>, b: seq<nat>) {
    forall j, k :: 0 <= j < |a| && 0 <= k < |b| ==> a[j] != b[k]
  }

  lemma {:induction false} AddEntriesAdds(entries: map<nat, Entry>, ids: seq<nat>, plan: seq<Entry>)
    requires |ids| == |plan|
    requires forall j, k :: 0 <= j < k < |ids| ==> ids[j] < ids[k]
    ensures forall k :: 0 <= k < |ids| ==>
        ids[k] in AddEntries(entries, ids, plan) && AddEntries(entries, ids, plan)[ids[k]] == plan[k]
    ensures forall id :: id in entries && id !in ids ==>
        id in AddEntries(entries, ids, plan) && AddEntries(entries, ids, plan)[id] == entries[id]
    ensures forall id :: id in AddEntries(entries, ids, plan) ==> id in entries || id in ids
  {
    if ids != [] {
      var n := |ids| - 1;
      AddEntriesAdds(entries, ids[..n], plan[..n]);
      assert ids == ids[..n] + [ids[n]];
    }
  }

  /** Rolling back, or any step in which no staged list grows, keeps the ids in order. */
  lemma FewerIdsKeepIds<Row, Patch>(s: System<Row, Patch>, t: System<Row, Patch>)
    requires IdsInv(s)
    requires t.nextId >= s.nextId && t.entries.Keys <= s.entries.Keys
    requires forall c :: c in t.clients ==>
               Staged(t.clients[c]) == [] || (c in s.clients && Staged(t.clients[c]) == Staged(s.clients[c]))
    ensures IdsInv(t)
  {
    forall c | c in t.clients ensures OwnIds(t.nextId, t.entries.Keys, Staged(t.clients[c])) {
      assert c in s.clients ==> OwnIds(s.nextId, s.entries.Keys, Staged(s.clients[c]));
    }
  }

  lemma NextIdIsFree(nextId: nat, taken: set<nat>, ids: seq<nat>)
    requires OwnIds(nextId, taken, ids) && nextId !in taken
    ensures OwnIds(nextId + 1, taken, ids) && OwnIds(nextId + 1, taken, ids + [nextId])
    ensures nextId !in ids
  {
  }

  lemma StaysDisjoint(a: seq<nat>, b: seq<nat>, id: nat)
    requires Disjoint(a, b) && id !in a
    ensures Disjoint(a, b + [id]) && Disjoint(b + [id], a)
  {
  }

  lemma InsertKeepsIds<Row, Patch>(s: System<Row, Patch>, c: ReqId)
    requires IdsInv(s) && CanInsert(s, c)
    ensures IdsInv(StepInsert(s, c))
  {
    var t := StepInsert(s, c);
    var ids := Staged(s.clients[c]);
    assert Staged(t.clients[c]) == ids + [s.nextId];
    assert s.nextId !in s.entries.Keys;
    assert OwnIds(s.nextId, s.entries.Keys, ids);
    NextIdIsFree(s.nextId, s.entries.Keys, ids);
    hide OwnIds, Disjoint, Plan;
    forall d | d in t.clients && d != c
      ensures OwnIds(t.nextId, t.entries.Keys, Staged(t.clients[d]))
      ensures Disjoint(Staged(t.clients[d]), ids + [s.nextId])
      ensures Disjoint(ids + [s.nextId], Staged(t.clients[d]))
    {
      assert OwnIds(s.nextId, s.entries.Keys, Staged(s.clients[d]));
      assert Disjoint(Staged(s.clients[d]), ids);
      NextIdIsFree(s.nextId, s.entries.Keys, Staged(s.clients[d]));
      StaysDisjoint(Staged(s.clients[d]), ids, s.nextId);
    }
  }

  /** Committing one transaction's ids takes none of another's. */
  lemma OthersKeepTheirIds(nextId: nat, before: set<nat>, after: set<nat>, committed: seq<nat>, ids: seq<nat>)
    requires OwnIds(nextId, before, ids) && Disjoint(ids, committed)
    requires forall id :: id in after ==> id in before || id in committed
    ensures OwnIds(nextId, after, ids)
  {
  }

  lemma CommitKeepsOwnIds<Row, Patch>(s: System<Row, Patch>, c: ReqId, d: ReqId)
    requires IdsInv(s) && CanCommit(s, c) && d in s.clients
    ensures var t := StepCommit(s, c);
            d in t.clients && OwnIds(t.nextId, t.entries.Keys, Staged(t.clients[d]))
  {
    var cl := s.clients[c];
    var ids := Staged(cl);
    assert OwnIds(s.nextId, s.entries.Keys, ids);
    assert OwnIds(s.nextId, s.entries.Keys, Staged(s.clients[d]));
    AddEntriesAdds(s.entries, ids, Plan(c, cl.phase.work.changes, cl.notes));
    if d != c {
      assert Disjoint(Staged(s.clients[d]), ids);
      OthersKeepTheirIds(s.nextId, s.entries.Keys, StepCommit(s, c).entries.Keys, ids, Staged(s.clients[d]));
    }
  }

  lemma CommitKeepsIds<Row, Patch>(s: System<Row, Patch>, c: ReqId)
    requires IdsInv(s) && CanCommit(s, c)
    ensures IdsInv(StepCommit(s, c))
  {
    var cl := s.clients[c];
    var t := StepCommit(s, c);
    assert OwnIds(s.nextId, s.entries.Keys, Staged(cl));
    AddEntriesAdds(s.entries, Staged(cl), Plan(c, cl.phase.work.changes, cl.notes));
    assert forall id :: id in t.entries ==> id < t.nextId;
    assert Staged(t.clients[c]) == [] && Disjoint([], []);
    hide OwnIds, AddEntries, Plan;
    forall d | d in t.clients ensures OwnIds(t.nextId, t.entries.Keys, Staged(t.clients[d])) {
      CommitKeepsOwnIds(s, c, d);
    }
  }

  // ----- One change-log entry per committed edit, in commit order -----

  ghost predicate IsEdit<Row, Patch>(s: System<Row, Patch>, i: int) {
    0 <= i < |s.commits| && s.commits[i].who.Some?
  }

  /** The change-log entry of the i-th commit is committed with it and says what it changed. */
  ghost predicate Logged<Row, Patch>(kind: Kind<Row, Patch>, init: Row, s: System<Row, Patch>, i: nat)
    requires i < |s.commits|
  {
    var commit := s.commits[i];
    commit.who.Some? ==>
      commit.entry in s.entries &&
          s.entries[commit.entry] == ChangeLog(commit.who.value, LogOf(kind, init, s.commits, i))
  }

  /** Some committed edit wrote the entry with this id. */
  ghost predicate Written<Row, Patch>(s: System<Row, Patch>, id: nat) {
    exists i :: IsEdit(s, i) && s.commits[i].entry == id
  }

  ghost predicate LogInv<Row, Patch>(kind: Kind<Row, Patch>, init: Row, s: System<Row, Patch>) {
    && (forall i :: IsEdit(s, i) ==> s.commits[i].entry < s.nextId)
    && (forall i, j :: IsEdit(s, i) && IsEdit(s, j) && i < j ==> s.commits[i].entry < s.commits[j].entry)
    && (s.row.Some? ==> forall i :: 0 <= i < |s.commits| ==> Logged(kind, init, s, i))
    && (forall id :: id in s.entries && s.entries[id].ChangeLog? ==> Written(s, id))
    && (s.lock.Some? && s.lock.value in s.clients && Staged(s.clients[s.lock.value]) != [] ==>
          forall i :: IsEdit(s, i) ==> s.commits[i].entry < Staged(s.clients[s.lock.value])[0])
  }

  ghost predicate AuditInv<Row, Patch>(kind: Kind<Row, Patch>, init: Row, s: System<Row, Patch>) {
    IdsInv(s) && LogInv(kind, init, s)
  }

  /** A step that commits nothing and stages nothing under the row lock keeps the log. */
  lemma QuietKeepsAudit<Row, Patch>(kind: Kind<Row, Patch>, init: Row, s: System<Row, Patch>, t: System<Row, Patch>)
    requires AuditInv(kind, init, s)
    requires t.commits == s.commits && t.nextId >= s.nextId
    requires t.entries == s.entries || (t.entries == map[] && t.row.None?)
    requires t.row == s.row || t.row.None?
    requires forall c :: c in t.clients ==>
               Staged(t.clients[c]) == [] || (c in s.clients && Staged(t.clients[c]) == Staged(s.clients[c]))
    requires t.lock.Some? ==> t.lock == s.lock || (t.lock.value in t.clients && Staged(t.clients[t.lock.value]) == [])
    ensures AuditInv(kind, init, t)
  {
    FewerIdsKeepIds(s, t);
    forall i | IsEdit(t, i) ensures IsEdit(s, i) {}
    forall i | IsEdit(s, i) ensures IsEdit(t, i) {}
    forall id | id in t.entries && t.entries[id].ChangeLog? ensures Written(t, id) {
      assert Written(s, id);
      var i :| IsEdit(s, i) && s.commits[i].entry == id;
      assert IsEdit(t, i);
    }
    if t.row.Some? {
      forall i | 0 <= i < |t.commits| ensures Logged(kind, init, t, i) {
        assert Logged(kind, init, s, i);
      }
    }
  }

  lemma InsertKeepsAudit<Row, Patch>(kind: Kind<Row, Patch>, init: Row, s: System<Row, Patch>, c: ReqId)
    requires AuditInv(kind, init, s) && CanInsert(s, c)
    ensures AuditInv(kind, init, StepInsert(s, c))
  {
    InsertKeepsIds(s, c);
    var t := StepInsert(s, c);
    forall i | IsEdit(t, i) ensures IsEdit(s, i) {}
    forall id | id in t.entries && t.entries[id].ChangeLog? ensures Written(t, id) {
      assert Written(s, id);
      var i :| IsEdit(s, i) && s.commits[i].entry == id;
      assert IsEdit(t, i);
    }
    if t.row.Some? {
      forall i | 0 <= i < |t.commits| ensures Logged(kind, init, t, i) {
        assert Logged(kind, init, s, i);
      }
    }
  }

  /** A commit without field changes adds notes only. */
  lemma NotesKeepAudit<Row, Patch>(kind: Kind<Row, Patch>, init: Row, s: System<Row, Patch>, c: ReqId)
    requires AuditInv(kind, init, s) && CanCommit(s, c) && s.clients[c].phase.work.changes == []
    requires s.lock != Some(c)
    ensures AuditInv(kind, init, StepCommit(s, c))
  {
    CommitKeepsIds(s, c);
    var cl := s.clients[c];
    var t := StepCommit(s, c);
    assert OwnIds(s.nextId, s.entries.Keys, Staged(cl));
    AddEntriesAdds(s.entries, Staged(cl), Plan(c, [], cl.notes));
    forall i | IsEdit(t, i) ensures IsEdit(s, i) {}
    forall id | id in t.entries && t.entries[id].ChangeLog? ensures Written(t, id) {
      assert id !in Staged(cl);
      assert Written(s, id);
      var i :| IsEdit(s, i) && s.commits[i].entry == id;
      assert IsEdit(t, i);
    }
    if t.row.Some? {
      forall i | 0 <= i < |t.commits| ensures Logged(kind, init, t, i) {
        assert Logged(kind, init, s, i);
      }
    }
  }

  /** Appending to the history keeps what was logged for the commits before. */
  lemma LoggedStays<Row, Patch>(
    kind: Kind<Row, Patch>, init: Row, s: System<Row, Patch>, t: System<Row, Patch>, commit: Commit<Patch>, i: nat)
    requires i < |s.commits| && Logged(kind, init, s, i)
    requires t.commits == s.commits + [commit]
    requires forall id :: id in s.entries ==> id in t.entries && t.entries[id] == s.entries[id]
    ensures Logged(kind, init, t, i)
  {
    SerialOfLonger(kind, init, s.commits, [commit], i);
  }

  /** The entries an edit commits: its own change log, its notes, and everything committed before. */
  lemma EditAddsItsLog<Row, Patch>(kind: Kind<Row, Patch>, init: Versioned<Row>, s: System<Row, Patch>, c: ReqId)
    requires IdsInv(s) && CanCommit(s, c) && s.clients[c].phase.work.changes != []
    ensures var ids := Staged(s.clients[c]);
            var t := StepCommit(s, c);
            && ids[0] in t.entries && t.entries[ids[0]] == ChangeLog(c, s.clients[c].phase.work.changes)
            && (forall id :: id in s.entries ==> id in t.entries && t.entries[id] == s.entries[id])
            && (forall id :: id in t.entries && t.entries[id].ChangeLog? ==> id == ids[0] || id in s.entries)
  {
    var cl := s.clients[c];
    var ids := Staged(cl);
    assert OwnIds(s.nextId, s.entries.Keys, ids);
    AddEntriesAdds(s.entries, ids, Plan(c, cl.phase.work.changes, cl.notes));
  }

  lemma EditIsLogged<Row, Patch>(kind: Kind<Row, Patch>, init: Versioned<Row>, s: System<Row, Patch>, c: ReqId, i: nat)
    requires Inv(kind, init, s) && AuditInv(kind, init.data, s)
    requires CanCommit(s, c) && s.clients[c].phase.work.changes != []
    requires i <= |s.commits|
    ensures Logged(kind, init.data, StepCommit(s, c), i)
  {
    var cl := s.clients[c];
    var commit := Commit(Some(c), cl.patch, cl.phase.work.now, Staged(cl)[0]);
    assert ClientInv(kind, init, s, c, cl);
    EditAddsItsLog(kind, init, s, c);
    if i < |s.commits| {
      assert Logged(kind, init.data, s, i);
      LoggedStays(kind, init.data, s, StepCommit(s, c), commit, i);
    } else {
      SerialOfLonger(kind, init.data, s.commits, [commit], i);
    }
  }

  /** Every change log in the table still has an edit that wrote it. */
  lemma EditAccountsForLogs<Row, Patch>(kind: Kind<Row, Patch>, init: Versioned<Row>, s: System<Row, Patch>, c: ReqId)
    requires IdsInv(s) && LogInv(kind, init.data, s)
    requires CanCommit(s, c) && s.clients[c].phase.work.changes != []
    ensures var t := StepCommit(s, c); forall id :: id in t.entries && t.entries[id].ChangeLog? ==> Written(t, id)
  {
    EditAddsItsLog(kind, init, s, c);
    var t := StepCommit(s, c);
    var n := |s.commits|;
    forall id | id in t.entries && t.entries[id].ChangeLog? ensures Written(t, id) {
      if id in s.entries {
        assert Written(s, id);
        var i :| IsEdit(s, i) && s.commits[i].entry == id;
        assert IsEdit(t, i);
      } else {
        assert IsEdit(t, n) && t.commits[n].entry == id;
      }
    }
  }

  /** Committing an edit adds its change log under an id larger than every earlier edit's. */
  lemma EditKeepsAudit<Row, Patch>(kind: Kind<Row, Patch>, init: Versioned<Row>, s: System<Row, Patch>, c: ReqId)
    requires Inv(kind, init, s) && AuditInv(kind, init.data, s)
    requires CanCommit(s, c) && s.clients[c].phase.work.changes != []
    ensures AuditInv(kind, init.data, StepCommit(s, c))
  {
    CommitKeepsIds(s, c);
    EditAccountsForLogs(kind, init, s, c);
    EditIdIsLargest(kind, init, s, c);
    var t := StepCommit(s, c);
    forall i | 0 <= i < |t.commits| ensures Logged(kind, init.data, t, i) {
      EditIsLogged(kind, init, s, c, i);
    }
    assert ClientInv(kind, init, s, c, s.clients[c]);
    assert t.lock.None?;
    hide StepCommit, CanCommit, Inv, IdsInv, Logged, Written, IsEdit;
  }

  lemma EditIdIsLargest<Row, Patch>(kind: Kind<Row, Patch>, init: Versioned<Row>, s: System<Row, Patch>, c: ReqId)
    requires Inv(kind, init, s) && AuditInv(kind, init.data, s)
    requires CanCommit(s, c) && s.clients[c].phase.work.changes != []
    ensures var t := StepCommit(s, c);
            && (forall i :: IsEdit(t, i) ==> t.commits[i].entry < t.nextId)
            && (forall i, j :: IsEdit(t, i) && IsEdit(t, j) && i < j ==> t.commits[i].entry < t.commits[j].entry)
  {
    assert ClientInv(kind, init, s, c, s.clients[c]);
    assert OwnIds(s.nextId, s.entries.Keys, Staged(s.clients[c]));
    var t := StepCommit(s, c);
    var n := |s.commits|;
    assert t.commits[n].entry == Staged(s.clients[c])[0];
    hide Inv, IdsInv, OwnIds, AddEntries, Serial, LogOf, Plan;
    forall i | IsEdit(t, i) ensures i == n || (IsEdit(s, i) && t.commits[i] == s.commits[i]) {}
  }

  lemma DirectKeepsAudit<Row, Patch>(
    kind: Kind<Row, Patch>, init: Row, s: System<Row, Patch>, patch: Patch, now: Time)
    requires AuditInv(kind, init, s) && CanWriteDirectly(kind, s, patch, now)
    ensures AuditInv(kind, init, StepDirect(kind, s, patch, now))
  {
    var t := StepDirect(kind, s, patch, now);
    FewerIdsKeepIds(s, t);
    forall i | IsEdit(t, i) ensures IsEdit(s, i) {}
    forall i | 0 <= i < |t.commits| ensures Logged(kind, init, t, i) {
      if i < |s.commits| {
        assert Logged(kind, init, s, i);
        LoggedStays(kind, init, s, t, Commit(None, patch, now, 0), i);
      }
    }
    forall id | id in t.entries && t.entries[id].ChangeLog? ensures Written(t, id) {
      assert Written(s, id);
      var i :| IsEdit(s, i) && s.commits[i].entry == id;
      assert IsEdit(t, i);
    }
  }

  lemma EndAttemptKeepsAudit<Row, Patch>(kind: Kind<Row, Patch>, init: Row, s: System<Row, Patch>, c: ReqId, o: Outcome)
    requires AuditInv(kind, init, s) && c in s.clients
    requires !s.clients[c].phase.Writing? ==> s.lock != Some(c)
    ensures AuditInv(kind, init, EndAttempt(s, c, o))
  {
    QuietKeepsAudit(kind, init, s, EndAttempt(s, c, o));
  }

  lemma ReadKeepsAudit<Row, Patch>(kind: Kind<Row, Patch>, init: Row, s: System<Row, Patch>, c: ReqId, now: Time)
    requires AuditInv(kind, init, s) && CanRead(s, c)
    ensures AuditInv(kind, init, StepRead(kind, s, c, now))
  {
    hide AuditInv, Advance;
    var t := StepRead(kind, s, c, now);
    assert Staged(t.clients[c]) == [] && Staged(s.clients[c]) == [];
    assert t.clients == s.clients[c := t.clients[c]] && (t.lock == s.lock || t.lock == None);
    assert t.commits == s.commits && t.nextId == s.nextId && t.entries == s.entries && t.row == s.row;
    hide StepRead, Staged;
    QuietKeepsAudit(kind, init, s, t);
  }

  lemma RollbackKeepsAudit<Row, Patch>(
    kind: Kind<Row, Patch>, init: Row, s: System<Row, Patch>, a: Action<Patch>)
    requires AuditInv(kind, init, s) && LockInv(s) && EndsAttempt(a) && Enabled(kind, s, a)
    ensures AuditInv(kind, init, Step(kind, s, a))
  {
    hide AuditInv, EndAttempt;
    match a
    case Recheck(c) => EndAttemptKeepsAudit(kind, init, s, c, if s.row.None? then Failed(NotFound) else Conflicted);
    case Deadlock(c) => EndAttemptKeepsAudit(kind, init, s, c, Deadlocked);
    case Fail(c, answer) => EndAttemptKeepsAudit(kind, init, s, c, Failed(answer));
  }

  lemma QuietStepKeepsAudit<Row, Patch>(
    kind: Kind<Row, Patch>, init: Versioned<Row>, s: System<Row, Patch>, a: Action<Patch>)
    requires Inv(kind, init, s) && AuditInv(kind, init.data, s) && Enabled(kind, s, a)
    requires a.Arrive? || a.Guard? || a.Notify? || a.OtherEntry? || a.Vanish?
    ensures AuditInv(kind, init.data, Step(kind, s, a))
  {
    assert a.Guard? ==> ClientInv(kind, init, s, a.c, s.clients[a.c]);
    assert LockInv(s);
    hide Inv, AuditInv;
    QuietKeepsAudit(kind, init.data, s, Step(kind, s, a));
  }

  lemma StepKeepsAudit<Row(!new), Patch(!new)>(
    kind: Kind<Row, Patch>, init: Versioned<Row>, s: System<Row, Patch>, a: Action<Patch>)
    requires Inv(kind, init, s) && AuditInv(kind, init.data, s) && Enabled(kind, s, a)
    ensures AuditInv(kind, init.data, Step(kind, s, a))
  {
    assert LockInv(s);
    assert a.CommitTxn? ==> ClientInv(kind, init, s, a.c, s.clients[a.c]);
    hide Inv, AuditInv, StepRead, StepGuard, StepCommit, StepDirect, StepInsert, EndAttempt;
    if EndsAttempt(a) {
      RollbackKeepsAudit(kind, init.data, s, a);
    } else {
      match a
      case Insert(c) => InsertKeepsAudit(kind, init.data, s, c);
      case DirectWrite(patch, now) => DirectKeepsAudit(kind, init.data, s, patch, now);
      case CommitTxn(c) =>
        if s.clients[c].phase.work.changes == [] {
          NotesKeepAudit(kind, init.data, s, c);
        } else {
          EditKeepsAudit(kind, init, s, c);
        }
      case Read(c, now) => ReadKeepsAudit(kind, init.data, s, c, now);
      case Guard(_) => QuietStepKeepsAudit(kind, init, s, a);
      case Arrive(_, _, _) => QuietStepKeepsAudit(kind, init, s, a);
      case Notify(_) => QuietStepKeepsAudit(kind, init, s, a);
      case OtherEntry => QuietStepKeepsAudit(kind, init, s, a);
      case Vanish => QuietStepKeepsAudit(kind, init, s, a);
    }
  }

  // ----- The audit log determines the row -----

  predicate Names(changes: seq<Change>, field: Field) {
    exists k :: 0 <= k < |changes| && changes[k].field == field
  }

  /** The value the last line naming the field gives it. */
  function LastValue(changes: seq<Change>, field: Field): Value
    requires Names(changes, field)
  {
    var last := |changes| - 1;
    if changes[last].field == field then changes[last].value else LastValue(changes[..last], field)
  }

  /** `show` reads a field off a row in the form the change log uses. A merge sets exactly the fields
      its change log names, each to the last value logged for it. */
  ghost predicate SetsWhatItLogs<Row(!new), Patch(!new)>(
    kind: Kind<Row, Patch>, show: (Row, Field) -> Value, fields: set<Field>)
  {
    forall row, p, t, f :: f in fields && kind.build(row, p, t).Merge? ==>
      MergeShows(show, row, kind.build(row, p, t), f)
  }

  ghost predicate MergeShows<Row>(show: (Row, Field) -> Value, row: Row, m: Build<Row>, f: Field)
    requires m.Merge?
  {
    show(m.row, f) == if Names(m.changes, f) then LastValue(m.changes, f) else show(row, f)
  }

  /** Direct writes leave no change log. */
  ghost predicate DirectIsSilent<Row(!new), Patch(!new)>(kind: Kind<Row, Patch>) {
    forall row, p, t :: kind.direct(p) && kind.build(row, p, t).Merge? ==> kind.build(row, p, t).changes == []
  }

  /** A stretch of commits that do not name a field leaves it alone. */
  lemma {:induction false} UntouchedFieldStays<Row(!new), Patch(!new)>(
    kind: Kind<Row, Patch>, init: Row, commits: seq<Commit<Patch>>, show: (Row, Field) -> Value,
    fields: set<Field>, field: Field, m: nat, n: nat)
    requires SetsWhatItLogs(kind, show, fields) && field in fields
    requires m <= n <= |commits|
    requires forall i :: m <= i < n ==> !Names(LogOf(kind, init, commits, i), field)
    ensures show(Serial(kind, init, commits, n), field) == show(Serial(kind, init, commits, m), field)
  {
    if m < n {
      UntouchedFieldStays(kind, init, commits, show, fields, field, m, n - 1);
      assert !Names(LogOf(kind, init, commits, n - 1), field);
      var built := kind.build(Serial(kind, init, commits, n - 1), commits[n - 1].patch, commits[n - 1].now);
      assert built.Merge? ==> MergeShows(show, Serial(kind, init, commits, n - 1), built, field);
    }
  }
}
