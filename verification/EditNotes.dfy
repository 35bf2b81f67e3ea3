/** The notes a client sends along: all of them become report entries when its request succeeds, and none otherwise. */
module EditNotes {
  import opened Base
  import opened Retry
  import opened EditProtocol
  import opened EditProofs
  import opened EditHistory
  import opened EditAudit
  import opened EditTheorems

  /** Each nonempty note is an entry of its own, note number i the one with id at[i], and the ids rise in the
      order given; c has no other note. */
  ghost predicate NotesStand(entries: map<nat, Entry>, c: ReqId, notes: seq<string>, at: seq<nat>) {
    && |at| == |notes|
    && (forall i :: 0 <= i < |notes| && notes[i] != "" ==> at[i] in entries && entries[at[i]] == Note(c, notes[i]))
    && (forall i, j :: 0 <= i < j < |notes| && notes[i] != "" && notes[j] != "" ==> at[i] < at[j])
    && (forall id :: id in entries && entries[id].Note? && entries[id].who == c ==> IsPlace(notes, at, id))
  }

  ghost predicate IsPlace(notes: seq<string>, at: seq<nat>, id: nat)
    requires |at| == |notes|
  {
    exists i :: 0 <= i < |notes| && notes[i] != "" && at[i] == id
  }

  ghost predicate NothingOf(entries: map<nat, Entry>, c: ReqId) {
    forall id :: id in entries ==> entries[id].who != c
  }

  ghost predicate HasCommitted<Row, Patch>(s: System<Row, Patch>, c: ReqId) {
    c in s.clients && s.clients[c].progress == Answered(Done)
  }

  ghost predicate EntriesOk<Row, Patch>(s: System<Row, Patch>, c: ReqId) {
    if HasCommitted(s, c) then exists at :: NotesStand(s.entries, c, s.clients[c].notes, at)
    else NothingOf(s.entries, c)
  }

  ghost predicate EntriesInv<Row, Patch>(s: System<Row, Patch>) {
    s.row.Some? ==> forall c :: EntriesOk(s, c)
  }

  /** The ids, for a plan staged under these. */
  function Places(ids: seq<nat>, changes: seq<Change>, notes: seq<string>): (at: seq<nat>)
    requires |ids| == (if changes != [] then 1 else 0) + CountNotes(notes)
    ensures |at| == |notes|
  {
    seq(|notes|, i requires 0 <= i < |notes| =>
      var k := (if changes != [] then 1 else 0) + CountNotes(notes[..i]);
      if k < |ids| then ids[k] else 0)
  }

  lemma PlacesHoldNotes(entries: map<nat, Entry>, ids: seq<nat>, c: ReqId, changes: seq<Change>, notes: seq<string>)
    requires |ids| == |Plan(c, changes, notes)| && forall j, k :: 0 <= j < k < |ids| ==> ids[j] < ids[k]
    requires forall k :: 0 <= k < |ids| ==> ids[k] in entries && entries[ids[k]] == Plan(c, changes, notes)[k]
    ensures var at := Places(ids, changes, notes);
            && (forall i :: 0 <= i < |notes| && notes[i] != "" ==>
                  at[i] in entries && entries[at[i]] == Note(c, notes[i]))
            && (forall i, j :: 0 <= i < j < |notes| && notes[i] != "" && notes[j] != "" ==> at[i] < at[j])
  {
    hide Plan;
    var base := if changes != [] then 1 else 0;
    forall i | 0 <= i < |notes| && notes[i] != ""
      ensures var at := Places(ids, changes, notes); at[i] in entries && entries[at[i]] == Note(c, notes[i])
      ensures var at := Places(ids, changes, notes); forall j :: 0 <= j < i && notes[j] != "" ==> at[j] < at[i]
    {
      PlanHasEachNote(c, changes, notes, i);
      assert base + CountNotes(notes[..i]) < |ids|;
    }
  }

  /** A staged note is that of some place. */
  lemma StagedNoteHasPlace(ids: seq<nat>, c: ReqId, changes: seq<Change>, notes: seq<string>, k: nat)
    requires |ids| == |Plan(c, changes, notes)| && k < |ids| && Plan(c, changes, notes)[k].Note?
    ensures IsPlace(notes, Places(ids, changes, notes), ids[k])
  {
    var base := if changes != [] then 1 else 0;
    var i := NoteAt(c, notes, k - base);
  }

  lemma NotesAreAdded(entries: map<nat, Entry>, ids: seq<nat>, c: ReqId, changes: seq<Change>, notes: seq<string>)
    requires |ids| == |Plan(c, changes, notes)| && forall j, k :: 0 <= j < k < |ids| ==> ids[j] < ids[k]
    requires NothingOf(entries, c)
    ensures NotesStand(AddEntries(entries, ids, Plan(c, changes, notes)), c, notes, Places(ids, changes, notes))
  {
    hide AddEntries, Plan, Places, IsPlace;
    var plan := Plan(c, changes, notes);
    var more, at := AddEntries(entries, ids, plan), Places(ids, changes, notes);
    AddEntriesAdds(entries, ids, plan);
    assert forall id :: id in more && more[id].who == c ==> id in ids;
    PlacesHoldNotes(more, ids, c, changes, notes);
    forall id | id in more && more[id].Note? && more[id].who == c ensures IsPlace(notes, at, id) {
      var k :| 0 <= k < |ids| && ids[k] == id;
      assert more[ids[k]] == plan[k];
      StagedNoteHasPlace(ids, c, changes, notes, k);
    }
    hide NothingOf;
  }

  /** A commit leaves everyone else's entries alone. */
  lemma OthersEntriesStay(entries: map<nat, Entry>, ids: seq<nat>, plan: seq<Entry>, c: ReqId, d: ReqId)
    requires |ids| == |plan| && (forall j, k :: 0 <= j < k < |ids| ==> ids[j] < ids[k])
    requires (forall k :: 0 <= k < |ids| ==> ids[k] !in entries) && (forall k :: 0 <= k < |plan| ==> plan[k].who == c)
    requires c != d
    ensures var more := AddEntries(entries, ids, plan);
            && (NothingOf(entries, d) ==> NothingOf(more, d))
            && (forall notes, at :: NotesStand(entries, d, notes, at) ==> NotesStand(more, d, notes, at))
  {
    var more := AddEntries(entries, ids, plan);
    AddEntriesAdds(entries, ids, plan);
    hide AddEntries;
    forall id | id in more ensures (id in entries && more[id] == entries[id]) || more[id].who == c {
      if id in ids {
        var k :| 0 <= k < |ids| && ids[k] == id;
      }
    }
    hide IsPlace;
    forall notes, at | NotesStand(entries, d, notes, at) ensures NotesStand(more, d, notes, at) {
      assert forall id :: id in entries ==> id in more && more[id] == entries[id];
    }
  }

  /** What a commit does to the entries and to the requests. */
  lemma CommitAdds<Row, Patch>(s: System<Row, Patch>, c: ReqId)
    requires CanCommit(s, c) && s.clients[c].progress.Trying?
    requires s.clients[c].phase.work.changes != [] ==> s.row.Some?
    ensures var cl, t := s.clients[c], StepCommit(s, c);
            && t.entries == AddEntries(s.entries, Staged(cl), Plan(c, cl.phase.work.changes, cl.notes))
            && !HasCommitted(s, c) && HasCommitted(t, c) && t.clients == s.clients[c := t.clients[c]]
            && t.clients[c].notes == cl.notes && (t.row.Some? ==> s.row.Some?)
  {
    hide AddEntries, Plan;
  }

  lemma StagedIdsAreNew<Row, Patch>(s: System<Row, Patch>, c: ReqId)
    requires IdsInv(s) && c in s.clients
    ensures var ids := Staged(s.clients[c]);
            && (forall j, k :: 0 <= j < k < |ids| ==> ids[j] < ids[k])
            && (forall k :: 0 <= k < |ids| ==> ids[k] !in s.entries)
  {
    assert OwnIds(s.nextId, s.entries.Keys, Staged(s.clients[c]));
  }

  lemma OtherStaysOk<Row, Patch>(s: System<Row, Patch>, t: System<Row, Patch>, d: ReqId)
    requires EntriesOk(s, d) && (d in s.clients <==> d in t.clients)
    requires d in s.clients ==> t.clients[d] == s.clients[d]
    requires NothingOf(s.entries, d) ==> NothingOf(t.entries, d)
    requires forall notes, at :: NotesStand(s.entries, d, notes, at) ==> NotesStand(t.entries, d, notes, at)
    ensures EntriesOk(t, d)
  {
    hide NotesStand, NothingOf;
  }

  lemma CommitKeepsEntries<Row, Patch>(kind: Kind<Row, Patch>, init: Versioned<Row>, s: System<Row, Patch>, c: ReqId)
    requires Inv(kind, init, s) && IdsInv(s) && EntriesInv(s) && CanCommit(s, c)
    ensures EntriesInv(StepCommit(s, c))
  {
    var cl, t := s.clients[c], StepCommit(s, c);
    assert ClientInv(kind, init, s, c, cl);
    assert cl.progress.Trying? && (cl.phase.work.changes != [] ==> s.row.Some?);
    hide Inv, IdsInv, ClientInv, StepCommit, AddEntries, NotesStand, NothingOf, Plan;
    CommitAdds(s, c);
    StagedIdsAreNew(s, c);
    if t.row.Some? {
      assert EntriesOk(s, c);
      NotesAreAdded(s.entries, Staged(cl), c, cl.phase.work.changes, cl.notes);
      assert EntriesOk(t, c);
      hide Staged, HasCommitted, EntriesOk;
      forall d | d != c ensures EntriesOk(t, d) {
        assert EntriesOk(s, d);
        OthersEntriesStay(s.entries, Staged(cl), Plan(c, cl.phase.work.changes, cl.notes), c, d);
        OtherStaysOk(s, t, d);
      }
    }
  }

  lemma StepKeepsEntries<Row(!new), Patch(!new)>(
    kind: Kind<Row, Patch>, init: Versioned<Row>, s: System<Row, Patch>, a: Action<Patch>)
    requires Honest(kind) && Inv(kind, init, s) && IdsInv(s) && EntriesInv(s) && Enabled(kind, s, a)
    ensures EntriesInv(Step(kind, s, a))
  {
    if a.CommitTxn? {
      CommitKeepsEntries(kind, init, s, a.c);
    } else {
      hide Inv, IdsInv, Step, NotesStand, NothingOf, Honest, Enabled;
      var t := Step(kind, s, a);
      OnlyCommitsAdd(kind, s, a);
      forall c | t.row.Some? ensures EntriesOk(t, c) {
        assert EntriesOk(s, c);
        OnlyCommitsSucceed(kind, init, s, a, c);
      }
    }
  }

  lemma OnlyCommitsAdd<Row, Patch>(kind: Kind<Row, Patch>, s: System<Row, Patch>, a: Action<Patch>)
    requires Enabled(kind, s, a) && !a.CommitTxn?
    ensures var t := Step(kind, s, a); t.row.Some? ==> t.entries == s.entries && s.row.Some?
  {
  }

  /** Short of its commit, no step of a request is its success, and no notes change. */
  lemma OnlyCommitsSucceed<Row(!new), Patch(!new)>(
    kind: Kind<Row, Patch>, init: Versioned<Row>, s: System<Row, Patch>, a: Action<Patch>, c: ReqId)
    requires Honest(kind) && Inv(kind, init, s) && Enabled(kind, s, a) && !a.CommitTxn?
    ensures HasCommitted(Step(kind, s, a), c) <==> HasCommitted(s, c)
    ensures c in s.clients ==>
              c in Step(kind, s, a).clients && Step(kind, s, a).clients[c].notes == s.clients[c].notes
  {
    assert c in s.clients ==> ClientInv(kind, init, s, c, s.clients[c]);
    assert c in s.clients && (s.clients[c].phase.Reading? || Attempting(s.clients[c].phase)) ==>
        s.clients[c].progress.Trying?;
    hide Inv, Plan, ClientInv;
    if a.Read? {
      ReadIsNoSuccess(kind, s, a.c, a.now);
      hide StepRead;
    } else {
      hide Honest;
    }
  }

  lemma ReadIsNoSuccess<Row(!new), Patch(!new)>(kind: Kind<Row, Patch>, s: System<Row, Patch>, c: ReqId, now: Time)
    requires Honest(kind) && CanRead(s, c) && s.clients[c].progress.Trying?
    ensures var t := StepRead(kind, s, c, now);
            && t.clients == s.clients[c := t.clients[c]] && t.clients[c].notes == s.clients[c].notes
            && t.clients[c].progress != Answered(Done)
  {
  }

  lemma {:induction false} RunKeepsEntries<Row(!new), Patch(!new)>(
    kind: Kind<Row, Patch>, init: Versioned<Row>, s: System<Row, Patch>, run: seq<Action<Patch>>)
    requires Honest(kind) && Good(kind, init, s) && EntriesInv(s) && Legal(kind, s, run)
    ensures EntriesInv(After(kind, s, run))
    decreases |run|
  {
    if run != [] {
      StepKeepsInv(kind, init, s, run[0]);
      StepKeepsHistory(kind, init, s, run[0]);
      StepKeepsAudit(kind, init, s, run[0]);
      StepKeepsEntries(kind, init, s, run[0]);
      RunKeepsEntries(kind, init, Step(kind, s, run[0]), run[1..]);
    }
  }

  /** While the record exists: each nonempty note of a request that was told of success is a report entry of
      its own, in the order given, and the request has no other note. A request that was not, or not yet, has
      left no entry of any kind. */
  lemma AllNotesOrNothing<Row(!new), Patch(!new)>(
    kind: Kind<Row, Patch>, init: Versioned<Row>, run: seq<Action<Patch>>, s: System<Row, Patch>, c: ReqId)
    requires Honest(kind) && Reaches(kind, init, run, s) && s.row.Some?
    ensures ToldDone(s, c) ==> exists at :: NotesStand(s.entries, c, s.clients[c].notes, at)
    ensures !(c in s.clients && s.clients[c].progress == Answered(Done)) ==> NothingOf(s.entries, c)
  {
    InvInitial(kind, init);
    RunKeepsEntries(kind, init, Initial(init), run);
    assert EntriesOk(s, c);
  }

  // ----- A record that is gone -----

  ghost predicate GoneOk<Row, Patch>(s: System<Row, Patch>) {
    s.row.None? ==>
      && s.entries == map[]
      && forall c :: c in s.clients && s.clients[c].phase.Writing? ==> s.clients[c].phase.work.staged == []
  }

  lemma StepKeepsGone<Row(!new), Patch(!new)>(kind: Kind<Row, Patch>, s: System<Row, Patch>, a: Action<Patch>)
    requires GoneOk(s) && Enabled(kind, s, a)
    ensures GoneOk(Step(kind, s, a))
  {
  }

  lemma {:induction false} RunKeepsGone<Row(!new), Patch(!new)>(
    kind: Kind<Row, Patch>, s: System<Row, Patch>, run: seq<Action<Patch>>)
    requires GoneOk(s) && Legal(kind, s, run)
    ensures GoneOk(After(kind, s, run))
    decreases |run|
  {
    if run != [] {
      StepKeepsGone(kind, s, run[0]);
      hide GoneOk, Step, Enabled;
      RunKeepsGone(kind, Step(kind, s, run[0]), run[1..]);
    }
  }

  /** A record that is gone has no report entries: its own went with it, and no request adds any to it,
      however far it had come. */
  lemma GoneRecordHasNoEntries<Row(!new), Patch(!new)>(
    kind: Kind<Row, Patch>, init: Versioned<Row>, run: seq<Action<Patch>>, s: System<Row, Patch>)
    requires Reaches(kind, init, run, s) && s.row.None?
    ensures s.entries == map[]
  {
    RunKeepsGone(kind, Initial(init), run);
  }
}
