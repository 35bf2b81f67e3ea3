/** A request that meets no other gets through: its ordinary statements, in order, write what it asks for. */
module EditAlone {
  import opened Base
  import opened Retry
  import opened EditProtocol
  import opened EditHistory

  function Inserts<Patch>(c: ReqId, n: nat): seq<Action<Patch>> {
    if n == 0 then [] else [Insert(c)] + Inserts(c, n - 1)
  }

  /** Read, guard if there is something to write, insert the entries, commit, publish. */
  function Alone<Patch>(c: ReqId, patch: Patch, notes: seq<string>, now: Time,
      changes: seq<Change>): seq<Action<Patch>>
  {
    [Arrive(c, patch, notes)] + ([Read(c, now)] + (if changes == [] then WritesAlone(c, notes, changes)
                                                    else [Guard(c)] + WritesAlone(c, notes, changes)))
  }

  function WritesAlone<Patch>(c: ReqId, notes: seq<string>, changes: seq<Change>): seq<Action<Patch>> {
    Inserts(c, |Plan(c, changes, notes)|) + ([CommitTxn(c)] + [Notify(c)])
  }

  lemma Go<Row(!new), Patch(!new)>(kind: Kind<Row, Patch>, s: System<Row, Patch>, a: Action<Patch>,
      rest: seq<Action<Patch>>)
    requires Enabled(kind, s, a) && Legal(kind, Step(kind, s, a), rest)
    ensures Legal(kind, s, [a] + rest) && After(kind, s, [a] + rest) == After(kind, Step(kind, s, a), rest)
  {
    assert ([a] + rest)[1..] == rest;
  }

  lemma {:induction false} Then<Row(!new), Patch(!new)>(kind: Kind<Row, Patch>, s: System<Row, Patch>,
      run: seq<Action<Patch>>, more: seq<Action<Patch>>)
    requires Legal(kind, s, run) && Legal(kind, After(kind, s, run), more)
    ensures Legal(kind, s, run + more) && After(kind, s, run + more) == After(kind, After(kind, s, run), more)
    decreases |run|
  {
    if run == [] {
      assert run + more == more;
    } else {
      Then(kind, Step(kind, s, run[0]), run[1..], more);
      assert (run + more)[1..] == run[1..] + more;
    }
  }

  function Range(start: nat, n: nat): (ids: seq<nat>)
    ensures |ids| == n && forall i :: 0 <= i < n ==> ids[i] == start + i
  {
    seq(n, i requires 0 <= i < n => start + i)
  }

  /** The request at this point of its transaction, with these ids staged. */
  function WritingWith<Row, Patch>(s: System<Row, Patch>, c: ReqId, work: Work<Row>, ids: seq<nat>): System<Row, Patch>
    requires c in s.clients
  {
    SetPhase(s, c, Writing(work.(staged := ids))).(nextId := s.nextId + |ids|)
  }

  lemma {:induction false} InsertsRun<Row(!new), Patch(!new)>(
    kind: Kind<Row, Patch>, s: System<Row, Patch>, c: ReqId, work: Work<Row>, m: nat, n: nat)
    requires c in s.clients && s.row.Some? && m + n == |Plan(c, work.changes, s.clients[c].notes)|
    ensures var here := WritingWith(s, c, work, Range(s.nextId, m));
            && Legal(kind, here, Inserts(c, n))
            && After(kind, here, Inserts(c, n)) == WritingWith(s, c, work, Range(s.nextId, m + n))
    decreases n
  {
    hide Plan;
    var here := WritingWith(s, c, work, Range(s.nextId, m));
    if n > 0 {
      assert Range(s.nextId, m) + [s.nextId + m] == Range(s.nextId, m + 1);
      assert Step(kind, here, Insert(c)) == WritingWith(s, c, work, Range(s.nextId, m + 1));
      InsertsRun(kind, s, c, work, m + 1, n - 1);
      Go(kind, here, Insert(c), Inserts(c, n - 1));
    }
  }

  /** With every entry staged: commit and publish. */
  lemma CommitsAndPublishes<Row(!new), Patch(!new)>(
    kind: Kind<Row, Patch>, s: System<Row, Patch>, c: ReqId, work: Work<Row>, ids: seq<nat>)
    returns (t: System<Row, Patch>)
    requires c in s.clients && s.clients[c].progress == START
    requires s.clients[c].phase == Writing(work) && work.staged == ids
    requires |ids| == |Plan(c, work.changes, s.clients[c].notes)|
    ensures Legal(kind, s, [CommitTxn(c)] + [Notify(c)]) && After(kind, s, [CommitTxn(c)] + [Notify(c)]) == t
    ensures ToldDone(t, c) && t.published == s.published + [c]
    ensures t.clients == s.clients[c := t.clients[c]]
    ensures t.nextId == s.nextId && t.entries == AddEntries(s.entries, ids, Plan(c, work.changes, s.clients[c].notes))
    ensures work.changes == [] ==> t.row == s.row && t.commits == s.commits && t.lock == s.lock
    ensures work.changes != [] ==>
              && t.row == Some(Versioned(work.snap.version + 1, work.row)) && t.lock == Release(s, c)
              && t.commits == s.commits + [Commit(Some(c), s.clients[c].patch, work.now, ids[0])]
  {
    hide Plan, AddEntries;
    var committed := Step(kind, s, CommitTxn(c));
    t := Step(kind, committed, Notify(c));
    var last: seq<Action<Patch>> := [Notify(c)];
    assert last[1..] == [] && Legal(kind, t, []) && Legal(kind, committed, last) && After(kind, committed, last) == t;
    hide Legal, After;
    Go(kind, s, CommitTxn(c), last);
  }

  lemma AllStaged<Row(!new), Patch(!new)>(
    kind: Kind<Row, Patch>, s: System<Row, Patch>, c: ReqId, work: Work<Row>) returns (staged: System<Row, Patch>)
    requires c in s.clients && s.row.Some? && s.clients[c].phase == Writing(work) && work.staged == []
    ensures var n := |Plan(c, work.changes, s.clients[c].notes)|;
            && Legal(kind, s, Inserts(c, n)) && After(kind, s, Inserts(c, n)) == staged
            && staged.clients == s.clients[c := s.clients[c].(phase := Writing(work.(staged := Range(s.nextId, n))))]
    ensures staged.row == s.row && staged.lock == s.lock && staged.entries == s.entries
    ensures staged.commits == s.commits && staged.published == s.published
  {
    var n := |Plan(c, work.changes, s.clients[c].notes)|;
    hide Plan, Legal, After, Inserts;
    assert Range(s.nextId, 0) == [] && WritingWith(s, c, work, []) == s;
    InsertsRun(kind, s, c, work, 0, n);
    staged := WritingWith(s, c, work, Range(s.nextId, n));
  }

  /** From the first entry to the notification. */
  lemma WritesRun<Row(!new), Patch(!new)>(
    kind: Kind<Row, Patch>, s: System<Row, Patch>, c: ReqId, work: Work<Row>) returns (t: System<Row, Patch>)
    requires c in s.clients && s.row.Some? && s.clients[c].phase == Writing(work) && work.staged == []
    requires s.clients[c].progress == START
    ensures var run := WritesAlone(c, s.clients[c].notes, work.changes); Legal(kind, s, run) && After(kind, s, run) == t
    ensures ToldDone(t, c) && t.published == s.published + [c]
    ensures t.clients == s.clients[c := t.clients[c]]
    ensures var plan := Plan(c, work.changes, s.clients[c].notes);
            t.entries == AddEntries(s.entries, Range(s.nextId, |plan|), plan)
    ensures work.changes == [] ==> t.row == s.row && t.commits == s.commits && t.lock == s.lock
    ensures work.changes != [] ==>
              && t.row == Some(Versioned(work.snap.version + 1, work.row)) && t.lock == Release(s, c)
              && t.commits == s.commits + [Commit(Some(c), s.clients[c].patch, work.now, s.nextId)]
  {
    var n := |Plan(c, work.changes, s.clients[c].notes)|;
    var ids := Range(s.nextId, n);
    hide Plan, AddEntries, Legal, After, Inserts, ToldDone;
    var staged := AllStaged(kind, s, c, work);
    hide Range;
    t := CommitsAndPublishes(kind, staged, c, work.(staged := ids), ids);
    Then(kind, s, Inserts(c, n), [CommitTxn(c)] + [Notify(c)]);
  }

  /** Arriving and reading, when the row is there. */
  function ReadFirst<Row, Patch>(s: System<Row, Patch>, c: ReqId, patch: Patch, notes: seq<string>, work: Work<Row>)
    : System<Row, Patch>
  {
    var phase := if work.changes != [] then Guarding(work) else Writing(work);
    s.(clients := s.clients[c := Client(patch, notes, phase, START, |s.commits|)])
  }

  lemma ArrivesAndReads<Row(!new), Patch(!new)>(
    kind: Kind<Row, Patch>, s: System<Row, Patch>, c: ReqId, patch: Patch, notes: seq<string>, now: Time,
    work: Work<Row>, rest: seq<Action<Patch>>)
    requires c !in s.clients && !kind.direct(patch) && s.row.Some?
    requires kind.build(s.row.value.data, patch, now) == Merge(work.row, work.changes)
    requires work == Work(s.row.value, now, work.row, work.changes, [])
    requires Legal(kind, ReadFirst(s, c, patch, notes, work), rest)
    ensures var run := [Arrive(c, patch, notes)] + ([Read(c, now)] + rest);
            Legal(kind, s, run) && After(kind, s, run) == After(kind, ReadFirst(s, c, patch, notes, work), rest)
  {
    var arrived := Step(kind, s, Arrive(c, patch, notes));
    assert Step(kind, arrived, Read(c, now)).clients == ReadFirst(s, c, patch, notes, work).clients;
    hide Legal, After;
    Go(kind, arrived, Read(c, now), rest);
    Go(kind, s, Arrive(c, patch, notes), [Read(c, now)] + rest);
  }

  /** The guard matches. */
  lemma Guards<Row(!new), Patch(!new)>(
    kind: Kind<Row, Patch>, s: System<Row, Patch>, c: ReqId, work: Work<Row>, rest: seq<Action<Patch>>)
    requires c in s.clients && s.clients[c].phase == Guarding(work) && s.lock == None && s.row == Some(work.snap)
    requires Legal(kind, SetPhase(s, c, Writing(work)).(lock := Some(c)), rest)
    ensures Legal(kind, s, [Guard(c)] + rest)
    ensures After(kind, s, [Guard(c)] + rest) == After(kind, SetPhase(s, c, Writing(work)).(lock := Some(c)), rest)
  {
    hide Legal, After;
    Go(kind, s, Guard(c), rest);
  }

  lemma NotesGetThrough<Row(!new), Patch(!new)>(
    kind: Kind<Row, Patch>, s: System<Row, Patch>, c: ReqId, patch: Patch, notes: seq<string>, now: Time,
    work: Work<Row>) returns (t: System<Row, Patch>)
    requires c !in s.clients && !kind.direct(patch) && s.row.Some? && s.lock == None
    requires kind.build(s.row.value.data, patch, now) == Merge(work.row, [])
    requires work == Work(s.row.value, now, work.row, [], [])
    ensures Legal(kind, s, Alone(c, patch, notes, now, [])) && After(kind, s, Alone(c, patch, notes, now, [])) == t
    ensures ToldDone(t, c) && t.published == s.published + [c] && t.clients.Keys == s.clients.Keys + {c}
    ensures t.row == s.row && t.commits == s.commits && t.lock == None
    ensures t.entries == AddEntries(s.entries, Range(s.nextId, |Plan(c, [], notes)|), Plan(c, [], notes))
  {
    hide Plan, AddEntries, Range, Legal, After, WritesAlone, ToldDone;
    t := WritesRun(kind, ReadFirst(s, c, patch, notes, work), c, work);
    ArrivesAndReads(kind, s, c, patch, notes, now, work, WritesAlone(c, notes, []));
  }

  lemma EditGetsThrough<Row(!new), Patch(!new)>(
    kind: Kind<Row, Patch>, s: System<Row, Patch>, c: ReqId, patch: Patch, notes: seq<string>, now: Time,
    work: Work<Row>) returns (t: System<Row, Patch>)
    requires c !in s.clients && !kind.direct(patch) && s.row.Some? && s.lock == None && work.changes != []
    requires kind.build(s.row.value.data, patch, now) == Merge(work.row, work.changes)
    requires work == Work(s.row.value, now, work.row, work.changes, [])
    ensures var run := Alone(c, patch, notes, now, work.changes); Legal(kind, s, run) && After(kind, s, run) == t
    ensures ToldDone(t, c) && t.published == s.published + [c] && t.clients.Keys == s.clients.Keys + {c}
    ensures t.row == Some(Versioned(s.row.value.version + 1, work.row)) && t.lock == None
    ensures t.commits == s.commits + [Commit(Some(c), patch, now, s.nextId)]
    ensures var plan := Plan(c, work.changes, notes);
            t.entries == AddEntries(s.entries, Range(s.nextId, |plan|), plan)
  {
    hide Plan, AddEntries, Range, Legal, After, WritesAlone, ToldDone;
    var read := ReadFirst(s, c, patch, notes, work);
    var writes := WritesAlone<Patch>(c, notes, work.changes);
    t := WritesRun(kind, SetPhase(read, c, Writing(work)).(lock := Some(c)), c, work);
    Guards(kind, read, c, work, writes);
    ArrivesAndReads(kind, s, c, patch, notes, now, work, [Guard(c)] + writes);
  }

  /**
   * From any state in which the record is there, its lock is free and its own rules accept the request: the
   * request's ordinary statements are a legal run, it is told of success and published, and the row is the
   * merged one at the next version, if the request changes anything. Its entries are added, no others.
   */
  lemma AloneGetsThrough<Row(!new), Patch(!new)>(
    kind: Kind<Row, Patch>, s: System<Row, Patch>, c: ReqId, patch: Patch, notes: seq<string>, now: Time)
    returns (t: System<Row, Patch>)
    requires c !in s.clients && !kind.direct(patch) && s.row.Some? && s.lock == None
    requires kind.build(s.row.value.data, patch, now).Merge?
    ensures var run := Alone(c, patch, notes, now, kind.build(s.row.value.data, patch, now).changes);
            Legal(kind, s, run) && After(kind, s, run) == t
    ensures ToldDone(t, c) && t.published == s.published + [c] && t.clients.Keys == s.clients.Keys + {c}
    ensures var m := kind.build(s.row.value.data, patch, now);
            && t.row == (if m.changes == [] then s.row else Some(Versioned(s.row.value.version + 1, m.row)))
            && var plan := Plan(c, m.changes, notes);
            && t.entries == AddEntries(s.entries, Range(s.nextId, |plan|), plan)
            && t.commits == s.commits + if m.changes == [] then [] else [Commit(Some(c), patch, now, s.nextId)]
    ensures t.lock == None
  {
    var m := kind.build(s.row.value.data, patch, now);
    var work := Work(s.row.value, now, m.row, m.changes, []);
    hide Plan, AddEntries, Range, Legal, After, Alone, ToldDone;
    if m.changes == [] {
      t := NotesGetThrough(kind, s, c, patch, notes, now, work);
    } else {
      t := EditGetsThrough(kind, s, c, patch, notes, now, work);
    }
  }

  /** And a request that the record refuses is told so at once, and has changed nothing. */
  lemma AloneIsRefused<Row(!new), Patch(!new)>(
    kind: Kind<Row, Patch>, s: System<Row, Patch>, c: ReqId, patch: Patch, notes: seq<string>, now: Time)
    returns (t: System<Row, Patch>)
    requires c !in s.clients && !kind.direct(patch) && s.row.Some?
    requires kind.build(s.row.value.data, patch, now).Reject? && s.lock != Some(c)
    ensures Legal(kind, s, [Arrive(c, patch, notes)] + [Read(c, now)])
    ensures After(kind, s, [Arrive(c, patch, notes)] + [Read(c, now)]) == t
    ensures c in t.clients && t.clients[c].phase.Over?
    ensures t.clients[c].progress == Answered(kind.build(s.row.value.data, patch, now).answer)
    ensures t == s.(clients := t.clients)
  {
    var arrived := Step(kind, s, Arrive(c, patch, notes));
    t := Step(kind, arrived, Read(c, now));
    var last: seq<Action<Patch>> := [Read(c, now)];
    assert last[1..] == [] && Legal(kind, t, []) && Legal(kind, arrived, last) && After(kind, arrived, last) == t;
    hide Legal, After;
    Go(kind, s, Arrive(c, patch, notes), last);
  }
}
