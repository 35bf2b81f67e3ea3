/** A run in which two attaches of one Ranger both say they added them (api/ranger.go). */
module RosterRace {
  import opened Base
  import opened Roster
  import opened RosterRuns

  const HUB := "Hub"
  const REQ: Request := AttachRequest(HUB, None)
  const ADDED: Line := Added(HUB, None)
  const ATTACH: Commit := Attach(HUB, None, None)

  /** The row, inserted by this request. */
  function Has(c: ReqId): seq<Row> {
    [Row(By(c), Member(HUB, None))]
  }

  function Adder(phase: Phase): Client {
    Client(REQ, phase, 1, false, 0)
  }

  const COMMITTED: Client := Client(REQ, Notifying, 1, true, 0)
  const FIRST: Record := Record(1, 0, ATTACH)
  const SECOND: Record := Record(2, 1, ATTACH)

  /** Nobody is on the roster, and these requests are at work. */
  function Empty(key: string -> string, clients: map<ReqId, Client>, nextId: nat): System {
    System(key, [], map[], nextId, [], [], clients)
  }

  /** Both have read that the Ranger is not on the roster; the first is at this point. */
  function BothAt(key: string -> string, first: Phase, nextId: nat): System {
    Empty(key, map[1 := Adder(first), 2 := Adder(Deleting(None))], nextId)
  }

  /** The first has committed; the second is at this point. */
  function Between(key: string -> string, second: Phase, nextId: nat): System {
    System(key, Has(1), map[0 := ADDED], nextId, [FIRST], [], map[1 := COMMITTED, 2 := Adder(second)])
  }

  function End(key: string -> string): System {
    System(key, Has(2), map[0 := ADDED, 1 := ADDED], 2, [FIRST, SECOND], [], map[1 := COMMITTED, 2 := COMMITTED])
  }

  const ALONE: seq<Action> := [Delete(2)] + ([Insert(2)] + ([WriteLog(2)] + [CommitTxn(2)]))

  const WRITES: seq<Action> := [Delete(1)] + ([Insert(1)] + ([WriteLog(1)] + ([CommitTxn(1)] + ALONE)))

  const RACE: seq<Action> :=
    [Arrive(1, REQ)] + ([Arrive(2, REQ)] + ([Read(1)] + ([Read(2)] + WRITES)))

  lemma BothRead(key: string -> string)
    ensures Leads(Start([], key), Arrive(1, REQ), Empty(key, map[1 := Adder(Reading)], 0))
    ensures Leads(Empty(key, map[1 := Adder(Reading)], 0), Arrive(2, REQ),
                  Empty(key, map[1 := Adder(Reading), 2 := Adder(Reading)], 0))
    ensures Leads(Empty(key, map[1 := Adder(Reading), 2 := Adder(Reading)], 0), Read(1),
                  Empty(key, map[1 := Adder(Deleting(None)), 2 := Adder(Reading)], 0))
    ensures Leads(Empty(key, map[1 := Adder(Deleting(None)), 2 := Adder(Reading)], 0), Read(2),
                  BothAt(key, Deleting(None), 0))
  {
  }

  lemma FirstDeletesAndInserts(key: string -> string)
    ensures Leads(BothAt(key, Deleting(None), 0), Delete(1), BothAt(key, Inserting(None, {}), 0))
    ensures Leads(BothAt(key, Inserting(None, {}), 0), Insert(1), BothAt(key, Logging(None, {}), 0))
  {
    assert Found([], key, key(HUB)) == {};
  }

  lemma FirstLogsAndCommits(key: string -> string)
    ensures Leads(BothAt(key, Logging(None, {}), 0), WriteLog(1), BothAt(key, Committing(None, {}, 0), 1))
    ensures Leads(BothAt(key, Committing(None, {}, 0), 1), CommitTxn(1), Between(key, Deleting(None), 1))
  {
  }

  /** The second finds the row it had not read. */
  lemma SecondDeletes(key: string -> string)
    ensures Leads(Between(key, Deleting(None), 1), Delete(2), Between(key, Inserting(None, {By(1)}), 1))
  {
    assert Has(1)[0].member.handle == HUB;
    assert Found(Has(1), key, key(HUB)) == {By(1)};
  }

  lemma SecondInsertsAndLogs(key: string -> string)
    ensures Leads(Between(key, Inserting(None, {By(1)}), 1), Insert(2), Between(key, Logging(None, {By(1)}), 1))
    ensures Leads(Between(key, Logging(None, {By(1)}), 1), WriteLog(2), Between(key, Committing(None, {By(1)}, 1), 2))
  {
  }

  lemma SecondCommits(key: string -> string)
    ensures Leads(Between(key, Committing(None, {By(1)}, 1), 2), CommitTxn(2), End(key))
  {
    assert Has(1)[..0] == [] && Kept(Has(1), {By(1)}) == [];
  }

  lemma SecondRuns(key: string -> string)
    ensures Legal(Between(key, Deleting(None), 1), ALONE) && After(Between(key, Deleting(None), 1), ALONE) == End(key)
  {
    SecondDeletes(key);
    SecondInsertsAndLogs(key);
    SecondCommits(key);
    hide Leads, Legal, After, Between, End;
    One(Between(key, Committing(None, {By(1)}, 1), 2), CommitTxn(2), End(key));
    var r1 := [CommitTxn(2)];
    Go(Between(key, Logging(None, {By(1)}), 1), WriteLog(2), Between(key, Committing(None, {By(1)}, 1), 2), r1);
    var r2 := [WriteLog(2)] + r1;
    Go(Between(key, Inserting(None, {By(1)}), 1), Insert(2), Between(key, Logging(None, {By(1)}), 1), r2);
    Go(Between(key, Deleting(None), 1), Delete(2), Between(key, Inserting(None, {By(1)}), 1), [Insert(2)] + r2);
  }

  lemma FirstRuns(key: string -> string)
    ensures Legal(BothAt(key, Deleting(None), 0), WRITES) && After(BothAt(key, Deleting(None), 0), WRITES) == End(key)
  {
    FirstDeletesAndInserts(key);
    FirstLogsAndCommits(key);
    SecondRuns(key);
    hide Leads, Legal, After, Between, BothAt, End, ALONE;
    var r1 := [CommitTxn(1)] + ALONE;
    Go(BothAt(key, Committing(None, {}, 0), 1), CommitTxn(1), Between(key, Deleting(None), 1), ALONE);
    var r2 := [WriteLog(1)] + r1;
    Go(BothAt(key, Logging(None, {}), 0), WriteLog(1), BothAt(key, Committing(None, {}, 0), 1), r1);
    Go(BothAt(key, Inserting(None, {}), 0), Insert(1), BothAt(key, Logging(None, {}), 0), r2);
    Go(BothAt(key, Deleting(None), 0), Delete(1), BothAt(key, Inserting(None, {}), 0), [Insert(1)] + r2);
  }

  lemma BothRun(key: string -> string)
    ensures Reaches([], key, RACE, End(key))
  {
    BothRead(key);
    FirstRuns(key);
    hide Leads, Legal, After, BothAt, Empty, End, WRITES;
    var s3 := Empty(key, map[1 := Adder(Deleting(None)), 2 := Adder(Reading)], 0);
    Go(s3, Read(2), BothAt(key, Deleting(None), 0), WRITES);
    var s2 := Empty(key, map[1 := Adder(Reading), 2 := Adder(Reading)], 0);
    Go(s2, Read(1), s3, [Read(2)] + WRITES);
    var s1 := Empty(key, map[1 := Adder(Reading)], 0);
    Go(s1, Arrive(2, REQ), s2, [Read(1)] + ([Read(2)] + WRITES));
    Go(Start([], key), Arrive(1, REQ), s1, [Arrive(2, REQ)] + ([Read(1)] + ([Read(2)] + WRITES)));
  }

  /** Both read before either writes. The roster gets the Ranger once, and the log says so twice: the
      second attach found the row it had not read. */
  lemma RacingAttachesBothSayAdded(key: string -> string)
    ensures Reaches([], key, RACE, End(key))
    ensures End(key).entries == map[0 := Added(HUB, None), 1 := Added(HUB, None)]
    ensures RosterRuns.Commits(End(key).records) == [ATTACH, ATTACH]
    ensures Rosters([], key, [ATTACH]) == [Member(HUB, None)]
  {
    BothRun(key);
    AppliedNext([], key, [], ATTACH);
    assert [] + [ATTACH] == [ATTACH];
    hide Reaches;
  }
}
