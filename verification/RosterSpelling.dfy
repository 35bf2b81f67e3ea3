/** Runs in which a request for another spelling of a handle takes a Ranger's row away (api/ranger.go). */
module RosterSpelling {
  import opened Base
  import opened Roster
  import opened RosterRuns

  /** Nobody is within a transaction. */
  ghost predicate Quiet(s: System) {
    forall c :: c in s.clients ==> !InTxn(s.clients[c].phase)
  }

  /** Everything one request does when no other is at work, up to its commit. */
  function Alone(c: ReqId, req: Request): seq<Action> {
    if req.AttachRequest? then
      [Arrive(c, req)] + ([Read(c)] + ([Delete(c)] + ([Insert(c)] + ([WriteLog(c)] + [CommitTxn(c)]))))
    else [Arrive(c, req)] + ([Delete(c)] + ([WriteLog(c)] + [CommitTxn(c)]))
  }

  /** The request at this point of its first run, having drawn `drawn` ids. */
  function At(s: System, c: ReqId, req: Request, phase: Phase, drawn: nat): System {
    var readAt := if req.AttachRequest? && !phase.Reading? then |s.records| else 0;
    s.(clients := s.clients[c := Client(req, phase, 1, false, readAt)], nextId := s.nextId + drawn)
  }

  /** What an attach reads. */
  function Saw(s: System, req: Request): Option<NullText> {
    if req.AttachRequest? then RoleOf(Members(s.rows), req.handle) else None
  }

  function CommitAlone(req: Request, saw: Option<NullText>): Commit {
    if req.AttachRequest? then Attach(req.handle, req.role, saw) else Detach(req.handle)
  }

  function Gone(s: System, handle: string): set<RowId> {
    Found(s.rows, s.key, s.key(handle))
  }

  lemma AttachSteps(s: System, c: ReqId, req: Request)
    requires Quiet(s) && c !in s.clients && req.AttachRequest? && Saw(s, req) != Some(req.role)
    ensures var gone, saw := Gone(s, req.handle), Saw(s, req);
            && Leads(At(s, c, req, Reading, 0), Read(c), At(s, c, req, Deleting(saw), 0))
            && Leads(At(s, c, req, Deleting(saw), 0), Delete(c), At(s, c, req, Inserting(saw, gone), 0))
            && Leads(At(s, c, req, Inserting(saw, gone), 0), Insert(c), At(s, c, req, Logging(saw, gone), 0))
  {
    hide Found, RoleOf, Members;
  }

  lemma OtherSteps(s: System, c: ReqId, req: Request, saw: Option<NullText>)
    requires Quiet(s) && c !in s.clients
    ensures var gone := Gone(s, req.handle);
            && Leads(s, Arrive(c, req), At(s, c, req, Begin(req), 0))
            && (req.DetachRequest? ==>
                  Leads(At(s, c, req, Deleting(None), 0), Delete(c), At(s, c, req, Logging(None, gone), 0)))
            && Leads(At(s, c, req, Logging(saw, gone), 0), WriteLog(c),
                     At(s, c, req, Committing(saw, gone, s.nextId), 1))
  {
    hide Found, RoleOf, Members;
  }

  /** A request that meets no other commits, unless it attaches with the role it reads, and the entry says
      what it did. */
  lemma RunsAlone(s: System, c: ReqId, req: Request) returns (t: System)
    requires Quiet(s) && c !in s.clients && (req.AttachRequest? ==> Saw(s, req) != Some(req.role))
    ensures Legal(s, Alone(c, req)) && After(s, Alone(c, req)) == t && Quiet(t)
    ensures t.clients.Keys == s.clients.Keys + {c} && t.key == s.key && t.nextId == s.nextId + 1
    ensures t.entries == s.entries[s.nextId := LineOf(CommitAlone(req, Saw(s, req)))]
    ensures t.records == s.records + [Record(c, s.nextId, CommitAlone(req, Saw(s, req)))]
  {
    hide RoleOf, Members;
    var saw := Saw(s, req);
    OtherSteps(s, c, req, saw);
    if req.AttachRequest? {
      AttachSteps(s, c, req);
    }
    var gone := Gone(s, req.handle);
    var last := At(s, c, req, Committing(saw, gone, s.nextId), 1);
    t := StepCommit(last, c);
    assert Leads(last, CommitTxn(c), t);
    assert Quiet(t) && t.records == s.records + [Record(c, s.nextId, CommitAlone(req, saw))];
    hide Leads, Legal, After, At, Quiet, Gone, StepCommit, LineOf;
    One(last, CommitTxn(c), t);
    var wrote := At(s, c, req, Logging(saw, gone), 0);
    Go(wrote, WriteLog(c), last, [CommitTxn(c)]);
    var r1 := [WriteLog(c)] + [CommitTxn(c)];
    if req.AttachRequest? {
      Go(At(s, c, req, Inserting(saw, gone), 0), Insert(c), wrote, r1);
      var r2 := [Insert(c)] + r1;
      Go(At(s, c, req, Deleting(saw), 0), Delete(c), At(s, c, req, Inserting(saw, gone), 0), r2);
      var r3 := [Delete(c)] + r2;
      Go(At(s, c, req, Reading, 0), Read(c), At(s, c, req, Deleting(saw), 0), r3);
      Go(s, Arrive(c, req), At(s, c, req, Reading, 0), [Read(c)] + r3);
    } else {
      Go(At(s, c, req, Deleting(None), 0), Delete(c), wrote, r1);
      Go(s, Arrive(c, req), At(s, c, req, Deleting(None), 0), [Delete(c)] + r1);
    }
  }

  lemma RoleOfOne(a: string, role: NullText, b: string)
    requires a != b
    ensures RoleOf([Member(a, role)], a) == Some(role) && RoleOf([Member(a, role)], b) == None && RoleOf([], a) == None
  {
    assert [Member(a, role)][..0] == [];
  }

  lemma FirstAttached(a: string, b: string, role: NullText, attach: bool, key: string -> string)
    requires a != b && key(a) == key(b)
    ensures var c, d := Attach(a, role, None), if attach then Attach(b, role, None) else Detach(b);
            && Rosters([], key, [c]) == [Member(a, role)]
            && Rosters([], key, [c, d]) == (if attach then [Member(b, role)] else [])
  {
    RoleOfOne(a, role, b);
    hide RoleOf;
    var c, d := Attach(a, role, None), if attach then Attach(b, role, None) else Detach(b);
    AppliedNext([], key, [], c);
    AppliedNext([], key, [c], d);
    assert [] + [c] == [c] && [c] + [d] == [c, d];
  }

  lemma StartIsQuiet(key: string -> string)
    ensures Quiet(Start([], key)) && Members(Start([], key).rows) == []
  {
  }

  lemma OneAttaches(key: string -> string, first: Request) returns (t: System)
    requires first.AttachRequest?
    ensures Reaches([], key, Alone(1, first), t) && Quiet(t) && t.clients.Keys == {1} && t.key == key && t.nextId == 1
    ensures t.entries == map[0 := LineOf(CommitAlone(first, None))]
    ensures t.records == [Record(1, 0, CommitAlone(first, None))]
    ensures Members(t.rows) == Rosters([], key, [CommitAlone(first, None)])
  {
    hide Alone, Legal, After, Rosters, Quiet, LineOf;
    StartIsQuiet(key);
    t := RunsAlone(Start([], key), 1, first);
    RosterIsSerial([], key, Alone(1, first), t);
    assert RosterRuns.Commits(t.records) == [CommitAlone(first, None)];
  }

  /** Two requests one after the other, the second finding no row of its spelling. */
  lemma OneThenOther(key: string -> string, first: Request, second: Request) returns (s: System)
    requires first.AttachRequest?
    requires second.AttachRequest? ==> RoleOf(Rosters([], key, [CommitAlone(first, None)]), second.handle) == None
    ensures Reaches([], key, Alone(1, first) + Alone(2, second), s)
    ensures s.entries == map[0 := LineOf(CommitAlone(first, None)), 1 := LineOf(CommitAlone(second, None))]
    ensures RosterRuns.Commits(s.records) == [CommitAlone(first, None), CommitAlone(second, None)]
  {
    hide Alone, Legal, After, Rosters, Quiet, LineOf, RoleOf, Members;
    var t := OneAttaches(key, first);
    s := RunsAlone(t, 2, second);
    hide CommitAlone;
    Then(Start([], key), Alone(1, first), Alone(2, second));
  }

  /**
   * One request after another, no two at once: a Ranger is attached, then attached, or detached, in another
   * spelling of the same handle. The only entry about the first spelling still says they are on the roster.
   * No row has it.
   */
  lemma OtherSpellingTakesTheRow(a: string, b: string, role: NullText, attach: bool, key: string -> string)
      returns (s: System)
    requires a != b && key(a) == key(b)
    ensures var second := if attach then AttachRequest(b, role) else DetachRequest(b);
            && Reaches([], key, Alone(1, AttachRequest(a, role)) + Alone(2, second), s)
            && s.entries == map[0 := Added(a, role), 1 := if attach then Added(b, role) else Removed(b)]
            && IsLatestOf(s.entries, a, 0) && SaysOfHandle(s.entries[0]) == Some(role)
            && Members(s.rows) == (if attach then [Member(b, role)] else [])
            && RoleOf(Members(s.rows), a) == None
  {
    var first, second := AttachRequest(a, role), if attach then AttachRequest(b, role) else DetachRequest(b);
    hide Alone, Reaches, Rosters, Members, RosterRuns.Commits, RoleOf;
    FirstAttached(a, b, role, attach, key);
    RoleOfOne(a, role, b);
    RoleOfOne(b, role, a);
    s := OneThenOther(key, first, second);
    RosterIsSerial([], key, Alone(1, first) + Alone(2, second), s);
  }
}
