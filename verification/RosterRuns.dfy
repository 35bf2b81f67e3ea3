/**
 * Roster requests at the same time, statement by statement: each reads the roster without a lock, then
 * deletes the Ranger's rows, inserts one, logs and commits (api/ranger.go).
 *
 * A delete that finds rows, and an insert, keep other transactions from the rows of that key until they end.
 * A delete that finds nothing keeps the gap where they would be, which other such deletes share but inserts
 * wait for. No unique key forbids a second row.
 */
module RosterRuns {
  import opened Base
  import opened Roster

  datatype Request = AttachRequest(handle: string, role: NullText) | DetachRequest(handle: string)

  /** The identity of a row: one of those there at the start, or the one that a request's transaction
      inserted. */
  datatype RowId = Before(n: nat) | By(c: ReqId)

  datatype Row = Row(id: RowId, member: Member)

  /** `saw` is the role the transaction read; `gone` are the rows its delete found. */
  datatype Phase =
    | Reading
    | Deleting(saw: Option<NullText>)
    | Inserting(saw: Option<NullText>, gone: set<RowId>)
    | Logging(saw: Option<NullText>, gone: set<RowId>)
    | Committing(saw: Option<NullText>, gone: set<RowId>, id: nat)
    | Notifying
    | Over(ok: bool)

  /** `changed` is the request's own variable; `readAt`, history, how many transactions had committed when
      it read. */
  datatype Client = Client(req: Request, phase: Phase, runs: nat, changed: bool, readAt: nat)

  /** History: a committed transaction, whose it was and under which id it logged. */
  datatype Record = Record(who: ReqId, id: nat, commit: Commit)

  datatype System = System(
    key: string -> string,            // the collation
    rows: seq<Row>,                   // committed rows
    entries: map<nat, Line>,          // committed report entries, by id
    nextId: nat,
    records: seq<Record>,             // history, in commit order
    notified: seq<ReqId>,
    clients: map<ReqId, Client>)

  datatype Action =
    | Arrive(c: ReqId, req: Request)
    | Read(c: ReqId)
    | Delete(c: ReqId)
    | Insert(c: ReqId)
    | WriteLog(c: ReqId)
    | CommitTxn(c: ReqId)
    | Notify(c: ReqId)
    | Deadlock(c: ReqId)
    | Fail(c: ReqId)
    | OtherEntry

  // ----- Locks -----

  /** The delete is done, and the transaction is not. */
  predicate PastDelete(phase: Phase) {
    phase.Inserting? || phase.Logging? || phase.Committing?
  }

  /** The transaction has the rows of its key to itself. */
  predicate HoldsRow(cl: Client) {
    PastDelete(cl.phase) && (cl.phase.gone != {} || (cl.req.AttachRequest? && !cl.phase.Inserting?))
  }

  /** It found no row, and keeps others from inserting one. */
  predicate HoldsGap(cl: Client) {
    PastDelete(cl.phase) && !HoldsRow(cl)
  }

  predicate RowHeld(s: System, c: ReqId, k: string) {
    exists d :: d in s.clients && d != c && s.key(s.clients[d].req.handle) == k && HoldsRow(s.clients[d])
  }

  predicate GapHeld(s: System, c: ReqId, k: string) {
    exists d :: d in s.clients && d != c && s.key(s.clients[d].req.handle) == k && HoldsGap(s.clients[d])
  }

  // ----- Steps -----

  predicate InTxn(phase: Phase) {
    phase.Deleting? || PastDelete(phase)
  }

  predicate CanDelete(s: System, c: ReqId) {
    c in s.clients && s.clients[c].phase.Deleting? && !RowHeld(s, c, s.key(s.clients[c].req.handle))
  }

  predicate CanInsert(s: System, c: ReqId) {
    c in s.clients && s.clients[c].phase.Inserting? && s.clients[c].req.AttachRequest?
    && var k := s.key(s.clients[c].req.handle); !RowHeld(s, c, k) && !GapHeld(s, c, k)
  }

  predicate Enabled(s: System, a: Action) {
    match a
    case Arrive(c, _) => c !in s.clients
    case Read(c) => c in s.clients && s.clients[c].phase.Reading? && s.clients[c].req.AttachRequest?
    case Delete(c) => CanDelete(s, c)
    case Insert(c) => CanInsert(s, c)
    case WriteLog(c) => c in s.clients && s.clients[c].phase.Logging?
    case CommitTxn(c) => c in s.clients && s.clients[c].phase.Committing?
    case Notify(c) => c in s.clients && s.clients[c].phase.Notifying?
    case Deadlock(c) => c in s.clients && InTxn(s.clients[c].phase)
    case Fail(c) => c in s.clients && (s.clients[c].phase.Reading? || InTxn(s.clients[c].phase))
    case OtherEntry => true
  }

  function Begin(req: Request): Phase {
    if req.AttachRequest? then Reading else Deleting(None)
  }

  function SetPhase(s: System, c: ReqId, phase: Phase): System
    requires c in s.clients
  {
    s.(clients := s.clients[c := s.clients[c].(phase := phase)])
  }

  // ----- Rows -----

  function Members(rows: seq<Row>): Rangers {
    if rows == [] then [] else Members(rows[..|rows| - 1]) + [rows[|rows| - 1].member]
  }

  function Numbered(init: Rangers): seq<Row> {
    if init == [] then []
    else Numbered(init[..|init| - 1]) + [Row(Before(|init| - 1), init[|init| - 1])]
  }

  /** The ids of the rows a delete of a handle with this key finds. */
  function Found(rows: seq<Row>, key: string -> string, k: string): set<RowId> {
    set i | 0 <= i < |rows| && key(rows[i].member.handle) == k :: rows[i].id
  }

  /** The rows but for these. */
  function Kept(rows: seq<Row>, gone: set<RowId>): seq<Row> {
    if rows == [] then []
    else
      var rest, last := Kept(rows[..|rows| - 1], gone), rows[|rows| - 1];
      if last.id in gone then rest else rest + [last]
  }

  /** What the commit leaves: without the rows that the delete found, and with the inserted one. */
  function RowsAfter(rows: seq<Row>, c: ReqId, cl: Client): seq<Row>
    requires cl.phase.Committing?
  {
    var kept := Kept(rows, cl.phase.gone);
    if cl.req.AttachRequest? then kept + [Row(By(c), Member(cl.req.handle, cl.req.role))] else kept
  }

  function CommitOf(cl: Client): Commit
    requires cl.phase.Committing?
  {
    match cl.req
    case AttachRequest(handle, role) => Attach(handle, role, cl.phase.saw)
    case DetachRequest(handle) => Detach(handle)
  }

  function StepCommit(s: System, c: ReqId): System
    requires c in s.clients && s.clients[c].phase.Committing?
  {
    var cl := s.clients[c];
    s.(rows := RowsAfter(s.rows, c, cl),
       entries := s.entries[cl.phase.id := LineOf(CommitOf(cl))],
       records := s.records + [Record(c, cl.phase.id, CommitOf(cl))],
       clients := s.clients[c := cl.(phase := Notifying, changed := true)])
  }

  function Step(s: System, a: Action): System
    requires Enabled(s, a)
  {
    match a
    case Arrive(c, req) => s.(clients := s.clients[c := Client(req, Begin(req), 1, false, 0)])
    case Read(c) =>
      var cl := s.clients[c];
      var saw := RoleOf(Members(s.rows), cl.req.handle);
      // The roster already says what this request asks for.
      var next := if saw == Some(cl.req.role) then Over(true) else Deleting(saw);
      s.(clients := s.clients[c := cl.(phase := next, readAt := |s.records|)])
    case Delete(c) =>
      var cl := s.clients[c];
      var gone := Found(s.rows, s.key, s.key(cl.req.handle));
      SetPhase(s, c, if cl.req.AttachRequest? then Inserting(cl.phase.saw, gone) else Logging(cl.phase.saw, gone))
    case Insert(c) => SetPhase(s, c, Logging(s.clients[c].phase.saw, s.clients[c].phase.gone))
    case WriteLog(c) =>
      SetPhase(s, c, Committing(s.clients[c].phase.saw, s.clients[c].phase.gone, s.nextId)).(nextId := s.nextId + 1)
    case CommitTxn(c) => StepCommit(s, c)
    case Notify(c) => SetPhase(s, c, Over(true)).(notified := s.notified + [c])
    case Deadlock(c) =>
      var cl := s.clients[c];
      if cl.runs < MAX_DEADLOCK_ATTEMPTS then
        s.(clients := s.clients[c := Client(cl.req, Begin(cl.req), cl.runs + 1, false, 0)])
      else SetPhase(s, c, Over(false))
    case Fail(c) => SetPhase(s, c, Over(false))
    case OtherEntry => s.(nextId := s.nextId + 1)
  }

  ghost predicate Legal(s: System, run: seq<Action>)
    decreases |run|
  {
    run == [] || (Enabled(s, run[0]) && Legal(Step(s, run[0]), run[1..]))
  }

  ghost function After(s: System, run: seq<Action>): System
    requires Legal(s, run)
    decreases |run|
  {
    if run == [] then s else After(Step(s, run[0]), run[1..])
  }

  ghost predicate Leads(s: System, a: Action, t: System) {
    Enabled(s, a) && Step(s, a) == t
  }

  lemma Go(s: System, a: Action, t: System, rest: seq<Action>)
    requires Leads(s, a, t) && Legal(t, rest)
    ensures Legal(s, [a] + rest) && After(s, [a] + rest) == After(t, rest)
  {
    assert ([a] + rest)[1..] == rest;
  }

  lemma One(s: System, a: Action, t: System)
    requires Leads(s, a, t)
    ensures Legal(s, [a]) && After(s, [a]) == t
  {
    assert [a][1..] == [] && Legal(t, []);
  }

  lemma {:induction false} Then(s: System, run: seq<Action>, more: seq<Action>)
    requires Legal(s, run) && Legal(After(s, run), more)
    ensures Legal(s, run + more) && After(s, run + more) == After(After(s, run), more)
    decreases |run|
  {
    if run == [] {
      assert run + more == more;
    } else {
      Then(Step(s, run[0]), run[1..], more);
      assert (run + more)[1..] == run[1..] + more;
    }
  }

  function Start(init: Rangers, key: string -> string): System {
    System(key, Numbered(init), map[], 0, [], [], map[])
  }

  function Commits(records: seq<Record>): seq<Commit> {
    seq(|records|, i requires 0 <= i < |records| => records[i].commit)
  }

  // ----- What every run keeps -----

  /** Whoever has the rows of a key to itself shares them with nobody. */
  predicate Apart(key: string -> string, x: Client, y: Client) {
    HoldsRow(x) && key(x.req.handle) == key(y.req.handle) ==> !PastDelete(y.phase)
  }

  ghost predicate AllApart(s: System) {
    forall c, d :: c in s.clients && d in s.clients && c != d ==> Apart(s.key, s.clients[c], s.clients[d])
  }

  /** These are the rows with this key, and no others. */
  predicate AreThose(rows: seq<Row>, key: string -> string, k: string, gone: set<RowId>) {
    forall i :: 0 <= i < |rows| ==> (rows[i].id in gone <==> key(rows[i].member.handle) == k)
  }

  /** What a transaction's delete found is still so. */
  predicate ClientOk(rows: seq<Row>, key: string -> string, cl: Client) {
    && (PastDelete(cl.phase) ==> AreThose(rows, key, key(cl.req.handle), cl.phase.gone))
    && (cl.phase.Inserting? || cl.phase.Reading? ==> cl.req.AttachRequest?)
    && 1 <= cl.runs <= MAX_DEADLOCK_ATTEMPTS
  }

  ghost predicate AllOk(s: System) {
    forall c :: c in s.clients ==> ClientOk(s.rows, s.key, s.clients[c])
  }

  ghost predicate LocksInv(s: System) {
    AllApart(s) && AllOk(s)
  }

  predicate HasCommitted(s: System, c: ReqId) {
    c in s.clients && s.clients[c].changed
  }

  /** A row of a request's is there only after its commit. */
  predicate Known(s: System, id: RowId) {
    id.By? ==> HasCommitted(s, id.c)
  }

  ghost predicate RowsDiffer(rows: seq<Row>) {
    forall i, j :: 0 <= i < j < |rows| ==> rows[i].id != rows[j].id
  }

  ghost predicate RowsKnown(s: System) {
    forall i :: 0 <= i < |s.rows| ==> Known(s, s.rows[i].id)
  }

  ghost predicate GoneKnown(s: System) {
    forall c, id :: c in s.clients && PastDelete(s.clients[c].phase) && id in s.clients[c].phase.gone ==> Known(s, id)
  }

  ghost predicate RowsInv(s: System) {
    RowsDiffer(s.rows) && RowsKnown(s) && GoneKnown(s)
  }

  /** What an attach saw is what the requests committed before its read amount to. */
  ghost predicate SawOk(init: Rangers, s: System, cl: Client) {
    cl.req.AttachRequest? && InTxn(cl.phase) ==>
      && cl.readAt <= |s.records|
      && cl.phase.saw == RoleOf(Rosters(init, s.key, Commits(s.records)[..cl.readAt]), cl.req.handle)
  }

  /** Whoever is over with success and has committed nothing read a roster that said what it asks for. */
  ghost predicate IdleOk(init: Rangers, s: System, cl: Client) {
    cl.phase == Over(true) && !cl.changed ==>
      && cl.req.AttachRequest? && cl.readAt <= |s.records|
      && RoleOf(Rosters(init, s.key, Commits(s.records)[..cl.readAt]), cl.req.handle) == Some(cl.req.role)
  }

  ghost predicate ReadInv(init: Rangers, s: System) {
    forall c :: c in s.clients ==> SawOk(init, s, s.clients[c]) && IdleOk(init, s, s.clients[c])
  }

  /** The id a transaction has drawn for its entry. */
  function Drawn(cl: Client): Option<nat> {
    if cl.phase.Committing? then Some(cl.phase.id) else None
  }

  ghost predicate EntriesBelow(s: System) {
    forall id :: id in s.entries ==> id < s.nextId
  }

  /** A drawn id is below the next, and no entry's yet. */
  predicate IdOk(s: System, id: Option<nat>) {
    id.Some? ==> id.value < s.nextId && id.value !in s.entries
  }

  ghost predicate DrawnOk(s: System) {
    forall c :: c in s.clients ==> IdOk(s, Drawn(s.clients[c]))
  }

  ghost predicate DrawnDiffer(s: System) {
    forall c, d :: c in s.clients && d in s.clients && c != d && Drawn(s.clients[c]).Some? ==>
      Drawn(s.clients[c]) != Drawn(s.clients[d])
  }

  ghost predicate IdsInv(s: System) {
    EntriesBelow(s) && DrawnOk(s) && DrawnDiffer(s)
  }

  /** The lines about a Ranger whose rows a transaction holds all come before its own. */
  ghost predicate OrderInv(s: System) {
    forall c, id :: c in s.clients && s.clients[c].phase.Committing? && HoldsRow(s.clients[c])
                    && id in s.entries && s.key(s.entries[id].handle) == s.key(s.clients[c].req.handle) ==>
      id < s.clients[c].phase.id
  }

  /** The latest entry about a Ranger, in whichever spelling. */
  ghost predicate IsLatest(entries: map<nat, Line>, key: string -> string, k: string, id: nat) {
    && id in entries && key(entries[id].handle) == k
    && forall later :: later in entries && key(entries[later].handle) == k ==> later <= id
  }

  ghost predicate Unnamed(entries: map<nat, Line>, key: string -> string, k: string) {
    forall id :: id in entries ==> key(entries[id].handle) != k
  }

  /** The latest entry about a Ranger says what stands for them; without one, what stood at the start does. */
  ghost predicate Tells(init: Rangers, key: string -> string, entries: map<nat, Line>, rangers: Rangers, k: string) {
    && (forall id :: IsLatest(entries, key, k, id) ==> Standing(rangers, key, k) == Says(entries[id]))
    && (Unnamed(entries, key, k) ==> Standing(rangers, key, k) == Standing(init, key, k))
  }

  ghost predicate TellsInv(init: Rangers, s: System, k: string) {
    Tells(init, s.key, s.entries, Members(s.rows), k)
  }

  ghost predicate Wrote(s: System, c: ReqId) {
    exists i :: 0 <= i < |s.records| && s.records[i].who == c
  }

  /** A request has committed if and only if its variable says so, and is notified of once that is over. */
  ghost predicate Told(s: System, c: ReqId) {
    && (Wrote(s, c) <==> c in s.clients && s.clients[c].changed)
    && (c in s.notified <==> c in s.clients && s.clients[c].changed && s.clients[c].phase.Over?)
    && (c in s.clients && s.clients[c].changed ==> s.clients[c].phase.Notifying? || s.clients[c].phase == Over(true))
    && (c in s.clients && s.clients[c].phase.Notifying? ==> s.clients[c].changed)
  }

  /** Nobody commits twice or is notified of twice. */
  ghost predicate Once(s: System) {
    && (forall i, j :: 0 <= i < j < |s.records| ==> s.records[i].who != s.records[j].who)
    && (forall i, j :: 0 <= i < j < |s.notified| ==> s.notified[i] != s.notified[j])
  }

  ghost predicate HistoryInv(s: System) {
    Once(s) && forall c :: Told(s, c)
  }

  ghost predicate Inv(init: Rangers, s: System) {
    && Members(s.rows) == Rosters(init, s.key, Commits(s.records))
    && LocksInv(s) && RowsInv(s) && IdsInv(s) && OrderInv(s) && HistoryInv(s) && ReadInv(init, s)
    && forall k :: TellsInv(init, s, k)
  }

  /** The request that takes the step, if the step is one's own. */
  function Actor(a: Action): Option<ReqId> {
    if a.OtherEntry? then None else Some(a.c)
  }

  lemma OthersStay(s: System, a: Action)
    requires Enabled(s, a)
    ensures forall d :: d in Step(s, a).clients && Actor(a) != Some(d) ==>
              d in s.clients && Step(s, a).clients[d] == s.clients[d]
  {
  }

  lemma ActorStaysOk(s: System, a: Action)
    requires AllOk(s) && RowsDiffer(s.rows) && Enabled(s, a) && !a.CommitTxn? && !a.OtherEntry?
    ensures a.c in Step(s, a).clients && ClientOk(Step(s, a).rows, Step(s, a).key, Step(s, a).clients[a.c])
    ensures Step(s, a).rows == s.rows && Step(s, a).key == s.key
  {
    assert a.Arrive? || ClientOk(s.rows, s.key, s.clients[a.c]);
    if a.Delete? {
      FoundAreThose(s.rows, s.key, s.key(s.clients[a.c].req.handle));
    }
    hide RowsDiffer, Found, AllOk, Members, AreThose, RoleOf;
  }

  lemma FoundAreThose(rows: seq<Row>, key: string -> string, k: string)
    requires RowsDiffer(rows)
    ensures AreThose(rows, key, k, Found(rows, key, k))
  {
  }

  /** A transaction takes rows or a gap only where no other has what excludes it. */
  lemma ActorStaysApart(s: System, a: Action, d: ReqId)
    requires AllApart(s) && AllOk(s) && Enabled(s, a) && !a.OtherEntry? && !a.CommitTxn?
    requires d in s.clients && d != a.c
    ensures a.c in Step(s, a).clients
    ensures Apart(s.key, Step(s, a).clients[a.c], s.clients[d]) && Apart(s.key, s.clients[d], Step(s, a).clients[a.c])
  {
    var y := s.clients[d];
    assert ClientOk(s.rows, s.key, y);
    if a.Delete? {
      DeleteStaysApart(s, a.c, d);
    } else if !a.Arrive? {
      var x := s.clients[a.c];
      assert ClientOk(s.rows, s.key, x);
      assert Apart(s.key, x, y) && Apart(s.key, y, x);
    }
    hide AllOk, AllApart, Members, Found, RoleOf, AreThose;
  }

  /** Who finds rows with a key finds no transaction that found none. */
  lemma DeleteStaysApart(s: System, c: ReqId, d: ReqId)
    requires AllApart(s) && AllOk(s) && Enabled(s, Delete(c)) && d in s.clients && d != c
    ensures var t := Step(s, Delete(c));
            c in t.clients && Apart(s.key, t.clients[c], s.clients[d]) && Apart(s.key, s.clients[d], t.clients[c])
  {
    var x, y := s.clients[c], s.clients[d];
    var k := s.key(x.req.handle);
    assert ClientOk(s.rows, s.key, y);
    var gone := Found(s.rows, s.key, k);
    if s.key(y.req.handle) == k && PastDelete(y.phase) {
      assert !HoldsRow(y) && y.phase.gone == {};
      assert gone == {};
    }
  }

  lemma LocksStay(s: System, a: Action)
    requires LocksInv(s) && RowsDiffer(s.rows) && Enabled(s, a) && !a.CommitTxn?
    ensures LocksInv(Step(s, a))
  {
    hide RowsDiffer, Members, Found, RoleOf, AreThose, RowsAfter;
    var t := Step(s, a);
    OthersStay(s, a);
    if !a.OtherEntry? {
      ActorStaysOk(s, a);
      forall d | d in s.clients && d != a.c
        ensures Apart(s.key, t.clients[a.c], s.clients[d]) && Apart(s.key, s.clients[d], t.clients[a.c])
      {
        ActorStaysApart(s, a, d);
      }
    }
    assert t.rows == s.rows && t.key == s.key;
    hide Step, Enabled, Apart, ClientOk;
    assert AllOk(t);
    assert AllApart(t);
  }

  lemma {:induction false} KeptAreRows(rows: seq<Row>, gone: set<RowId>)
    ensures forall r :: r in Kept(rows, gone) <==> r in rows && r.id !in gone
  {
    if rows != [] {
      KeptAreRows(rows[..|rows| - 1], gone);
      assert rows == rows[..|rows| - 1] + [rows[|rows| - 1]];
    }
  }

  lemma {:induction false} KeptDiffer(rows: seq<Row>, gone: set<RowId>)
    requires RowsDiffer(rows)
    ensures RowsDiffer(Kept(rows, gone))
  {
    if rows != [] {
      var rest, last := rows[..|rows| - 1], rows[|rows| - 1];
      KeptDiffer(rest, gone);
      KeptAreRows(rest, gone);
      assert forall r :: r in rest ==> r.id != last.id;
    }
  }

  lemma {:induction false} NothingGone(rows: seq<Row>)
    ensures Kept(rows, {}) == rows
  {
    if rows != [] {
      NothingGone(rows[..|rows| - 1]);
    }
  }

  /** A row after a commit was there before, or is the new one. */
  lemma RowsAfterAre(rows: seq<Row>, c: ReqId, cl: Client)
    requires cl.phase.Committing?
    ensures forall r :: r in RowsAfter(rows, c, cl) ==>
              (r in rows && r.id !in cl.phase.gone)
              || (r == Row(By(c), r.member) && cl.req.AttachRequest? && r.member.handle == cl.req.handle)
  {
    KeptAreRows(rows, cl.phase.gone);
  }

  /** A commit changes only rows its transaction holds, or, where it found none to remove, nothing. */
  lemma OthersKeepTheirs(s: System, c: ReqId, d: ReqId)
    requires LocksInv(s) && RowsInv(s) && c in s.clients && s.clients[c].phase.Committing? && !HasCommitted(s, c)
    requires d in s.clients && d != c
    ensures ClientOk(RowsAfter(s.rows, c, s.clients[c]), s.key, s.clients[d])
  {
    var x, y := s.clients[c], s.clients[d];
    assert ClientOk(s.rows, s.key, x) && ClientOk(s.rows, s.key, y) && Apart(s.key, x, y);
    if PastDelete(y.phase) && !HoldsRow(x) {
      NothingGone(s.rows);
    } else if PastDelete(y.phase) {
      RowsAfterAre(s.rows, c, x);
      forall id | id in y.phase.gone ensures id != By(c) {
        assert Known(s, id);
      }
      assert forall r :: r in s.rows ==> (r.id in y.phase.gone <==> s.key(r.member.handle) == s.key(y.req.handle));
    }
    hide LocksInv, RowsInv, RowsAfter, Kept;
  }

  lemma CommitKeepsLocks(s: System, c: ReqId)
    requires LocksInv(s) && RowsInv(s) && c in s.clients && s.clients[c].phase.Committing? && !HasCommitted(s, c)
    ensures LocksInv(StepCommit(s, c))
  {
    var t := StepCommit(s, c);
    assert ClientOk(s.rows, s.key, s.clients[c]);
    forall d | d in t.clients ensures ClientOk(t.rows, t.key, t.clients[d]) {
      if d != c {
        OthersKeepTheirs(s, c, d);
      }
    }
    forall d, e | d in t.clients && e in t.clients && d != e ensures Apart(t.key, t.clients[d], t.clients[e]) {
      assert Apart(s.key, s.clients[d], s.clients[e]);
    }
    hide RowsAfter, AllApart, AllOk, AreThose;
  }

  lemma RowsStay(s: System, a: Action)
    requires RowsInv(s) && HistoryInv(s) && Enabled(s, a) && !a.CommitTxn?
    ensures RowsInv(Step(s, a))
  {
    var t := Step(s, a);
    OthersStay(s, a);
    assert t.rows == s.rows;
    CommittedStay(s, a);
    forall c, id | c in t.clients && PastDelete(t.clients[c].phase) && id in t.clients[c].phase.gone
      ensures Known(t, id)
    {
      if a.Delete? && c == a.c {
        var k := s.key(s.clients[c].req.handle);
        var i :| 0 <= i < |s.rows| && s.rows[i].id == id;
        assert Known(s, s.rows[i].id);
      } else {
        assert Known(s, id);
      }
    }
    hide Step, Enabled, HistoryInv;
  }

  lemma CommittedStay(s: System, a: Action)
    requires HistoryInv(s) && Enabled(s, a)
    ensures forall c :: HasCommitted(s, c) ==> HasCommitted(Step(s, a), c)
  {
    OthersStay(s, a);
    if a.Deadlock? {
      assert Told(s, a.c);
    }
    hide HistoryInv;
  }

  lemma CommitKeepsRows(s: System, c: ReqId)
    requires RowsInv(s) && c in s.clients && s.clients[c].phase.Committing? && !HasCommitted(s, c)
    ensures RowsInv(StepCommit(s, c))
  {
    var t := StepCommit(s, c);
    var gone := s.clients[c].phase.gone;
    RowsAfterAre(s.rows, c, s.clients[c]);
    KeptAreRows(s.rows, gone);
    KeptDiffer(s.rows, gone);
    assert forall d :: HasCommitted(s, d) ==> HasCommitted(t, d);
    assert HasCommitted(t, c);
    forall r | r in s.rows ensures Known(s, r.id) && r.id != By(c) {}
    assert RowsKnown(t) by {
      forall i | 0 <= i < |t.rows| ensures Known(t, t.rows[i].id) {
        assert t.rows[i] in t.rows;
      }
    }
    assert GoneKnown(t) by {
      forall d, id | d in t.clients && PastDelete(t.clients[d].phase) && id in t.clients[d].phase.gone
        ensures Known(t, id)
      {
        assert Known(s, id);
      }
    }
  }

  /** Removing the rows found and adding one amounts to the request's whole effect. */
  lemma {:induction false} KeptMembers(rows: seq<Row>, key: string -> string, k: string, gone: set<RowId>)
    requires AreThose(rows, key, k, gone)
    ensures Members(Kept(rows, gone)) == Without(Members(rows), key, k)
  {
    if rows != [] {
      KeptMembers(rows[..|rows| - 1], key, k, gone);
      MembersNext(Kept(rows[..|rows| - 1], gone), rows[|rows| - 1]);
    }
  }

  lemma MembersNext(rows: seq<Row>, r: Row)
    ensures Members(rows + [r]) == Members(rows) + [r.member]
  {
    assert (rows + [r])[..|rows|] == rows;
  }

  lemma CommitApplies(s: System, c: ReqId)
    requires LocksInv(s) && c in s.clients && s.clients[c].phase.Committing?
    ensures Members(StepCommit(s, c).rows) == Apply(Members(s.rows), s.key, CommitOf(s.clients[c]))
  {
    var cl := s.clients[c];
    assert ClientOk(s.rows, s.key, cl);
    KeptMembers(s.rows, s.key, s.key(cl.req.handle), cl.phase.gone);
    if cl.req.AttachRequest? {
      MembersNext(Kept(s.rows, cl.phase.gone), Row(By(c), Member(cl.req.handle, cl.req.role)));
    }
    hide LocksInv, Members, Kept, Without;
  }

  /** A step commits the actor's id, or has it draw the next, or leaves it without one. */
  lemma IdsMove(s: System, a: Action)
    requires Enabled(s, a)
    ensures var t := Step(s, a);
            && s.nextId <= t.nextId
            && (forall id :: id in t.entries ==>
                  id in s.entries || (a.CommitTxn? && Drawn(s.clients[a.c]) == Some(id)))
            && (a.CommitTxn? ==> s.clients[a.c].phase.Committing?)
            && (Actor(a).Some? ==>
                  a.c in t.clients && (Drawn(t.clients[a.c]) == None
                    || (Drawn(t.clients[a.c]) == Some(s.nextId) && s.nextId < t.nextId && t.entries == s.entries)))
  {
  }

  lemma IdsStay(s: System, a: Action)
    requires IdsInv(s) && Enabled(s, a)
    ensures IdsInv(Step(s, a))
  {
    var t := Step(s, a);
    OthersStay(s, a);
    IdsMove(s, a);
    assert a.CommitTxn? ==> a.c in s.clients && IdOk(s, Drawn(s.clients[a.c]));
    hide Step, Enabled, Drawn;
    assert EntriesBelow(t);
    forall c | c in t.clients ensures IdOk(t, Drawn(t.clients[c])) {
      assert c in s.clients ==> IdOk(s, Drawn(s.clients[c]));
    }
    hide IdOk, EntriesBelow;
    assert DrawnDiffer(t) by { DrawnStayDifferent(s, a); }
  }

  lemma DrawnStayDifferent(s: System, a: Action)
    requires IdsInv(s) && Enabled(s, a)
    ensures DrawnDiffer(Step(s, a))
  {
    var t := Step(s, a);
    OthersStay(s, a);
    IdsMove(s, a);
    hide Step, Enabled, Drawn, EntriesBelow;
    forall c, d | c in t.clients && d in t.clients && c != d && Drawn(t.clients[c]).Some?
      ensures Drawn(t.clients[c]) != Drawn(t.clients[d])
    {
      assert c in s.clients ==> IdOk(s, Drawn(s.clients[c]));
      assert d in s.clients ==> IdOk(s, Drawn(s.clients[d]));
    }
  }

  lemma OrderStays(s: System, a: Action)
    requires LocksInv(s) && IdsInv(s) && OrderInv(s) && Enabled(s, a)
    ensures OrderInv(Step(s, a))
  {
    hide Members, RowsAfter, Found, RoleOf;
    OthersStay(s, a);
    hide LocksInv, RowHeld, GapHeld;
  }

  lemma WroteStays(s: System, a: Action, c: ReqId)
    requires Enabled(s, a)
    ensures Wrote(Step(s, a), c) <==> Wrote(s, c) || (a.CommitTxn? && c == a.c)
  {
    var t := Step(s, a);
    if i :| 0 <= i < |s.records| && s.records[i].who == c {
      assert t.records[i].who == c;
    }
    if a.CommitTxn? {
      assert t.records[|s.records|].who == a.c;
    }
  }

  lemma ToldStays(s: System, a: Action, c: ReqId)
    requires Told(s, c) && Enabled(s, a)
    ensures Told(Step(s, a), c)
  {
    WroteStays(s, a, c);
    OthersStay(s, a);
    hide Wrote;
  }

  lemma HistoryStays(s: System, a: Action)
    requires HistoryInv(s) && Enabled(s, a)
    ensures HistoryInv(Step(s, a))
  {
    var t := Step(s, a);
    forall c ensures Told(t, c) {
      assert Told(s, c);
      ToldStays(s, a, c);
    }
    if a.CommitTxn? || a.Notify? {
      assert Told(s, a.c);
    }
    forall i | 0 <= i < |s.records| ensures Wrote(s, s.records[i].who) {}
    hide Told, Wrote;
    assert Once(t);
  }

  lemma SilentOnOthers(init: Rangers, key: string -> string, entries: map<nat, Line>, before: Rangers, after: Rangers,
      id: nat, line: Line, k: string)
    requires Tells(init, key, entries, before, k) && id !in entries
    requires key(line.handle) != k && Standing(after, key, k) == Standing(before, key, k)
    ensures Tells(init, key, entries[id := line], after, k)
  {
    hide Standing, Says;
    var more := entries[id := line];
    assert forall other :: other in entries ==> other in more && more[other] == entries[other];
    assert forall other :: IsLatest(more, key, k, other) ==> IsLatest(entries, key, k, other);
    assert Unnamed(more, key, k) ==> Unnamed(entries, key, k);
  }

  /** The line becomes the latest, or the rows it says were there already. */
  lemma TellsItsOwn(init: Rangers, key: string -> string, entries: map<nat, Line>, before: Rangers, after: Rangers,
      id: nat, line: Line, k: string)
    requires Tells(init, key, entries, before, k) && id !in entries
    requires key(line.handle) == k && Standing(after, key, k) == Says(line)
    requires Standing(after, key, k) == Standing(before, key, k)
      || forall other :: other in entries && key(entries[other].handle) == k ==> other < id
    ensures Tells(init, key, entries[id := line], after, k)
  {
    hide Standing, Says;
    var more := entries[id := line];
    assert id in more && more[id] == line;
    assert forall other :: other in entries ==> other in more && more[other] == entries[other];
    assert forall other :: IsLatest(more, key, k, other) && other != id ==> IsLatest(entries, key, k, other);
  }

  /** None found, and none stands. */
  lemma {:induction false} NoneStand(rows: seq<Row>, key: string -> string, k: string)
    requires AreThose(rows, key, k, {})
    ensures Standing(Members(rows), key, k) == []
  {
    if rows != [] {
      NoneStand(rows[..|rows| - 1], key, k);
      StandingNext(Members(rows[..|rows| - 1]), key, rows[|rows| - 1].member, k);
    }
  }

  /** About its own Ranger a commit's line becomes the latest, or agrees with the one that stays it. About
      every other it is silent. */
  lemma CommitTells(init: Rangers, s: System, c: ReqId, k: string)
    requires LocksInv(s) && IdsInv(s) && OrderInv(s) && TellsInv(init, s, k)
    requires c in s.clients && s.clients[c].phase.Committing?
    ensures TellsInv(init, StepCommit(s, c), k)
  {
    var cl, t := s.clients[c], StepCommit(s, c);
    assert ClientOk(s.rows, s.key, cl) && IdOk(s, Drawn(cl));
    var id, line, own := cl.phase.id, LineOf(CommitOf(cl)), s.key(cl.req.handle);
    assert t.entries == s.entries[id := line] && t.key == s.key && line.handle == cl.req.handle;
    CommitApplies(s, c);
    LineSaysTheResult(Members(s.rows), s.key, CommitOf(cl), k);
    hide StepCommit, RowsAfter, Members, Standing, Apply, Without, LocksInv, IdsInv, Tells;
    if k != own {
      SilentOnOthers(init, s.key, s.entries, Members(s.rows), Members(t.rows), id, line, k);
    } else {
      if !HoldsRow(cl) {
        NoneStand(s.rows, s.key, k);
      }
      TellsItsOwn(init, s.key, s.entries, Members(s.rows), Members(t.rows), id, line, k);
    }
  }

  lemma StepKeepsInv(init: Rangers, s: System, a: Action)
    requires Inv(init, s) && Enabled(s, a)
    ensures Inv(init, Step(s, a)) && Step(s, a).key == s.key
  {
    var t := Step(s, a);
    assert t.key == s.key;
    IdsStay(s, a);
    OrderStays(s, a);
    HistoryStays(s, a);
    SerialStays(init, s, a);
    ReadsStay(init, s, a);
    if a.CommitTxn? {
      assert Told(s, a.c) && !HasCommitted(s, a.c);
      CommitKeepsLocks(s, a.c);
      CommitKeepsRows(s, a.c);
    } else {
      LocksStay(s, a);
      RowsStay(s, a);
    }
    forall k ensures TellsInv(init, t, k) {
      TellsStays(init, s, a, k);
    }
    hide Step, Enabled, LocksInv, RowsInv, IdsInv, OrderInv, HistoryInv, ReadInv, TellsInv;
  }

  lemma TellsStays(init: Rangers, s: System, a: Action, k: string)
    requires Inv(init, s) && Enabled(s, a)
    ensures TellsInv(init, Step(s, a), k)
  {
    assert TellsInv(init, s, k);
    if a.CommitTxn? {
      CommitTells(init, s, a.c, k);
    } else {
      var t := Step(s, a);
      assert t.entries == s.entries && t.rows == s.rows && t.key == s.key;
    }
  }

  lemma CommitsGrow(records: seq<Record>, r: Record)
    ensures Commits(records + [r]) == Commits(records) + [r.commit]
  {
  }

  lemma SerialStays(init: Rangers, s: System, a: Action)
    requires LocksInv(s) && Members(s.rows) == Rosters(init, s.key, Commits(s.records)) && Enabled(s, a)
    ensures var t := Step(s, a); Members(t.rows) == Rosters(init, t.key, Commits(t.records))
  {
    hide Rosters, Commits, Apply, Members, LocksInv;
    var t := Step(s, a);
    if a.CommitTxn? {
      var r := Record(a.c, s.clients[a.c].phase.id, CommitOf(s.clients[a.c]));
      assert t.records == s.records + [r] && t.key == s.key && t.rows == StepCommit(s, a.c).rows;
      CommitApplies(s, a.c);
      hide Step, Enabled, StepCommit;
      CommitsGrow(s.records, r);
      AppliedNext(init, s.key, Commits(s.records), r.commit);
    } else {
      assert t.records == s.records && t.rows == s.rows && t.key == s.key;
    }
  }

  lemma ReadsStay(init: Rangers, s: System, a: Action)
    requires ReadInv(init, s) && Members(s.rows) == Rosters(init, s.key, Commits(s.records)) && Enabled(s, a)
    requires HistoryInv(s)
    ensures ReadInv(init, Step(s, a))
  {
    hide Rosters, Members, RoleOf, RowsAfter, Found;
    var t := Step(s, a);
    assert a.Notify? ==> Told(s, a.c);
    hide HistoryInv, Told;
    OthersStay(s, a);
    assert t.key == s.key && s.records <= t.records;
    var all := Commits(s.records);
    assert all[..|s.records|] == all;
    forall n | 0 <= n <= |s.records| ensures Commits(t.records)[..n] == all[..n] {}
    forall c | c in t.clients ensures SawOk(init, t, t.clients[c]) && IdleOk(init, t, t.clients[c]) {
      assert c in s.clients ==> SawOk(init, s, s.clients[c]) && IdleOk(init, s, s.clients[c]);
    }
  }

  lemma {:induction false} MembersOfNumbered(init: Rangers)
    ensures Members(Numbered(init)) == init && |Numbered(init)| == |init|
    ensures forall i :: 0 <= i < |init| ==> Numbered(init)[i].id == Before(i)
  {
    if init != [] {
      MembersOfNumbered(init[..|init| - 1]);
      MembersNext(Numbered(init[..|init| - 1]), Row(Before(|init| - 1), init[|init| - 1]));
    }
  }

  lemma StartIsInv(init: Rangers, key: string -> string)
    ensures Inv(init, Start(init, key))
  {
    MembersOfNumbered(init);
  }

  lemma {:induction false} RunKeepsInv(init: Rangers, s: System, run: seq<Action>)
    requires Inv(init, s) && Legal(s, run)
    ensures Inv(init, After(s, run)) && After(s, run).key == s.key
    decreases |run|
  {
    if run != [] {
      StepKeepsInv(init, s, run[0]);
      RunKeepsInv(init, Step(s, run[0]), run[1..]);
    }
  }

  ghost predicate Reaches(init: Rangers, key: string -> string, run: seq<Action>, s: System) {
    Legal(Start(init, key), run) && After(Start(init, key), run) == s
  }

  lemma ReachedInv(init: Rangers, key: string -> string, run: seq<Action>, s: System)
    requires Reaches(init, key, run, s)
    ensures Inv(init, s) && s.key == key
  {
    StartIsInv(init, key);
    RunKeepsInv(init, Start(init, key), run);
  }

  // ----- What every run gives -----

  /** Every interleaving equals the committed requests one after another. */
  lemma RosterIsSerial(init: Rangers, key: string -> string, run: seq<Action>, s: System)
    requires Reaches(init, key, run, s)
    ensures Members(s.rows) == Rosters(init, key, Commits(s.records))
  {
    ReachedInv(init, key, run, s);
  }

  /** The latest entry about a Ranger, in whichever spelling, says exactly the rows there are for them;
      without one, nothing about them changed. */
  lemma RosterLogDeterminesRoster(init: Rangers, key: string -> string, run: seq<Action>, s: System, k: string)
    requires Reaches(init, key, run, s)
    ensures forall id :: IsLatest(s.entries, key, k, id) ==> Standing(Members(s.rows), key, k) == Says(s.entries[id])
    ensures Unnamed(s.entries, key, k) ==> Standing(Members(s.rows), key, k) == Standing(init, key, k)
  {
    ReachedInv(init, key, run, s);
    assert TellsInv(init, s, k);
  }

  /** The latest entry about exactly this handle. */
  ghost predicate IsLatestOf(entries: map<nat, Line>, handle: string, id: nat) {
    && id in entries && entries[id].handle == handle
    && forall later :: later in entries && entries[later].handle == handle ==> later <= id
  }

  /** A later entry names another spelling. */
  ghost predicate Respelt(entries: map<nat, Line>, key: string -> string, id: nat)
    requires id in entries
  {
    exists later :: later in entries && later > id && key(entries[later].handle) == key(entries[id].handle)
  }

  /** The latest entry about a handle as it is spelt tells what an exact read finds if and only if it says
      that the Ranger was removed, or no later entry names them in another spelling. */
  lemma EntryTellsHandleIff(init: Rangers, key: string -> string, run: seq<Action>, s: System, handle: string, id: nat)
    requires Reaches(init, key, run, s) && IsLatestOf(s.entries, handle, id)
    ensures RoleOf(Members(s.rows), handle) == SaysOfHandle(s.entries[id]) <==>
        s.entries[id].Removed? || !Respelt(s.entries, key, id)
  {
    var k := key(handle);
    RoleOfStanding(Members(s.rows), key, handle);
    RosterLogDeterminesRoster(init, key, run, s, k);
    if !Respelt(s.entries, key, id) {
      assert IsLatest(s.entries, key, k, id);
    } else {
      var last := LatestOf(s.entries, key, k);
      assert s.entries[last].handle != handle;
      RoleInOneRow(s.entries[last], handle);
      RoleInOneRow(s.entries[id], handle);
    }
  }

  /** And a handle no entry spells reads as at the start if and only if no entry names the Ranger at all, or
      it was not there then. */
  lemma UnspeltHandleIff(init: Rangers, key: string -> string, run: seq<Action>, s: System, handle: string)
    requires Reaches(init, key, run, s) && forall id :: id in s.entries ==> s.entries[id].handle != handle
    ensures RoleOf(Members(s.rows), handle) == RoleOf(init, handle) <==>
        Unnamed(s.entries, key, key(handle)) || RoleOf(init, handle) == None
  {
    RoleOfStanding(Members(s.rows), key, handle);
    RoleOfStanding(init, key, handle);
    RosterLogDeterminesRoster(init, key, run, s, key(handle));
    if !Unnamed(s.entries, key, key(handle)) {
      var last := LatestOf(s.entries, key, key(handle));
      RoleInOneRow(s.entries[last], handle);
    }
  }

  lemma RoleInOneRow(line: Line, handle: string)
    ensures RoleOf(Says(line), handle).Some? <==> !line.Removed? && line.handle == handle
  {
    if !line.Removed? {
      assert Says(line)[..0] == [];
    }
  }

  lemma LatestOf(entries: map<nat, Line>, key: string -> string, k: string) returns (last: nat)
    requires !Unnamed(entries, key, k)
    ensures IsLatest(entries, key, k, last)
  {
    var about := set id | id in entries && key(entries[id].handle) == k;
    var one :| one in entries && key(entries[one].handle) == k;
    assert one in about;
    last := Largest(about);
    assert forall id :: id in entries && key(entries[id].handle) == k ==> id in about;
  }

  lemma {:induction false} Largest(ids: set<nat>) returns (last: nat)
    requires ids != {}
    ensures last in ids && forall id :: id in ids ==> id <= last
  {
    var one := SomeMember(ids);
    if ids == {one} {
      last := one;
    } else {
      var rest := Largest(ids - {one});
      last := if rest < one then one else rest;
      assert forall id :: id in ids ==> id == one || id in ids - {one};
    }
  }

  /** When a request is over, its variable is true if and only if it committed, which it did once at most;
      exactly then it has notified, once. A request is never run more than 6 times. */
  lemma ChangedIffCommitted(init: Rangers, key: string -> string, run: seq<Action>, s: System, c: ReqId)
    requires Reaches(init, key, run, s) && c in s.clients && s.clients[c].phase.Over?
    ensures s.clients[c].changed <==> Wrote(s, c)
    ensures Wrote(s, c) <==> c in s.notified
    ensures forall i, j :: 0 <= i < j < |s.records| && s.records[i].who == c ==> s.records[j].who != c
    ensures forall i, j :: 0 <= i < j < |s.notified| && s.notified[i] == c ==> s.notified[j] != c
    ensures 1 <= s.clients[c].runs <= MAX_DEADLOCK_ATTEMPTS
  {
    ReachedInv(init, key, run, s);
    assert ClientOk(s.rows, s.key, s.clients[c]) && Told(s, c);
  }

  /** A request that is over with success has committed, or it is an attach whose read found the very handle in
      the very role. */
  lemma SuccessHasItsCause(init: Rangers, key: string -> string, run: seq<Action>, s: System, c: ReqId)
    requires Reaches(init, key, run, s) && c in s.clients && s.clients[c].phase == Over(true)
    ensures var cl, all := s.clients[c], Commits(s.records);
            || Wrote(s, c)
            || (&& cl.req.AttachRequest? && cl.readAt <= |all|
                && RoleOf(Rosters(init, key, all[..cl.readAt]), cl.req.handle) == Some(cl.req.role))
  {
    ReachedInv(init, key, run, s);
    assert Told(s, c) && IdleOk(init, s, s.clients[c]);
    hide Inv, Reaches, Rosters, RoleOf, Wrote;
  }

  function DeadlocksOf(run: seq<Action>, c: ReqId): nat {
    if run == [] then 0 else (if run[0] == Deadlock(c) then 1 else 0) + DeadlocksOf(run[1..], c)
  }

  predicate IsRefused(s: System, c: ReqId) {
    c in s.clients && s.clients[c].phase == Over(false)
  }

  /** A request is over without success only if one of its statements failed, or it was the victim of 6
      deadlocks, those of its earlier runs included. */
  lemma {:induction false} FailureHasItsCause(s: System, run: seq<Action>, c: ReqId)
    requires Legal(s, run) && !IsRefused(s, c) && IsRefused(After(s, run), c)
    ensures Fail(c) in run
            || (if c in s.clients then s.clients[c].runs - 1 else 0) + DeadlocksOf(run, c) >= MAX_DEADLOCK_ATTEMPTS
    decreases |run|
  {
    var t := Step(s, run[0]);
    hide Members, RoleOf, Found, RowsAfter, LineOf;
    if run[0] != Fail(c) && !IsRefused(t, c) {
      FailureHasItsCause(t, run[1..], c);
    }
  }

  // ----- One row for each Ranger, and what an attach says it did -----

  /** The last of these requests that names the Ranger, in whichever spelling. */
  function LastOn(commits: seq<Commit>, key: string -> string, k: string): Option<Commit> {
    if commits == [] then None
    else
      var last := commits[|commits| - 1];
      if key(last.handle) == k then Some(last) else LastOn(commits[..|commits| - 1], key, k)
  }

  /** The last request that names a Ranger decides their rows: one or none. */
  lemma {:induction false} LastDecides(init: Rangers, key: string -> string, commits: seq<Commit>, k: string)
    ensures Standing(Rosters(init, key, commits), key, k) ==
        match LastOn(commits, key, k)
        case None => Standing(init, key, k)
        case Some(c) => Says(LineOf(c))
  {
    if commits != [] {
      var rest, last := commits[..|commits| - 1], commits[|commits| - 1];
      LastDecides(init, key, rest, k);
      LineSaysTheResult(Rosters(init, key, rest), key, last, k);
    }
  }

  lemma {:induction false} RostersOfConcat(init: Rangers, key: string -> string, a: seq<Commit>, b: seq<Commit>)
    ensures Rosters(init, key, a + b) == Rosters(Rosters(init, key, a), key, b)
  {
    if b == [] {
      assert a + b == a;
    } else {
      assert (a + b)[..|a + b| - 1] == a + b[..|b| - 1];
      RostersOfConcat(init, key, a, b[..|b| - 1]);
    }
  }

  /** Detaching first works, although no unique key forbids a second row: however attaches race, a Ranger
      has one row at most, under all spellings together, or the rows of the start. */
  lemma OneRowPerRanger(init: Rangers, key: string -> string, run: seq<Action>, s: System, k: string)
    requires Reaches(init, key, run, s)
    ensures |Standing(Members(s.rows), key, k)| <= 1 || Standing(Members(s.rows), key, k) == Standing(init, key, k)
  {
    RosterIsSerial(init, key, run, s);
    LastDecides(init, key, Commits(s.records), k);
  }

  /** Whether rows stand for the Ranger after these requests. */
  predicate StandsAfter(rangers: Rangers, key: string -> string, rivals: seq<Commit>, k: string) {
    match LastOn(rivals, key, k)
    case None => Standing(rangers, key, k) != []
    case Some(c) => c.Attach?
  }

  lemma SawTellsIff(init: Rangers, s: System, cl: Client)
    requires Members(s.rows) == Rosters(init, s.key, Commits(s.records)) && SawOk(init, s, cl)
    requires cl.phase.Committing? && cl.req.AttachRequest?
    ensures var all, k := Commits(s.records), s.key(cl.req.handle);
            && cl.readAt <= |all|
            && var read := Rosters(init, s.key, all[..cl.readAt]);
            (LineOf(CommitOf(cl)).Added? <==> Standing(Members(s.rows), s.key, k) == []) <==>
              (RoleOf(read, cl.req.handle).Some? <==> StandsAfter(read, s.key, all[cl.readAt..], k))
  {
    hide Rosters, Standing, RoleOf, LastOn, Members;
    var all, k := Commits(s.records), s.key(cl.req.handle);
    var read := Rosters(init, s.key, all[..cl.readAt]);
    assert all == all[..cl.readAt] + all[cl.readAt..];
    RostersOfConcat(init, s.key, all[..cl.readAt], all[cl.readAt..]);
    LastDecides(read, s.key, all[cl.readAt..], k);
  }

  /**
   * An attach that commits says truly whether it added the Ranger or only changed their row if and only if
   * its exact read found them exactly when rows stand for them after the rivals that committed since. So it
   * is wrong without a rival when they stood in another spelling; and otherwise when the last rival that
   * names them was an attach and it had read none, or a detach and it had read one.
   */
  lemma LineNamesTheActIff(init: Rangers, key: string -> string, run: seq<Action>, s: System, c: ReqId)
    requires Reaches(init, key, run, s)
    requires c in s.clients && s.clients[c].phase.Committing? && s.clients[c].req.AttachRequest?
    ensures var cl, all, k := s.clients[c], Commits(s.records), key(s.clients[c].req.handle);
            && cl.readAt <= |all|
            && var read := Rosters(init, key, all[..cl.readAt]);
            (LineOf(CommitOf(cl)).Added? <==> Standing(Members(s.rows), key, k) == []) <==>
              (RoleOf(read, cl.req.handle).Some? <==> StandsAfter(read, key, all[cl.readAt..], k))
  {
    ReachedInv(init, key, run, s);
    assert SawOk(init, s, s.clients[c]);
    hide Inv, Reaches;
    SawTellsIff(init, s, s.clients[c]);
  }
}
