/**
 * Attaching and detaching one member at a time: the transactions behind an Incident's types and its
 * links to other Incidents (api/incidentrelation.go), as a machine over their database statements.
 *
 * The table is a set of keys. A transaction changes rows in place: an insert or a delete of a row that
 * is there takes its record lock, and a delete that finds nothing keeps the gap where the row would be,
 * which other such deletes share but inserts wait for. Locks are held until commit or rollback.
 */
module Membership {
  import opened Base
  import opened Retry

  /** Add or remove the given keys, in that order, in one transaction; each writes one log entry.
      `refused` is the answer when the first insert fails for good. */
  datatype Request<K> = Request(keys: seq<K>, add: bool, refused: Answer)

  /** An open transaction: statements done, rows inserted and deleted, gaps kept, entries written. */
  datatype Txn<K> = Txn(done: nat, inserted: set<K>, deleted: set<K>, gaps: set<K>, logged: nat)

  datatype Phase<K> = Checking | Running(txn: Txn<K>) | Notifying | Over

  /** `since` is history: how many requests had committed when this one arrived. */
  datatype Client<K> = Client(req: Request<K>, phase: Phase<K>, progress: Progress, since: nat)

  datatype Commit<K> = Commit(who: ReqId, req: Request<K>)

  /** A log entry says which key was added or removed. */
  datatype LogEntry<K> = LogEntry(key: K, add: bool)

  datatype System<K> = System(
    table: set<K>,                       // committed rows
    log: seq<LogEntry<K>>,                // committed report entries
    commits: seq<Commit<K>>,              // history: committed requests, in commit order
    clients: map<ReqId, Client<K>>)

  datatype Action<K> =
    | Arrive(c: ReqId, req: Request<K>)
    | Check(c: ReqId)                    // the membership read before the transaction
    | Exec(c: ReqId)                     // the next insert or delete
    | WriteLog(c: ReqId)                 // the next report entry
    | CommitTxn(c: ReqId)
    | Notify(c: ReqId)
    | Deadlock(c: ReqId)
    | Fail(c: ReqId, answer: Answer)

  function FreshTxn<K>(): Txn<K> {
    Txn(0, {}, {}, {}, 0)
  }

  function Records<K>(txn: Txn<K>): set<K> {
    txn.inserted + txn.deleted
  }

  predicate IsRunning<K>(s: System<K>, c: ReqId) {
    c in s.clients && s.clients[c].phase.Running?
  }

  /** Another transaction holds the record lock of k. */
  predicate RecordHeld<K>(s: System<K>, c: ReqId, k: K) {
    exists d :: d in s.clients && d != c && s.clients[d].phase.Running? && k in Records(s.clients[d].phase.txn)
  }

  predicate GapHeld<K>(s: System<K>, c: ReqId, k: K) {
    exists d :: d in s.clients && d != c && s.clients[d].phase.Running? && k in s.clients[d].phase.txn.gaps
  }

  /** The row as the transaction finds it: committed rows and its own changes. */
  predicate Finds<K>(s: System<K>, txn: Txn<K>, k: K) {
    (k in s.table && k !in txn.deleted) || k in txn.inserted
  }

  predicate CanExec<K>(s: System<K>, c: ReqId) {
    IsRunning(s, c) &&
    var cl := s.clients[c];
    var txn := cl.phase.txn;
    txn.done < |cl.req.keys| &&
    var k := cl.req.keys[txn.done];
    !RecordHeld(s, c, k) &&
    (cl.req.add && !Finds(s, txn, k) ==> !GapHeld(s, c, k))
  }

  predicate CanLog<K>(s: System<K>, c: ReqId) {
    IsRunning(s, c) &&
    s.clients[c].phase.txn.done == |s.clients[c].req.keys| && s.clients[c].phase.txn.logged < |s.clients[c].req.keys|
  }

  predicate CanCommit<K>(s: System<K>, c: ReqId) {
    IsRunning(s, c) &&
    s.clients[c].phase.txn.done == |s.clients[c].req.keys| && s.clients[c].phase.txn.logged == |s.clients[c].req.keys|
  }

  predicate Enabled<K>(s: System<K>, a: Action<K>) {
    match a
    case Arrive(c, req) => c !in s.clients && |req.keys| > 0 && req.refused != Done
    case Check(c) => c in s.clients && s.clients[c].phase.Checking?
    case Exec(c) => CanExec(s, c)
    case WriteLog(c) => CanLog(s, c)
    case CommitTxn(c) => CanCommit(s, c)
    case Notify(c) => c in s.clients && s.clients[c].phase.Notifying?
    case Deadlock(c) => IsRunning(s, c)
    case Fail(c, answer) =>
      c in s.clients && (s.clients[c].phase.Checking? || s.clients[c].phase.Running?)
      && answer != Done && answer != Conflict
  }

  function SetPhase<K>(s: System<K>, c: ReqId, phase: Phase<K>): System<K>
    requires c in s.clients
  {
    s.(clients := s.clients[c := s.clients[c].(phase := phase)])
  }

  /** The request is over with this answer; an open transaction is rolled back. */
  function Finish<K>(s: System<K>, c: ReqId, answer: Answer): System<K>
    requires c in s.clients
  {
    s.(clients := s.clients[c := s.clients[c].(phase := Over, progress := Answered(answer))])
  }

  /** The transaction lost a deadlock: it is rolled back, and run again while attempts remain. */
  function StepDeadlock<K>(s: System<K>, c: ReqId): System<K>
    requires IsRunning(s, c)
  {
    var cl := s.clients[c];
    var p := Advance(cl.progress, Deadlocked);
    if p.Trying? then s.(clients := s.clients[c := cl.(phase := Running(FreshTxn()), progress := p)])
    else if cl.phase.txn.done == 0 && cl.req.add then Finish(s, c, cl.req.refused)
    else Finish(s, c, ServerError)
  }

  function StepExec<K>(s: System<K>, c: ReqId): System<K>
    requires CanExec(s, c)
  {
    var cl := s.clients[c];
    var txn := cl.phase.txn;
    var k := cl.req.keys[txn.done];
    var next := txn.(done := txn.done + 1);
    if cl.req.add then
      if Finds(s, txn, k) then
        // A duplicate key: on the first insert it means "already done", and the transaction is dropped.
        if txn.done == 0 then s.(clients := s.clients[c := cl.(phase := Notifying, progress := Answered(Done))])
        else Finish(s, c, ServerError)
      else SetPhase(s, c, Running(next.(inserted := txn.inserted + {k})))
    else if Finds(s, txn, k) then SetPhase(s, c, Running(next.(deleted := txn.deleted + {k})))
    else SetPhase(s, c, Running(next.(gaps := txn.gaps + ({k} - txn.deleted))))
  }

  function EntriesOf<K>(req: Request<K>): (r: seq<LogEntry<K>>)
    ensures |r| == |req.keys|
    ensures forall i :: 0 <= i < |r| ==> r[i] == LogEntry(req.keys[i], req.add)
  {
    seq(|req.keys|, i requires 0 <= i < |req.keys| => LogEntry(req.keys[i], req.add))
  }

  function StepCommit<K>(s: System<K>, c: ReqId): System<K>
    requires CanCommit(s, c)
  {
    var cl := s.clients[c];
    System((s.table + cl.phase.txn.inserted) - cl.phase.txn.deleted,
           s.log + EntriesOf(cl.req),
           s.commits + [Commit(c, cl.req)],
           s.clients[c := cl.(phase := Notifying, progress := Answered(Done))])
  }

  function Step<K>(s: System<K>, a: Action<K>): System<K>
    requires Enabled(s, a)
  {
    match a
    case Arrive(c, req) => s.(clients := s.clients[c := Client(req, Checking, START, |s.commits|)])
    case Check(c) =>
      // Already in the state the request asks for: nothing to do and nothing to record.
      if (s.clients[c].req.keys != [] && s.clients[c].req.keys[0] in s.table) == s.clients[c].req.add then
          Finish(s, c, Done)
      else SetPhase(s, c, Running(FreshTxn()))
    case Exec(c) => StepExec(s, c)
    case WriteLog(c) =>
      SetPhase(s, c, Running(s.clients[c].phase.txn.(logged := s.clients[c].phase.txn.logged + 1)))
    case CommitTxn(c) => StepCommit(s, c)
    case Notify(c) => SetPhase(s, c, Over)
    case Deadlock(c) => StepDeadlock(s, c)
    case Fail(c, answer) => Finish(s, c, answer)
  }

  ghost predicate Legal<K(!new)>(s: System<K>, run: seq<Action<K>>)
    decreases |run|
  {
    run == [] || (Enabled(s, run[0]) && Legal(Step(s, run[0]), run[1..]))
  }

  ghost function After<K(!new)>(s: System<K>, run: seq<Action<K>>): System<K>
    requires Legal(s, run)
    decreases |run|
  {
    if run == [] then s else After(Step(s, run[0]), run[1..])
  }

  function Initial<K>(table: set<K>): System<K> {
    System(table, [], [], map[])
  }

  // ----- The serial specification -----

  function Keys<K>(req: Request<K>): set<K> {
    set k | k in req.keys
  }

  function Apply<K>(table: set<K>, req: Request<K>): set<K> {
    if req.add then table + Keys(req) else table - Keys(req)
  }

  /** The table after the first n commits, applied whole and one after another. */
  function Serial<K>(init: set<K>, commits: seq<Commit<K>>, n: nat): set<K>
    requires n <= |commits|
  {
    if n == 0 then init else Apply(Serial(init, commits, n - 1), commits[n - 1].req)
  }

  function SerialLog<K>(commits: seq<Commit<K>>): seq<LogEntry<K>> {
    if commits == [] then []
    else SerialLog(commits[..|commits| - 1]) + EntriesOf(commits[|commits| - 1].req)
  }

  lemma {:induction false} SerialOfLonger<K>(init: set<K>, commits: seq<Commit<K>>, commit: Commit<K>, n: nat)
    requires n <= |commits|
    ensures Serial(init, commits + [commit], n) == Serial(init, commits, n)
  {
    if n > 0 {
      SerialOfLonger(init, commits, commit, n - 1);
    }
  }

  // ----- What every run keeps -----

  /** What a transaction has done to the table so far is still true of the table. */
  ghost predicate TxnInv<K>(table: set<K>, req: Request<K>, txn: Txn<K>) {
    && txn.done <= |req.keys|
    && txn.inserted !! table
    && txn.deleted <= table
    && txn.gaps !! table
    && (forall i :: 0 <= i < txn.done ==>
          if req.add then req.keys[i] in txn.inserted else req.keys[i] in txn.deleted || req.keys[i] in txn.gaps)
    && (forall k :: k in Records(txn) ==> k in req.keys[..txn.done])
    && (if req.add then txn.deleted == {} else txn.inserted == {})
  }

  /** Two open transactions do not hold the same record, and none inserts into another's gap. */
  ghost predicate Apart<K>(t: Txn<K>, u: Txn<K>) {
    Records(t) !! Records(u) && t.inserted !! u.gaps && u.inserted !! t.gaps
  }

  ghost predicate Inv<K>(init: set<K>, s: System<K>) {
    && s.table == Serial(init, s.commits, |s.commits|)
    && s.log == SerialLog(s.commits)
    && (forall c :: IsRunning(s, c) ==> TxnInv(s.table, s.clients[c].req, s.clients[c].phase.txn))
    && (forall c, d :: IsRunning(s, c) && IsRunning(s, d) && c != d ==>
          Apart(s.clients[c].phase.txn, s.clients[d].phase.txn))
    && (forall i :: 0 <= i < |s.commits| && s.commits[i].req.add ==>
          Keys(s.commits[i].req) !! Serial(init, s.commits, i))
  }

  /** A step in which the table stays and c's transaction, if any, starts afresh or is gone. */
  lemma QuietKeepsInv<K>(init: set<K>, s: System<K>, t: System<K>, c: ReqId)
    requires Inv(init, s)
    requires t.table == s.table && t.log == s.log && t.commits == s.commits
    requires forall d :: IsRunning(t, d) && d != c ==> d in s.clients && t.clients[d] == s.clients[d]
    requires IsRunning(t, c) ==>
               t.clients[c].phase.txn == FreshTxn() ||
               (IsRunning(s, c) && t.clients[c].req == s.clients[c].req &&
                t.clients[c].phase.txn.(logged := 0) == s.clients[c].phase.txn.(logged := 0))
    ensures Inv(init, t)
  {
    forall d | IsRunning(t, d) ensures TxnInv(t.table, t.clients[d].req, t.clients[d].phase.txn) {
      assert d != c ==> IsRunning(s, d);
    }
    forall d, e | IsRunning(t, d) && IsRunning(t, e) && d != e
      ensures Apart(t.clients[d].phase.txn, t.clients[e].phase.txn)
    {
      assert d != c ==> IsRunning(s, d);
      assert e != c ==> IsRunning(s, e);
    }
  }

  lemma ExecKeepsInv<K>(init: set<K>, s: System<K>, c: ReqId)
    requires Inv(init, s) && CanExec(s, c)
    ensures Inv(init, StepExec(s, c))
  {
    var t := StepExec(s, c);
    if !IsRunning(t, c) {
      QuietKeepsInv(init, s, t, c);
    } else {
      var txn := s.clients[c].phase.txn;
      var next := t.clients[c].phase.txn;
      var k := s.clients[c].req.keys[txn.done];
      assert TxnInv(s.table, s.clients[c].req, txn);
      var keys := s.clients[c].req.keys;
      assert keys[..txn.done + 1] == keys[..txn.done] + [k];
      assert TxnInv(t.table, t.clients[c].req, next);
      forall d | IsRunning(t, d) && d != c
        ensures TxnInv(t.table, t.clients[d].req, t.clients[d].phase.txn)
        ensures Apart(next, t.clients[d].phase.txn) && Apart(t.clients[d].phase.txn, next)
      {
        assert IsRunning(s, d) && Apart(txn, s.clients[d].phase.txn);
      }
      forall d, e | IsRunning(t, d) && IsRunning(t, e) && d != e
        ensures Apart(t.clients[d].phase.txn, t.clients[e].phase.txn)
      {
        assert d != c ==> IsRunning(s, d);
        assert e != c ==> IsRunning(s, e);
      }
    }
  }

  lemma CommitKeepsInv<K>(init: set<K>, s: System<K>, c: ReqId)
    requires Inv(init, s) && CanCommit(s, c)
    ensures Inv(init, StepCommit(s, c))
  {
    var t := StepCommit(s, c);
    var cl := s.clients[c];
    var n := |s.commits|;
    assert TxnInv(s.table, cl.req, cl.phase.txn);
    CommitAppliesWhole(s.table, cl.req, cl.phase.txn);
    forall i | 0 <= i <= n ensures Serial(init, t.commits, i) == Serial(init, s.commits, i) {
      SerialOfLonger(init, s.commits, Commit(c, cl.req), i);
    }
    assert t.commits[..n] == s.commits;
    forall d | IsRunning(t, d) ensures TxnInv(t.table, t.clients[d].req, t.clients[d].phase.txn) {
      assert IsRunning(s, d) && d != c;
      assert Apart(cl.phase.txn, s.clients[d].phase.txn);
      BystanderAfterCommit(s.table, s.clients[d].req, s.clients[d].phase.txn, cl.phase.txn);
    }
    forall d, e | IsRunning(t, d) && IsRunning(t, e) && d != e
      ensures Apart(t.clients[d].phase.txn, t.clients[e].phase.txn)
    {
      assert IsRunning(s, d) && IsRunning(s, e);
    }
  }

  /** The in-place changes of a finished transaction amount to its whole request. */
  lemma CommitAppliesWhole<K>(table: set<K>, req: Request<K>, txn: Txn<K>)
    requires TxnInv(table, req, txn) && txn.done == |req.keys|
    ensures (table + txn.inserted) - txn.deleted == Apply(table, req)
    ensures req.add ==> Keys(req) !! table
  {
    assert req.keys[..txn.done] == req.keys;
    if req.add {
      assert txn.inserted == Keys(req);
    } else {
      assert forall k :: k in Keys(req) ==> k in txn.deleted || k in txn.gaps;
    }
  }

  lemma BystanderAfterCommit<K>(table: set<K>, req: Request<K>, txn: Txn<K>, other: Txn<K>)
    requires TxnInv(table, req, txn) && Apart(other, txn)
    ensures TxnInv((table + other.inserted) - other.deleted, req, txn)
  {
  }

  lemma StepKeepsInv<K(!new)>(init: set<K>, s: System<K>, a: Action<K>)
    requires Inv(init, s) && Enabled(s, a)
    ensures Inv(init, Step(s, a))
    ensures a.Check? && Step(s, a).clients[a.c].progress.Answered? && s.clients[a.c].progress.Trying? ==>
              var req := s.clients[a.c].req; req.add <==> req.keys != [] && req.keys[0] in s.table
  {
    match a
    case Exec(c) => ExecKeepsInv(init, s, c);
    case CommitTxn(c) => CommitKeepsInv(init, s, c);
    case Arrive(c, _) => QuietKeepsInv(init, s, Step(s, a), c);
    case Check(c) => QuietKeepsInv(init, s, Step(s, a), c);
    case WriteLog(c) => QuietKeepsInv(init, s, Step(s, a), c);
    case Notify(c) => QuietKeepsInv(init, s, Step(s, a), c);
    case Deadlock(c) => QuietKeepsInv(init, s, StepDeadlock(s, c), c);
    case Fail(c, answer) => QuietKeepsInv(init, s, Finish(s, c, answer), c);
  }

  lemma {:induction false} RunKeepsInv<K(!new)>(init: set<K>, s: System<K>, run: seq<Action<K>>)
    requires Inv(init, s) && Legal(s, run)
    ensures Inv(init, After(s, run))
    decreases |run|
  {
    if run != [] {
      StepKeepsInv(init, s, run[0]);
      RunKeepsInv(init, Step(s, run[0]), run[1..]);
    }
  }
}
