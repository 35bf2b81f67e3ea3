/** What an answer to an attach, a detach, a link or an unlink means, and that a request alone gets through. */
module MembershipAnswers {
  import opened Base
  import opened Retry
  import opened Membership

  // ----- Every answer has its cause -----

  ghost predicate CommittedBy<K>(commits: seq<Commit<K>>, c: ReqId, req: Request<K>) {
    exists i :: 0 <= i < |commits| && commits[i] == Commit(c, req)
  }

  /** In the table of the first n commits, the key is there if it is to be, and not if not. */
  predicate IsAsAsked<K(==)>(init: set<K>, commits: seq<Commit<K>>, n: nat, k: K, there: bool)
    requires n <= |commits|
  {
    (k in Serial(init, commits, n)) == there
  }

  /** In some table that was stored since the request arrived, its first key was as it asks. */
  ghost predicate WasAsAsked<K>(init: set<K>, commits: seq<Commit<K>>, since: nat, req: Request<K>) {
    req.keys != [] && exists n: nat :: since <= n <= |commits| && IsAsAsked(init, commits, n, req.keys[0], req.add)
  }

  /** A later key of an adding request was in such a table, or is named twice. */
  ghost predicate LaterKeyWasThere<K>(init: set<K>, commits: seq<Commit<K>>, since: nat, req: Request<K>) {
    && req.add
    && exists i: nat :: 0 < i < |req.keys| &&
         (NamedBefore(req.keys, i) || WasThere(init, commits, since, req.keys[i]))
  }

  predicate NamedBefore<K(==)>(keys: seq<K>, i: nat)
    requires i < |keys|
  {
    keys[i] in keys[..i]
  }

  ghost predicate WasThere<K>(init: set<K>, commits: seq<Commit<K>>, since: nat, k: K) {
    exists n: nat :: since <= n <= |commits| && IsAsAsked(init, commits, n, k, true)
  }

  ghost predicate StatementFailed<K>(run: seq<Action<K>>, c: ReqId, answer: Answer) {
    exists j :: 0 <= j < |run| && run[j].Fail? && run[j].c == c && run[j].answer == answer
  }

  function Deadlocks<K>(run: seq<Action<K>>, c: ReqId): nat {
    if run == [] then 0
    else
      var last := run[|run| - 1];
      Deadlocks(run[..|run| - 1], c) + if last.Deadlock? && last.c == c then 1 else 0
  }

  ghost predicate Deserved<K>(
    init: set<K>, run: seq<Action<K>>, commits: seq<Commit<K>>, c: ReqId, since: nat, req: Request<K>, answer: Answer)
  {
    if answer == Done then CommittedBy(commits, c, req) || WasAsAsked(init, commits, since, req)
    else
      || StatementFailed(run, c, answer)
      || (answer == ServerError && LaterKeyWasThere(init, commits, since, req))
      || (answer in {ServerError, req.refused} && Deadlocks(run, c) >= MAX_DEADLOCK_ATTEMPTS)
  }

  ghost predicate CauseOk<K>(
    init: set<K>, run: seq<Action<K>>, commits: seq<Commit<K>>, c: ReqId, cl: Client<K>)
  {
    && cl.since <= |commits| && cl.req.keys != [] && cl.req.refused != Done && InBounds(cl.progress)
    && (cl.progress.Trying? <==> cl.phase.Checking? || cl.phase.Running?)
    && match cl.progress
       case Trying(_, deadlocks) => deadlocks <= Deadlocks(run, c) + 1
       case Answered(answer) => Deserved(init, run, commits, c, cl.since, cl.req, answer)
  }

  ghost predicate CausesInv<K>(init: set<K>, run: seq<Action<K>>, s: System<K>) {
    forall c :: c in s.clients ==> CauseOk(init, run, s.commits, c, s.clients[c])
  }

  lemma {:induction false} EarlierTablesStay<K>(init: set<K>, commits: seq<Commit<K>>, more: seq<Commit<K>>, n: nat)
    requires commits <= more && n <= |commits|
    ensures Serial(init, more, n) == Serial(init, commits, n)
  {
    if n > 0 {
      EarlierTablesStay(init, commits, more, n - 1);
    }
  }

  lemma DeadlocksNext<K>(run: seq<Action<K>>, a: Action<K>, c: ReqId)
    ensures Deadlocks(run + [a], c) == Deadlocks(run, c) + if a.Deadlock? && a.c == c then 1 else 0
  {
    assert (run + [a])[..|run|] == run;
  }

  lemma FailedStays<K>(run: seq<Action<K>>, a: Action<K>, c: ReqId, answer: Answer)
    ensures StatementFailed(run, c, answer) ==> StatementFailed(run + [a], c, answer)
    ensures a.Fail? && a.c == c && a.answer == answer ==> StatementFailed(run + [a], c, answer)
  {
    assert (run + [a])[|run|] == a;
    if j :| 0 <= j < |run| && run[j].Fail? && run[j].c == c && run[j].answer == answer {
      assert (run + [a])[j] == run[j];
    }
  }

  lemma DeservedStays<K>(
    init: set<K>, run: seq<Action<K>>, a: Action<K>, commits: seq<Commit<K>>, more: seq<Commit<K>>, c: ReqId,
    since: nat, req: Request<K>, answer: Answer)
    requires commits <= more && Deserved(init, run, commits, c, since, req, answer)
    ensures Deserved(init, run + [a], more, c, since, req, answer)
  {
    DeadlocksNext(run, a, c);
    FailedStays(run, a, c, answer);
    if i :| 0 <= i < |commits| && commits[i] == Commit(c, req) {
      assert more[i] == Commit(c, req);
    }
    if WasAsAsked(init, commits, since, req) {
      var n: nat :| since <= n <= |commits| && IsAsAsked(init, commits, n, req.keys[0], req.add);
      EarlierTablesStay(init, commits, more, n);
      assert IsAsAsked(init, more, n, req.keys[0], req.add);
    }
    if LaterKeyWasThere(init, commits, since, req) {
      LaterKeyStays(init, commits, more, since, req);
    }
    hide StatementFailed, IsAsAsked, WasThere, LaterKeyWasThere;
  }

  lemma LaterKeyStays<K>(init: set<K>, commits: seq<Commit<K>>, more: seq<Commit<K>>, since: nat, req: Request<K>)
    requires commits <= more && LaterKeyWasThere(init, commits, since, req)
    ensures LaterKeyWasThere(init, more, since, req)
  {
    var i: nat :| 0 < i < |req.keys| && (NamedBefore(req.keys, i) || WasThere(init, commits, since, req.keys[i]));
    if WasThere(init, commits, since, req.keys[i]) {
      var n: nat :| since <= n <= |commits| && IsAsAsked(init, commits, n, req.keys[i], true);
      EarlierTablesStay(init, commits, more, n);
      assert IsAsAsked(init, more, n, req.keys[i], true);
    }
  }

  /** A request whose place a step does not touch keeps the cause of its answer. */
  lemma CauseStays<K>(init: set<K>, run: seq<Action<K>>, a: Action<K>, commits: seq<Commit<K>>, more: seq<Commit<K>>,
      c: ReqId, cl: Client<K>)
    requires commits <= more && CauseOk(init, run, commits, c, cl)
    ensures CauseOk(init, run + [a], more, c, cl)
  {
    DeadlocksNext(run, a, c);
    if cl.progress.Answered? {
      DeservedStays(init, run, a, commits, more, c, cl.since, cl.req, cl.progress.answer);
    }
    hide Deserved;
  }

  lemma CheckHasCause<K(!new)>(init: set<K>, run: seq<Action<K>>, s: System<K>, c: ReqId)
    requires Inv(init, s) && Enabled(s, Check(c)) && CauseOk(init, run, s.commits, c, s.clients[c])
    ensures c in Step(s, Check(c)).clients
    ensures CauseOk(init, run + [Check(c)], s.commits, c, Step(s, Check(c)).clients[c])
  {
    DeadlocksNext(run, Check(c), c);
    var cl := s.clients[c];
    assert IsAsAsked(init, s.commits, |s.commits|, cl.req.keys[0], cl.req.keys[0] in s.table);
    hide Inv;
  }

  lemma ExecHasCause<K(!new)>(init: set<K>, run: seq<Action<K>>, s: System<K>, c: ReqId)
    requires Inv(init, s) && CanExec(s, c) && CauseOk(init, run, s.commits, c, s.clients[c])
    ensures c in StepExec(s, c).clients
    ensures CauseOk(init, run + [Exec(c)], s.commits, c, StepExec(s, c).clients[c])
  {
    DeadlocksNext(run, Exec(c), c);
    var cl := s.clients[c];
    var txn := cl.phase.txn;
    var i := txn.done;
    assert TxnInv(s.table, cl.req, txn);
    assert txn.inserted <= Records(txn);
    assert IsAsAsked(init, s.commits, |s.commits|, cl.req.keys[i], cl.req.keys[i] in s.table);
    assert cl.req.keys[i] in txn.inserted ==> NamedBefore(cl.req.keys, i);
    assert cl.req.keys[i] in s.table ==> WasThere(init, s.commits, cl.since, cl.req.keys[i]);
    hide Inv, TxnInv;
  }

  lemma CommitHasCause<K>(init: set<K>, run: seq<Action<K>>, s: System<K>, c: ReqId)
    requires CanCommit(s, c) && CauseOk(init, run, s.commits, c, s.clients[c])
    ensures c in StepCommit(s, c).clients
    ensures CauseOk(init, run + [CommitTxn(c)], StepCommit(s, c).commits, c, StepCommit(s, c).clients[c])
  {
    var t := StepCommit(s, c);
    assert t.commits[|s.commits|] == Commit(c, s.clients[c].req);
  }

  lemma EndHasCause<K>(init: set<K>, run: seq<Action<K>>, s: System<K>, a: Action<K>)
    requires (a.Deadlock? || a.Fail?) && Enabled(s, a) && CauseOk(init, run, s.commits, a.c, s.clients[a.c])
    ensures a.c in Step(s, a).clients
    ensures CauseOk(init, run + [a], s.commits, a.c, Step(s, a).clients[a.c])
  {
    DeadlocksNext(run, a, a.c);
    if a.Fail? {
      FailedStays(run, a, a.c, a.answer);
    }
    hide StatementFailed, CommittedBy, WasAsAsked, LaterKeyWasThere;
  }

  lemma ActorHasCause<K(!new)>(init: set<K>, run: seq<Action<K>>, s: System<K>, a: Action<K>)
    requires Inv(init, s) && Enabled(s, a) && (a.c in s.clients ==> CauseOk(init, run, s.commits, a.c, s.clients[a.c]))
    ensures a.c in Step(s, a).clients
    ensures CauseOk(init, run + [a], Step(s, a).commits, a.c, Step(s, a).clients[a.c])
  {
    match a
    case Check(c) => CheckHasCause(init, run, s, c);
    case Exec(c) => ExecHasCause(init, run, s, c);
    case CommitTxn(c) => CommitHasCause(init, run, s, c);
    case Deadlock(_) => EndHasCause(init, run, s, a);
    case Fail(_, _) => EndHasCause(init, run, s, a);
    case Arrive(c, _) => DeadlocksNext(run, a, c);
    case WriteLog(c) => CauseStays(init, run, a, s.commits, s.commits, c, s.clients[c]);
    case Notify(c) => CauseStays(init, run, a, s.commits, s.commits, c, s.clients[c]);
  }

  lemma OthersAreUntouched<K>(s: System<K>, a: Action<K>)
    requires Enabled(s, a)
    ensures s.commits <= Step(s, a).commits
    ensures var t := Step(s, a);
            forall c :: c in t.clients && c != a.c ==> c in s.clients && t.clients[c] == s.clients[c]
  {
  }

  lemma StepKeepsCauses<K(!new)>(init: set<K>, run: seq<Action<K>>, s: System<K>, a: Action<K>)
    requires Inv(init, s) && Enabled(s, a) && CausesInv(init, run, s)
    ensures CausesInv(init, run + [a], Step(s, a))
  {
    ActorHasCause(init, run, s, a);
    OthersAreUntouched(s, a);
    hide Inv, Step, CauseOk, Enabled;
    var t := Step(s, a);
    forall c | c in t.clients ensures CauseOk(init, run + [a], t.commits, c, t.clients[c]) {
      if c != a.c {
        CauseStays(init, run, a, s.commits, t.commits, c, s.clients[c]);
      }
    }
  }

  lemma {:induction false} RunKeepsCauses<K(!new)>(init: set<K>, past: seq<Action<K>>, s: System<K>,
      run: seq<Action<K>>)
    requires Inv(init, s) && CausesInv(init, past, s) && Legal(s, run)
    ensures CausesInv(init, past + run, After(s, run))
    decreases |run|
  {
    if run == [] {
      assert past + run == past;
    } else {
      StepKeepsInv(init, s, run[0]);
      StepKeepsCauses(init, past, s, run[0]);
      RunKeepsCauses(init, past + [run[0]], Step(s, run[0]), run[1..]);
      assert past + [run[0]] + run[1..] == past + run;
    }
  }

  /**
   * No answer without its cause, whatever the interleaving. A request told of success has committed, or its
   * first key was as it asks in some table stored since it arrived: at its check, or when its first insert met
   * a duplicate. An error comes of a failing statement, of the last of 6 deadlocks, or of a later key that
   * was there already.
   */
  lemma AnswersAreDeserved<K(!new)>(init: set<K>, run: seq<Action<K>>, c: ReqId)
    requires Legal(Initial(init), run)
    requires var s := After(Initial(init), run); c in s.clients && s.clients[c].progress.Answered?
    ensures var s := After(Initial(init), run);
            var cl := s.clients[c];
            Deserved(init, run, s.commits, c, cl.since, cl.req, cl.progress.answer)
  {
    assert CausesInv(init, [], Initial(init));
    RunKeepsCauses(init, [], Initial(init), run);
    assert [] + run == run;
    assert CauseOk(init, run, After(Initial(init), run).commits, c, After(Initial(init), run).clients[c]);
  }

  // ----- A request alone -----

  function Times<K>(a: Action<K>, n: nat): seq<Action<K>> {
    if n == 0 then [] else [a] + Times(a, n - 1)
  }

  /** Check, change each row, log each, commit, publish. */
  function Alone<K>(c: ReqId, req: Request<K>): seq<Action<K>> {
    var n := |req.keys|;
    [Arrive(c, req)] + ([Check(c)] + (Times(Exec(c), n) + (Times(WriteLog(c), n) + ([CommitTxn(c)] + [Notify(c)]))))
  }

  lemma Go<K(!new)>(s: System<K>, a: Action<K>, rest: seq<Action<K>>)
    requires Enabled(s, a) && Legal(Step(s, a), rest)
    ensures Legal(s, [a] + rest) && After(s, [a] + rest) == After(Step(s, a), rest)
  {
    assert ([a] + rest)[1..] == rest;
  }

  lemma {:induction false} Then<K(!new)>(s: System<K>, run: seq<Action<K>>, more: seq<Action<K>>)
    requires Legal(s, run) && Legal(After(s, run), more)
    ensures Legal(s, run + more) && After(s, run + more) == After(After(s, run), more)
    decreases |run|
  {
    if run == [] {
      assert run + more == more;
    } else {
      Then(Step(s, run[0]), run[1..], more);
      assert (run + more)[1..] == run[1..] + more;
    }
  }

  function KeysOf<K(==)>(keys: seq<K>): set<K> {
    set k | k in keys
  }

  /** The transaction after its first m statements, having found the table as it was. */
  function TxnAfter<K(==)>(table: set<K>, req: Request<K>, m: nat): Txn<K>
    requires m <= |req.keys|
  {
    var keys := KeysOf(req.keys[..m]);
    if req.add then Txn(m, keys, {}, {}, 0) else Txn(m, {}, keys * table, keys - table, 0)
  }

  function With<K>(s: System<K>, c: ReqId, txn: Txn<K>): System<K>
    requires c in s.clients
  {
    SetPhase(s, c, Running(txn))
  }

  /** Nobody else has an open transaction. */
  ghost predicate Quiet<K>(s: System<K>, c: ReqId) {
    forall d :: d in s.clients && d != c ==> !s.clients[d].phase.Running?
  }

  lemma ExecStep<K(!new)>(s: System<K>, c: ReqId, req: Request<K>, m: nat)
    requires c in s.clients && s.clients[c].req == req && Quiet(s, c) && m < |req.keys|
    requires req.add ==> req.keys[m] !in s.table && req.keys[m] !in req.keys[..m]
    ensures Enabled(With(s, c, TxnAfter(s.table, req, m)), Exec(c))
    ensures Step(With(s, c, TxnAfter(s.table, req, m)), Exec(c)) == With(s, c, TxnAfter(s.table, req, m + 1))
  {
    var k := req.keys[m];
    assert req.keys[..m + 1] == req.keys[..m] + [k];
    assert KeysOf(req.keys[..m + 1]) == KeysOf(req.keys[..m]) + {k};
    var here := With(s, c, TxnAfter(s.table, req, m));
    var txn, next := TxnAfter(s.table, req, m), TxnAfter(s.table, req, m + 1);
    if !req.add {
      if k in s.table && k !in txn.deleted {
        assert next.deleted == txn.deleted + {k} && next.gaps == txn.gaps;
      } else {
        assert next.deleted == txn.deleted && next.gaps == txn.gaps + ({k} - txn.deleted);
      }
    }
  }

  lemma {:induction false} ExecsRun<K(!new)>(s: System<K>, c: ReqId, req: Request<K>, m: nat)
    requires c in s.clients && s.clients[c].req == req && Quiet(s, c) && m <= |req.keys|
    requires req.add ==> forall i :: 0 <= i < |req.keys| ==> req.keys[i] !in s.table && req.keys[i] !in req.keys[..i]
    ensures var here := With(s, c, TxnAfter(s.table, req, m));
            && Legal(here, Times(Exec(c), |req.keys| - m))
            && After(here, Times(Exec(c), |req.keys| - m)) == With(s, c, TxnAfter(s.table, req, |req.keys|))
    decreases |req.keys| - m
  {
    if m < |req.keys| {
      ExecStep(s, c, req, m);
      ExecsRun(s, c, req, m + 1);
      hide TxnAfter, With, Legal, After, Enabled, Step;
      Go(With(s, c, TxnAfter(s.table, req, m)), Exec(c), Times(Exec(c), |req.keys| - m - 1));
    }
  }

  lemma {:induction false} LogsRun<K(!new)>(s: System<K>, c: ReqId, txn: Txn<K>, m: nat)
    requires c in s.clients && m <= |s.clients[c].req.keys| == txn.done
    ensures var n := |s.clients[c].req.keys|;
            && Legal(With(s, c, txn.(logged := m)), Times(WriteLog(c), n - m))
            && After(With(s, c, txn.(logged := m)), Times(WriteLog(c), n - m)) == With(s, c, txn.(logged := n))
    decreases |s.clients[c].req.keys| - m
  {
    if m < txn.done {
      LogsRun(s, c, txn, m + 1);
      var here := With(s, c, txn.(logged := m));
      assert Step(here, WriteLog(c)) == With(s, c, txn.(logged := m + 1));
      Go(here, WriteLog(c), Times(WriteLog(c), txn.done - m - 1));
    }
  }

  lemma CommitsAndPublishes<K(!new)>(s: System<K>, c: ReqId) returns (t: System<K>)
    requires CanCommit(s, c)
    ensures Legal(s, [CommitTxn(c)] + [Notify(c)]) && After(s, [CommitTxn(c)] + [Notify(c)]) == t
    ensures t.table == (s.table + s.clients[c].phase.txn.inserted) - s.clients[c].phase.txn.deleted
    ensures t.log == s.log + EntriesOf(s.clients[c].req) && t.commits == s.commits + [Commit(c, s.clients[c].req)]
    ensures c in t.clients && t.clients[c].phase.Over? && t.clients[c].progress == Answered(Done)
  {
    hide EntriesOf;
    var committed := Step(s, CommitTxn(c));
    t := Step(committed, Notify(c));
    var last: seq<Action<K>> := [Notify(c)];
    assert last[1..] == [] && Legal(t, []) && Legal(committed, last) && After(committed, last) == t;
    hide Legal, After;
    Go(s, CommitTxn(c), last);
  }

  /** From the open transaction to the notification. */
  lemma TransactionRuns<K(!new)>(s: System<K>, c: ReqId, req: Request<K>) returns (t: System<K>)
    requires c in s.clients && s.clients[c].req == req && s.clients[c].phase == Running(FreshTxn()) && Quiet(s, c)
    requires req.add ==> forall i :: 0 <= i < |req.keys| ==> req.keys[i] !in s.table && req.keys[i] !in req.keys[..i]
    ensures var n := |req.keys|;
            var run := Times(Exec(c), n) + (Times(WriteLog(c), n) + ([CommitTxn(c)] + [Notify(c)]));
            Legal(s, run) && After(s, run) == t
    ensures t.table == if req.add then s.table + KeysOf(req.keys) else s.table - KeysOf(req.keys)
    ensures t.log == s.log + EntriesOf(req) && t.commits == s.commits + [Commit(c, req)]
    ensures c in t.clients && t.clients[c].phase.Over? && t.clients[c].progress == Answered(Done)
  {
    var n := |req.keys|;
    hide Legal, After, EntriesOf;
    assert req.keys[..0] == [] && req.keys[..n] == req.keys;
    assert TxnAfter(s.table, req, 0) == FreshTxn();
    assert With(s, c, FreshTxn()) == s;
    ExecsRun(s, c, req, 0);
    var txn := TxnAfter(s.table, req, n);
    LogsRun(s, c, txn, 0);
    assert txn.(logged := 0) == txn;
    var logged := With(s, c, txn.(logged := n));
    t := CommitsAndPublishes(logged, c);
    assert !req.add ==> s.table - KeysOf(req.keys) * s.table == s.table - KeysOf(req.keys);
    hide With, TxnAfter, Times;
    Then(With(s, c, txn), Times(WriteLog(c), n), [CommitTxn(c)] + [Notify(c)]);
    Then(s, Times(Exec(c), n), Times(WriteLog(c), n) + ([CommitTxn(c)] + [Notify(c)]));
  }

  /**
   * From any state without an open transaction: a request whose first key is not as it asks, and, if it adds,
   * none of whose keys is there or named twice, runs its statements and is told of success. Exactly its keys
   * have come or gone, with one new entry for each, in order.
   */
  lemma AloneGetsThrough<K(!new)>(s: System<K>, c: ReqId, req: Request<K>) returns (t: System<K>)
    requires c !in s.clients && Quiet(s, c) && req.keys != [] && req.refused != Done
    requires !req.add ==> req.keys[0] in s.table
    requires req.add ==> forall i :: 0 <= i < |req.keys| ==> req.keys[i] !in s.table && req.keys[i] !in req.keys[..i]
    ensures Legal(s, Alone(c, req)) && After(s, Alone(c, req)) == t
    ensures t.table == if req.add then s.table + KeysOf(req.keys) else s.table - KeysOf(req.keys)
    ensures |t.log| == |s.log| + |req.keys| && s.log <= t.log
    ensures forall i :: 0 <= i < |req.keys| ==> t.log[|s.log| + i] == LogEntry(req.keys[i], req.add)
    ensures t.commits == s.commits + [Commit(c, req)]
    ensures c in t.clients && t.clients[c].phase.Over? && t.clients[c].progress == Answered(Done)
  {
    var arrived := Step(s, Arrive(c, req));
    var begun := Step(arrived, Check(c));
    assert begun.clients[c].phase == Running(FreshTxn());
    var n := |req.keys|;
    var rest := Times(Exec(c), n) + (Times(WriteLog(c), n) + ([CommitTxn(c)] + [Notify(c)]));
    t := TransactionRuns(begun, c, req);
    hide Legal, After, Times;
    Go(arrived, Check(c), rest);
    Go(s, Arrive(c, req), [Check(c)] + rest);
  }
}
