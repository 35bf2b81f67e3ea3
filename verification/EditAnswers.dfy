/** What an answer means: what a request that was told of success has done, and why another was refused. */
module EditAnswers {
  import opened Base
  import opened Retry
  import opened EditProtocol
  import opened EditProofs
  import opened EditHistory
  import opened EditAudit
  import opened EditTheorems

  // ----- Every answer has its cause -----

  /** The request's own patch is among the commits. */
  ghost predicate CommittedBy<Patch>(commits: seq<Commit<Patch>>, c: ReqId, patch: Patch) {
    exists i :: 0 <= i < |commits| && commits[i].who == Some(c) && commits[i].patch == patch
  }

  /** What the request's merge gives on the row of the first n commits. */
  function BuildAt<Row, Patch>(kind: Kind<Row, Patch>, init: Row, commits: seq<Commit<Patch>>, n: nat, patch: Patch,
      now: Time): Build<Row>
    requires n <= |commits|
  {
    kind.build(Serial(kind, init, commits, n), patch, now)
  }

  /** On some row that was stored since the request arrived, it changes nothing. */
  ghost predicate ChangesNothing<Row, Patch>(kind: Kind<Row, Patch>, init: Row, commits: seq<Commit<Patch>>,
      since: nat, patch: Patch)
  {
    exists n: nat, now :: since <= n <= |commits| &&
      var m := BuildAt(kind, init, commits, n, patch, now); m.Merge? && m.changes == []
  }

  /** On some row that was stored since the request arrived, the record refuses it with this answer. */
  ghost predicate Refuses<Row, Patch>(kind: Kind<Row, Patch>, init: Row, commits: seq<Commit<Patch>>,
      since: nat, patch: Patch, answer: Answer)
  {
    exists n: nat, now :: since <= n <= |commits| && BuildAt(kind, init, commits, n, patch, now) == Reject(answer)
  }

  /** A statement of the request failed with this answer. */
  ghost predicate StatementFailed<Patch>(run: seq<Action<Patch>>, c: ReqId, answer: Answer) {
    exists k :: 0 <= k < |run| && run[k].Fail? && run[k].c == c && run[k].answer == answer
  }

  /** How often the request was a deadlock victim. */
  function Deadlocks<Patch>(run: seq<Action<Patch>>, c: ReqId): nat {
    if run == [] then 0
    else
      var last := run[|run| - 1];
      Deadlocks(run[..|run| - 1], c) + if last.Deadlock? && last.c == c then 1 else 0
  }

  ghost predicate Deserved<Row, Patch>(
    kind: Kind<Row, Patch>, init: Row, run: seq<Action<Patch>>, s: System<Row, Patch>, c: ReqId,
    cl: Client<Row, Patch>, answer: Answer)
  {
    match answer
    case Done => CommittedBy(s.commits, c, cl.patch) || ChangesNothing(kind, init, s.commits, cl.since, cl.patch)
    case Conflict => true
    case _ =>
      || StatementFailed(run, c, answer)
      || Refuses(kind, init, s.commits, cl.since, cl.patch, answer)
      || (answer == NotFound && s.row.None?)
      || (answer == ServerError && Deadlocks(run, c) >= MAX_DEADLOCK_ATTEMPTS)
  }

  ghost predicate CauseOk<Row, Patch>(
    kind: Kind<Row, Patch>, init: Row, run: seq<Action<Patch>>, s: System<Row, Patch>, c: ReqId,
    cl: Client<Row, Patch>)
  {
    match cl.progress
    case Trying(_, deadlocks) => deadlocks <= Deadlocks(run, c) + 1
    case Answered(answer) => Deserved(kind, init, run, s, c, cl, answer)
  }

  ghost predicate CausesInv<Row, Patch>(kind: Kind<Row, Patch>, init: Row, run: seq<Action<Patch>>,
      s: System<Row, Patch>)
  {
    forall c :: c in s.clients ==> CauseOk(kind, init, run, s, c, s.clients[c])
  }

  /** Commits are only added, and a record that is gone stays gone. */
  lemma HistoryGrows<Row, Patch>(kind: Kind<Row, Patch>, init: Versioned<Row>, s: System<Row, Patch>, a: Action<Patch>)
    requires Inv(kind, init, s) && Enabled(kind, s, a)
    ensures s.commits <= Step(kind, s, a).commits
    ensures s.row.None? ==> Step(kind, s, a).row.None?
  {
    assert a.CommitTxn? ==> ClientInv(kind, init, s, a.c, s.clients[a.c]);
    hide Inv, Plan, AddEntries;
  }

  lemma EarlierRowsStay<Row, Patch>(kind: Kind<Row, Patch>, init: Row, commits: seq<Commit<Patch>>,
      more: seq<Commit<Patch>>)
    requires commits <= more
    ensures forall n: nat :: n <= |commits| ==> Serial(kind, init, more, n) == Serial(kind, init, commits, n)
  {
    forall n: nat | n <= |commits| ensures Serial(kind, init, more, n) == Serial(kind, init, commits, n) {
      assert more == commits + more[|commits|..];
      SerialOfLonger(kind, init, commits, more[|commits|..], n);
    }
  }

  lemma DeadlocksNext<Patch>(run: seq<Action<Patch>>, a: Action<Patch>, c: ReqId)
    ensures Deadlocks(run + [a], c) == Deadlocks(run, c) + if a.Deadlock? && a.c == c then 1 else 0
  {
    assert (run + [a])[..|run|] == run;
  }

  lemma FailedStays<Patch>(run: seq<Action<Patch>>, a: Action<Patch>, c: ReqId, answer: Answer)
    ensures StatementFailed(run, c, answer) ==> StatementFailed(run + [a], c, answer)
    ensures a.Fail? && a.c == c && a.answer == answer ==> StatementFailed(run + [a], c, answer)
  {
    assert (run + [a])[|run|] == a;
    if k :| 0 <= k < |run| && run[k].Fail? && run[k].c == c && run[k].answer == answer {
      assert (run + [a])[k] == run[k];
    }
  }

  lemma ChangesNothingStays<Row, Patch>(kind: Kind<Row, Patch>, init: Row, commits: seq<Commit<Patch>>,
      more: seq<Commit<Patch>>, since: nat, patch: Patch)
    requires commits <= more && ChangesNothing(kind, init, commits, since, patch)
    ensures ChangesNothing(kind, init, more, since, patch)
  {
    var n: nat, now :| since <= n <= |commits| &&
      var m := BuildAt(kind, init, commits, n, patch, now); m.Merge? && m.changes == [];
    EarlierRowsStay(kind, init, commits, more);
    assert BuildAt(kind, init, more, n, patch, now) == BuildAt(kind, init, commits, n, patch, now);
  }

  lemma RefusesStays<Row, Patch>(kind: Kind<Row, Patch>, init: Row, commits: seq<Commit<Patch>>,
      more: seq<Commit<Patch>>, since: nat, patch: Patch, answer: Answer)
    requires commits <= more && Refuses(kind, init, commits, since, patch, answer)
    ensures Refuses(kind, init, more, since, patch, answer)
  {
    var n: nat, now :| since <= n <= |commits| && BuildAt(kind, init, commits, n, patch, now) == Reject(answer);
    EarlierRowsStay(kind, init, commits, more);
    assert BuildAt(kind, init, more, n, patch, now) == BuildAt(kind, init, commits, n, patch, now);
  }

  lemma CommittedStays<Patch>(commits: seq<Commit<Patch>>, more: seq<Commit<Patch>>, c: ReqId, patch: Patch)
    requires commits <= more && CommittedBy(commits, c, patch)
    ensures CommittedBy(more, c, patch)
  {
    var i :| 0 <= i < |commits| && commits[i].who == Some(c) && commits[i].patch == patch;
    assert more[i].who == Some(c);
  }

  /** Whoever takes no part in a step keeps the cause of its answer. */
  lemma CauseStays<Row, Patch>(
    kind: Kind<Row, Patch>, init: Row, run: seq<Action<Patch>>, s: System<Row, Patch>, a: Action<Patch>,
    t: System<Row, Patch>, c: ReqId, cl: Client<Row, Patch>)
    requires s.commits <= t.commits && (s.row.None? ==> t.row.None?)
    requires CauseOk(kind, init, run, s, c, cl)
    ensures CauseOk(kind, init, run + [a], t, c, cl)
  {
    hide CommittedBy, ChangesNothing, Refuses, StatementFailed;
    DeadlocksNext(run, a, c);
    if cl.progress.Answered? {
      FailedStays(run, a, c, cl.progress.answer);
      if CommittedBy(s.commits, c, cl.patch) {
        CommittedStays(s.commits, t.commits, c, cl.patch);
      }
      if ChangesNothing(kind, init, s.commits, cl.since, cl.patch) {
        ChangesNothingStays(kind, init, s.commits, t.commits, cl.since, cl.patch);
      }
      if Refuses(kind, init, s.commits, cl.since, cl.patch, cl.progress.answer) {
        RefusesStays(kind, init, s.commits, t.commits, cl.since, cl.patch, cl.progress.answer);
      }
    }
  }

  lemma ReadHasCause<Row, Patch>(
    kind: Kind<Row, Patch>, init: Versioned<Row>, run: seq<Action<Patch>>, s: System<Row, Patch>, c: ReqId, now: Time)
    requires Inv(kind, init, s) && CanRead(s, c) && CauseOk(kind, init.data, run, s, c, s.clients[c])
    requires forall row, p, t :: kind.build(row, p, t).Reject? ==> IsError(kind.build(row, p, t).answer)
    ensures c in StepRead(kind, s, c, now).clients
    ensures CauseOk(kind, init.data, run + [Read(c, now)], StepRead(kind, s, c, now), c,
                    StepRead(kind, s, c, now).clients[c])
  {
    assert ClientInv(kind, init, s, c, s.clients[c]);
    DeadlocksNext(run, Read(c, now), c);
    if s.row.Some? {
      var built := BuildAt(kind, init.data, s.commits, |s.commits|, s.clients[c].patch, now);
      assert built == kind.build(s.row.value.data, s.clients[c].patch, now);
    }
  }

  lemma CommitHasCause<Row, Patch>(
    kind: Kind<Row, Patch>, init: Versioned<Row>, run: seq<Action<Patch>>, s: System<Row, Patch>, c: ReqId)
    requires Inv(kind, init, s) && CanCommit(s, c)
    ensures c in StepCommit(s, c).clients
    ensures CauseOk(kind, init.data, run + [CommitTxn(c)], StepCommit(s, c), c, StepCommit(s, c).clients[c])
  {
    var cl, t := s.clients[c], StepCommit(s, c);
    assert ClientInv(kind, init, s, c, cl);
    if cl.phase.work.changes != [] {
      assert t.commits[|s.commits|].who == Some(c);
    } else {
      var n := ReadAt(init, cl.phase.work);
      var m := BuildAt(kind, init.data, t.commits, n, cl.patch, cl.phase.work.now);
      assert m.Merge? && m.changes == [];
    }
  }

  /** An attempt that ends leaves its request with one of the causes, or trying with the deadlocks counted. */
  lemma EndHasCause<Row, Patch>(
    kind: Kind<Row, Patch>, init: Row, run: seq<Action<Patch>>, s: System<Row, Patch>, c: ReqId, o: Outcome,
    a: Action<Patch>)
    requires c in s.clients && InBounds(s.clients[c].progress) && s.clients[c].progress.Trying?
    requires CauseOk(kind, init, run, s, c, s.clients[c])
    requires match o
             case Applied => false
             case Conflicted => a.Recheck?
             case Deadlocked => a == Deadlock(c)
             case Failed(answer) =>
               answer != Done && (a == Fail(c, answer) || (a.Recheck? && answer == NotFound && s.row.None?))
    ensures c in EndAttempt(s, c, o).clients
    ensures CauseOk(kind, init, run + [a], EndAttempt(s, c, o), c, EndAttempt(s, c, o).clients[c])
  {
    hide ChangesNothing, Refuses, CommittedBy, StatementFailed;
    DeadlocksNext(run, a, c);
    if a.Fail? {
      FailedStays(run, a, c, a.answer);
    }
  }

  lemma EndStepHasCause<Row, Patch>(
    kind: Kind<Row, Patch>, init: Row, run: seq<Action<Patch>>, s: System<Row, Patch>, a: Action<Patch>)
    requires EndsAttempt(a) && Enabled(kind, s, a) && CauseOk(kind, init, run, s, a.c, s.clients[a.c])
    requires InBounds(s.clients[a.c].progress) && s.clients[a.c].progress.Trying?
    ensures a.c in Step(kind, s, a).clients
    ensures CauseOk(kind, init, run + [a], Step(kind, s, a), a.c, Step(kind, s, a).clients[a.c])
  {
    var o := match a
      case Recheck(_) => if s.row.None? then Failed(NotFound) else Conflicted
      case Deadlock(_) => Deadlocked
      case Fail(_, answer) => Failed(answer);
    hide CauseOk, EndAttempt;
    EndHasCause(kind, init, run, s, a.c, o, a);
  }

  /** Arriving, guarding, inserting and publishing answer nothing. */
  lemma QuietStepHasCause<Row, Patch>(
    kind: Kind<Row, Patch>, init: Row, run: seq<Action<Patch>>, s: System<Row, Patch>, a: Action<Patch>)
    requires Enabled(kind, s, a) && (a.Arrive? || a.Guard? || a.Insert? || a.Notify?)
    requires s.commits <= Step(kind, s, a).commits && (s.row.None? ==> Step(kind, s, a).row.None?)
    requires a.c in s.clients ==> CauseOk(kind, init, run, s, a.c, s.clients[a.c])
    ensures a.c in Step(kind, s, a).clients
    ensures CauseOk(kind, init, run + [a], Step(kind, s, a), a.c, Step(kind, s, a).clients[a.c])
  {
    hide ChangesNothing, Refuses, CommittedBy, StatementFailed, Plan;
    if a.Arrive? {
      DeadlocksNext(run, a, a.c);
    } else {
      CauseStays(kind, init, run, s, a, Step(kind, s, a), a.c, s.clients[a.c]);
    }
  }

  lemma ActorHasCause<Row(!new), Patch(!new)>(
    kind: Kind<Row, Patch>, init: Versioned<Row>, run: seq<Action<Patch>>, s: System<Row, Patch>, a: Action<Patch>,
    c: ReqId)
    requires Honest(kind) && Inv(kind, init, s) && Enabled(kind, s, a) && CausesInv(kind, init.data, run, s)
    requires c in Step(kind, s, a).clients && (c !in s.clients || Step(kind, s, a).clients[c] != s.clients[c])
    ensures CauseOk(kind, init.data, run + [a], Step(kind, s, a), c, Step(kind, s, a).clients[c])
  {
    assert !a.DirectWrite? && !a.OtherEntry? && !a.Vanish? && a.c == c;
    assert c in s.clients ==> CauseOk(kind, init.data, run, s, c, s.clients[c]);
    if EndsAttempt(a) {
      assert ClientInv(kind, init, s, c, s.clients[c]);
      hide Inv, CauseOk, EndAttempt, Honest;
      EndStepHasCause(kind, init.data, run, s, a);
    } else if a.Read? {
      ReadHasCause(kind, init, run, s, c, a.now);
    } else if a.CommitTxn? {
      CommitHasCause(kind, init, run, s, c);
    } else {
      HistoryGrows(kind, init, s, a);
      hide CausesInv, Inv, CauseOk;
      QuietStepHasCause(kind, init.data, run, s, a);
    }
  }

  lemma StepKeepsCauses<Row(!new), Patch(!new)>(
    kind: Kind<Row, Patch>, init: Versioned<Row>, run: seq<Action<Patch>>, s: System<Row, Patch>, a: Action<Patch>)
    requires Honest(kind) && Inv(kind, init, s) && Enabled(kind, s, a) && CausesInv(kind, init.data, run, s)
    ensures CausesInv(kind, init.data, run + [a], Step(kind, s, a))
  {
    var t := Step(kind, s, a);
    HistoryGrows(kind, init, s, a);
    hide Inv, Step, Honest;
    forall c | c in t.clients ensures CauseOk(kind, init.data, run + [a], t, c, t.clients[c]) {
      if c in s.clients && t.clients[c] == s.clients[c] {
        CauseStays(kind, init.data, run, s, a, t, c, s.clients[c]);
      } else {
        ActorHasCause(kind, init, run, s, a, c);
      }
    }
  }

  lemma {:induction false} RunKeepsCauses<Row(!new), Patch(!new)>(
    kind: Kind<Row, Patch>, init: Versioned<Row>, past: seq<Action<Patch>>, s: System<Row, Patch>,
    run: seq<Action<Patch>>)
    requires Honest(kind) && Inv(kind, init, s) && CausesInv(kind, init.data, past, s) && Legal(kind, s, run)
    ensures CausesInv(kind, init.data, past + run, After(kind, s, run))
    decreases |run|
  {
    if run == [] {
      assert past + run == past;
    } else {
      StepKeepsInv(kind, init, s, run[0]);
      StepKeepsCauses(kind, init, past, s, run[0]);
      RunKeepsCauses(kind, init, past + [run[0]], Step(kind, s, run[0]), run[1..]);
      assert past + [run[0]] + run[1..] == past + run;
    }
  }

  /**
   * No answer without its cause, whatever the interleaving. A request told of success has committed, or it
   * changes nothing on some row that was stored since it arrived. A 404 or a 400 comes of a failing statement,
   * or of a record that is gone, or of the record's own refusal on such a row; a 500 of these, or of the last
   * of 6 deadlocks. (The cause of a 409 is ConflictNeedsRivals.)
   */
  lemma AnswersAreDeserved<Row(!new), Patch(!new)>(
    kind: Kind<Row, Patch>, init: Versioned<Row>, run: seq<Action<Patch>>, s: System<Row, Patch>, c: ReqId)
    requires Honest(kind) && Reaches(kind, init, run, s)
    requires c in s.clients && s.clients[c].progress.Answered?
    ensures Deserved(kind, init.data, run, s, c, s.clients[c], s.clients[c].progress.answer)
  {
    InvInitial(kind, init);
    assert CausesInv(kind, init.data, [], Initial<Row, Patch>(init));
    RunKeepsCauses(kind, init, [], Initial(init), run);
    assert [] + run == run;
    assert CauseOk(kind, init.data, run, s, c, s.clients[c]);
  }

  /** A request that changes something on every row, and was told of success, has committed. */
  lemma SuccessMeansCommitted<Row(!new), Patch(!new)>(
    kind: Kind<Row, Patch>, init: Versioned<Row>, run: seq<Action<Patch>>, s: System<Row, Patch>, c: ReqId)
    requires Honest(kind) && Reaches(kind, init, run, s) && ToldDone(s, c)
    requires forall row, now :: kind.build(row, s.clients[c].patch, now).Merge? ==>
               kind.build(row, s.clients[c].patch, now).changes != []
    ensures CommittedBy(s.commits, c, s.clients[c].patch)
  {
    AnswersAreDeserved(kind, init, run, s, c);
  }

  /** A request publishes exactly once if it is answered with success, and never otherwise; an edit commits at
      most once, and only a request past its commit publishes. Success takes a commit, or a row stored since
      the request arrived on which it changes nothing. */
  lemma PublishedOnceAfterCommit<Row(!new), Patch(!new)>(
    kind: Kind<Row, Patch>, init: Versioned<Row>, run: seq<Action<Patch>>, s: System<Row, Patch>, c: ReqId)
    requires Honest(kind) && Reaches(kind, init, run, s)
    ensures multiset(s.published)[c] == if ToldDone(s, c) then 1 else 0
    ensures forall i, j :: 0 <= i < j < |s.commits| && s.commits[i].who == Some(c) ==> s.commits[j].who != Some(c)
    ensures forall i :: 0 <= i < |s.commits| && s.commits[i].who == Some(c) ==>
              c in s.clients && (s.clients[c].phase.Notifying? || ToldDone(s, c))
    ensures ToldDone(s, c) ==>
              var cl := s.clients[c];
              CommittedBy(s.commits, c, cl.patch) || ChangesNothing(kind, init.data, s.commits, cl.since, cl.patch)
  {
    ReachedIsGood(kind, init, run, s);
    DistinctCountsOnce(s.published, c);
    if ToldDone(s, c) {
      hide Reaches, CommittedBy, ChangesNothing;
      AnswersAreDeserved(kind, init, run, s, c);
    }
  }
}
