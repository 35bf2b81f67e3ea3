/** What every run of the edit protocol keeps. */
module EditProofs {
  import opened Base
  import opened Retry
  import opened EditProtocol

  // ----- The row and the attempts in flight -----

  /** The committed row is the serial application of the commits, and its version counts them. */
  ghost predicate RowInv<Row, Patch>(kind: Kind<Row, Patch>, init: Versioned<Row>, s: System<Row, Patch>) {
    s.row.Some? ==>
      s.row.value == Versioned(init.version + |s.commits|, Serial(kind, init.data, s.commits, |s.commits|))
  }

  /** Every commit is accepted by the record's own rules at its place in the serial order, and the
      writes that belong to no request are direct ones. */
  ghost predicate Accepted<Row, Patch>(kind: Kind<Row, Patch>, init: Versioned<Row>, commits: seq<Commit<Patch>>) {
    forall i :: 0 <= i < |commits| ==> AcceptedAt(kind, init.data, commits, i)
  }

  ghost predicate AcceptedAt<Row, Patch>(kind: Kind<Row, Patch>, init: Row, commits: seq<Commit<Patch>>, i: nat)
    requires i < |commits|
  {
    && kind.build(Serial(kind, init, commits, i), commits[i].patch, commits[i].now).Merge?
    && (commits[i].who.None? ==> kind.direct(commits[i].patch))
  }

  /** How many commits the row an attempt read already contained. */
  function ReadAt<Row>(init: Versioned<Row>, work: Work<Row>): int {
    work.snap.version - init.version
  }

  /** An attempt works on a row some serial prefix produced, merged by the record's own rules. */
  ghost predicate WorkInv<Row, Patch>(
    kind: Kind<Row, Patch>, init: Versioned<Row>, commits: seq<Commit<Patch>>, cl: Client<Row, Patch>)
    requires Attempting(cl.phase)
  {
    var work := cl.phase.work;
    && 0 <= ReadAt(init, work) <= |commits|
    && work.snap.data == Serial(kind, init.data, commits, ReadAt(init, work))
    && kind.build(work.snap.data, cl.patch, work.now) == Merge(work.row, work.changes)
  }

  /** Each conflict so far happened before the current read, each paid for by a commit of its own. */
  ghost predicate ProgressInv<Row, Patch>(init: Versioned<Row>, n: nat, cl: Client<Row, Patch>) {
    && cl.since <= n
    && InBounds(cl.progress)
    && (cl.progress.Trying? <==> cl.phase.Reading? || Attempting(cl.phase))
    && (cl.phase.Notifying? ==> cl.progress == Answered(Done))
    && (cl.phase.Reading? ==> cl.since + cl.progress.cas - 1 <= n)
    && (Attempting(cl.phase) ==> cl.since + cl.progress.cas - 1 <= ReadAt(init, cl.phase.work))
    && (cl.progress == Answered(Conflict) ==> cl.since + MAX_CAS_ATTEMPTS <= n)
  }

  ghost predicate PhaseInv<Row, Patch>(init: Versioned<Row>, s: System<Row, Patch>, c: ReqId, cl: Client<Row, Patch>) {
    match cl.phase
    case Guarding(work) => work.changes != [] && work.staged == []
    case Rechecking(work) => work.changes != [] && (s.row.Some? ==> ReadAt(init, work) < |s.commits|)
    case Writing(work) =>
      && |work.staged| <= |Plan(c, work.changes, cl.notes)|
      && (work.changes != [] ==> s.lock == Some(c) && s.row == Some(work.snap))
    case _ => true
  }

  ghost predicate ClientInv<Row, Patch>(
    kind: Kind<Row, Patch>, init: Versioned<Row>, s: System<Row, Patch>, c: ReqId, cl: Client<Row, Patch>)
  {
    && (Attempting(cl.phase) ==> WorkInv(kind, init, s.commits, cl))
    && ProgressInv(init, |s.commits|, cl)
    && PhaseInv(init, s, c, cl)
  }

  /** Only a transaction that passed its guard holds the row lock. */
  ghost predicate LockInv<Row, Patch>(s: System<Row, Patch>) {
    s.lock.Some? ==>
      s.lock.value in s.clients && s.clients[s.lock.value].phase.Writing?
      && s.clients[s.lock.value].phase.work.changes != []
  }

  ghost predicate Inv<Row, Patch>(kind: Kind<Row, Patch>, init: Versioned<Row>, s: System<Row, Patch>) {
    && RowInv(kind, init, s)
    && Accepted(kind, init, s.commits)
    && LockInv(s)
    && forall c :: c in s.clients ==> ClientInv(kind, init, s, c, s.clients[c])
  }

  lemma InvInitial<Row, Patch>(kind: Kind<Row, Patch>, init: Versioned<Row>)
    ensures Inv(kind, init, Initial<Row, Patch>(init))
  {
  }

  /** A new commit leaves every earlier serial prefix as it was. */
  lemma PrefixesStay<Row, Patch>(
    kind: Kind<Row, Patch>, init: Row, commits: seq<Commit<Patch>>, commit: Commit<Patch>)
    ensures forall n :: 0 <= n <= |commits| ==>
              Serial(kind, init, commits + [commit], n) == Serial(kind, init, commits, n)
  {
    forall n | 0 <= n <= |commits|
      ensures Serial(kind, init, commits + [commit], n) == Serial(kind, init, commits, n)
    {
      SerialOfLonger(kind, init, commits, [commit], n);
    }
  }

  /** A new commit, accepted on the current row, extends the serial order by one. */
  lemma CommitsGrow<Row, Patch>(
    kind: Kind<Row, Patch>, init: Versioned<Row>, commits: seq<Commit<Patch>>, commit: Commit<Patch>)
    requires Accepted(kind, init, commits)
    requires kind.build(Serial(kind, init.data, commits, |commits|), commit.patch, commit.now).Merge?
    requires commit.who.None? ==> kind.direct(commit.patch)
    ensures Accepted(kind, init, commits + [commit])
    ensures Serial(kind, init.data, commits + [commit], |commits| + 1)
         == kind.build(Serial(kind, init.data, commits, |commits|), commit.patch, commit.now).row
  {
    PrefixesStay(kind, init.data, commits, commit);
    var longer := commits + [commit];
    forall i | 0 <= i < |longer| ensures AcceptedAt(kind, init.data, longer, i) {
      assert Serial(kind, init.data, longer, i) == Serial(kind, init.data, commits, i);
      assert i < |commits| ==> AcceptedAt(kind, init.data, commits, i);
    }
  }

  /** Ending an attempt without a commit keeps the invariant, provided a conflict was paid for. */
  lemma EndAttemptKeepsInv<Row, Patch>(
    kind: Kind<Row, Patch>, init: Versioned<Row>, s: System<Row, Patch>, c: ReqId, o: Outcome)
    requires Inv(kind, init, s) && c in s.clients
    requires s.clients[c].progress.Trying?
    requires o.Conflicted? || o.Deadlocked? || (o.Failed? && o.answer != Conflict)
    requires o.Conflicted? ==> s.clients[c].since + s.clients[c].progress.cas <= |s.commits|
    requires s.clients[c].phase.Reading? || Attempting(s.clients[c].phase)
    ensures Inv(kind, init, EndAttempt(s, c, o))
  {
    var t := EndAttempt(s, c, o);
    forall d | d in t.clients ensures ClientInv(kind, init, t, d, t.clients[d]) {
      if d != c {
        assert ClientInv(kind, init, s, d, s.clients[d]);
      } else {
        assert ClientInv(kind, init, s, c, s.clients[c]);
      }
    }
  }

  /** A record's own rules refuse a request only with an error of their own, never with a 409. */
  ghost predicate Honest<Row(!new), Patch(!new)>(kind: Kind<Row, Patch>) {
    forall row, p, t :: kind.build(row, p, t).Reject? ==> IsError(kind.build(row, p, t).answer)
  }

  lemma ReadKeepsInv<Row(!new), Patch(!new)>(
    kind: Kind<Row, Patch>, init: Versioned<Row>, s: System<Row, Patch>, c: ReqId, now: Time)
    requires Honest(kind) && Inv(kind, init, s) && CanRead(s, c)
    ensures Inv(kind, init, StepRead(kind, s, c, now))
    ensures var t := StepRead(kind, s, c, now);
            && t.row == s.row && t.entries == s.entries && t.commits == s.commits && t.published == s.published
            && (t.clients[c].progress.Answered? ==>
                  s.row.None? || kind.build(s.row.value.data, s.clients[c].patch, now).Reject?)
  {
    assert ClientInv(kind, init, s, c, s.clients[c]);
    if s.row.None? {
      EndAttemptKeepsInv(kind, init, s, c, Failed(NotFound));
    } else {
      match kind.build(s.row.value.data, s.clients[c].patch, now)
      case Reject(answer) => EndAttemptKeepsInv(kind, init, s, c, Failed(answer));
      case Merge(_, _) =>
        var t := StepRead(kind, s, c, now);
        forall d | d in t.clients ensures ClientInv(kind, init, t, d, t.clients[d]) {
          if d != c {
            assert ClientInv(kind, init, s, d, s.clients[d]);
          }
        }
    }
  }

  lemma GuardKeepsInv<Row, Patch>(kind: Kind<Row, Patch>, init: Versioned<Row>, s: System<Row, Patch>, c: ReqId)
    requires Inv(kind, init, s) && CanGuard(s, c)
    ensures Inv(kind, init, StepGuard(s, c))
  {
    assert ClientInv(kind, init, s, c, s.clients[c]);
    var t := StepGuard(s, c);
    assert RowInv(kind, init, t) && LockInv(t);
    forall d | d in t.clients ensures ClientInv(kind, init, t, d, t.clients[d]) {
      if d != c {
        assert ClientInv(kind, init, s, d, s.clients[d]);
        assert t.clients[d] == s.clients[d];
      }
    }
  }

  /** A commit does not disturb a request that holds no lock: what it read is still a serial prefix. */
  lemma BystanderAfterCommit<Row, Patch>(
    kind: Kind<Row, Patch>, init: Versioned<Row>, s: System<Row, Patch>, t: System<Row, Patch>,
    commit: Commit<Patch>, d: ReqId)
    requires d in s.clients && ClientInv(kind, init, s, d, s.clients[d])
    requires s.clients[d].phase.Writing? ==> s.clients[d].phase.work.changes == []
    requires t.commits == s.commits + [commit]
    ensures ClientInv(kind, init, t, d, s.clients[d])
  {
    PrefixesStay(kind, init.data, s.commits, commit);
  }

  lemma CommitKeepsInv<Row, Patch>(kind: Kind<Row, Patch>, init: Versioned<Row>, s: System<Row, Patch>, c: ReqId)
    requires Inv(kind, init, s) && CanCommit(s, c)
    ensures Inv(kind, init, StepCommit(s, c))
  {
    var cl := s.clients[c];
    var work := cl.phase.work;
    var t := StepCommit(s, c);
    assert ClientInv(kind, init, s, c, cl);
    if work.changes != [] {
      var commit := Commit(Some(c), cl.patch, work.now, work.staged[0]);
      CommitsGrow(kind, init, s.commits, commit);
      forall d | d in t.clients && d != c ensures ClientInv(kind, init, t, d, t.clients[d]) {
        assert ClientInv(kind, init, s, d, s.clients[d]);
        BystanderAfterCommit(kind, init, s, t, commit, d);
      }
    } else {
      forall d | d in t.clients && d != c ensures ClientInv(kind, init, t, d, t.clients[d]) {
        assert ClientInv(kind, init, s, d, s.clients[d]);
      }
    }
  }

  lemma DirectKeepsInv<Row, Patch>(kind: Kind<Row, Patch>, init: Versioned<Row>, s: System<Row, Patch>, patch: Patch,
      now: Time)
    requires Inv(kind, init, s) && CanWriteDirectly(kind, s, patch, now)
    ensures Inv(kind, init, StepDirect(kind, s, patch, now))
  {
    var commit := Commit(None, patch, now, 0);
    CommitsGrow(kind, init, s.commits, commit);
    var t := StepDirect(kind, s, patch, now);
    forall d | d in t.clients ensures ClientInv(kind, init, t, d, t.clients[d]) {
      assert ClientInv(kind, init, s, d, s.clients[d]);
      BystanderAfterCommit(kind, init, s, t, commit, d);
    }
  }

  predicate EndsAttempt<Patch>(a: Action<Patch>) {
    a.Recheck? || a.Deadlock? || a.Fail?
  }

  lemma RollbackKeepsInv<Row, Patch>(kind: Kind<Row, Patch>, init: Versioned<Row>, s: System<Row, Patch>,
      a: Action<Patch>)
    requires Inv(kind, init, s) && EndsAttempt(a) && Enabled(kind, s, a)
    ensures Inv(kind, init, Step(kind, s, a))
  {
    assert ClientInv(kind, init, s, a.c, s.clients[a.c]);
    var o := match a
      case Recheck(_) => if s.row.None? then Failed(NotFound) else Conflicted
      case Deadlock(_) => Deadlocked
      case Fail(_, answer) => Failed(answer);
    EndAttemptKeepsInv(kind, init, s, a.c, o);
    hide Inv, EndAttempt;
  }

  /** A request's own place after a step that leaves the commits alone. */
  lemma QuietClientStaysOk<Row, Patch>(
    kind: Kind<Row, Patch>, init: Versioned<Row>, s: System<Row, Patch>, a: Action<Patch>, d: ReqId)
    requires Inv(kind, init, s) && Enabled(kind, s, a)
    requires a.Arrive? || a.Insert? || a.Notify? || a.OtherEntry? || a.Vanish?
    requires d in Step(kind, s, a).clients
    ensures ClientInv(kind, init, Step(kind, s, a), d, Step(kind, s, a).clients[d])
  {
    if d in s.clients {
      assert ClientInv(kind, init, s, d, s.clients[d]);
    }
    hide Inv, Serial, Accepted;
    var t := Step(kind, s, a);
    if a.Insert? && a.c == d {
      InserterStaysOk(kind, init, s, d);
    } else {
      assert t.commits == s.commits && t.lock == s.lock && (t.row == s.row || a.Vanish?);
      hide Plan;
    }
  }

  lemma InserterStaysOk<Row, Patch>(kind: Kind<Row, Patch>, init: Versioned<Row>, s: System<Row, Patch>, c: ReqId)
    requires CanInsert(s, c) && ClientInv(kind, init, s, c, s.clients[c])
    ensures c in StepInsert(s, c).clients && ClientInv(kind, init, StepInsert(s, c), c, StepInsert(s, c).clients[c])
  {
    hide Serial, Plan;
  }

  /** Arriving, inserting an entry, publishing: none of it touches the row. */
  lemma QuietStepKeepsInv<Row, Patch>(kind: Kind<Row, Patch>, init: Versioned<Row>, s: System<Row, Patch>,
      a: Action<Patch>)
    requires Inv(kind, init, s) && Enabled(kind, s, a)
    requires a.Arrive? || a.Insert? || a.Notify? || a.OtherEntry? || a.Vanish?
    ensures Inv(kind, init, Step(kind, s, a))
  {
    var t := Step(kind, s, a);
    forall d | d in t.clients ensures ClientInv(kind, init, t, d, t.clients[d]) {
      QuietClientStaysOk(kind, init, s, a, d);
    }
    hide ClientInv, Accepted, Serial, Plan;
    assert t.commits == s.commits && (t.row == s.row || t.row.None?);
    assert LockInv(t);
    hide Step, Enabled;
  }

  lemma StepKeepsInv<Row(!new), Patch(!new)>(
    kind: Kind<Row, Patch>, init: Versioned<Row>, s: System<Row, Patch>, a: Action<Patch>)
    requires Honest(kind) && Inv(kind, init, s) && Enabled(kind, s, a)
    ensures Inv(kind, init, Step(kind, s, a))
  {
    hide Inv, Honest, StepRead, StepGuard, StepCommit, StepDirect, StepInsert, EndAttempt;
    if EndsAttempt(a) {
      RollbackKeepsInv(kind, init, s, a);
    } else {
      match a
      case Read(c, now) => ReadKeepsInv(kind, init, s, c, now);
      case Guard(c) => GuardKeepsInv(kind, init, s, c);
      case CommitTxn(c) => CommitKeepsInv(kind, init, s, c);
      case DirectWrite(patch, now) => DirectKeepsInv(kind, init, s, patch, now);
      case Arrive(_, _, _) => QuietStepKeepsInv(kind, init, s, a);
      case Insert(_) => QuietStepKeepsInv(kind, init, s, a);
      case Notify(_) => QuietStepKeepsInv(kind, init, s, a);
      case OtherEntry => QuietStepKeepsInv(kind, init, s, a);
      case Vanish => QuietStepKeepsInv(kind, init, s, a);
    }
  }
}
