/** How long a request can take, and that requests never block one another for good. */
module EditProgress {
  import opened Base
  import opened Retry
  import opened EditProtocol
  import opened EditProofs
  import opened EditTheorems

  /** Statements one attempt can still run, given where it stands. */
  function StepsLeft<Row, Patch>(cl: Client<Row, Patch>): int {
    match cl.phase
    case Reading => |cl.notes| + 5
    case Guarding(_) => |cl.notes| + 4
    case Writing(work) => |cl.notes| + 3 - |work.staged|
    case Rechecking(_) => 1
    case Notifying => 1
    case Over => 0
  }

  /** Attempts the retry policy still allows after the current one. */
  function AttemptsLeft(p: Progress): int {
    match p
    case Trying(cas, deadlocks) =>
      (MAX_CAS_ATTEMPTS - cas) * MAX_DEADLOCK_ATTEMPTS + (MAX_DEADLOCK_ATTEMPTS - deadlocks)
    case Answered(_) => 0
  }

  /** A bound on the steps a request can still take. */
  function Rank<Row, Patch>(cl: Client<Row, Patch>): int {
    AttemptsLeft(cl.progress) * (|cl.notes| + 6) + StepsLeft(cl)
  }

  /** The request whose own statement this is. */
  function Actor<Patch>(a: Action<Patch>): Option<ReqId> {
    match a
    case DirectWrite(_, _) => None
    case OtherEntry => None
    case Vanish => None
    case _ => Some(a.c)
  }

  lemma RetryCostsAnAttempt(p: Progress, o: Outcome, k: int)
    requires InBounds(p) && p.Trying? && k >= 1
    requires o.Conflicted? || o.Deadlocked?
    requires Advance(p, o).Trying?
    ensures AttemptsLeft(Advance(p, o)) * k <= AttemptsLeft(p) * k - k
  {
    var q := AttemptsLeft(Advance(p, o));
    assert q <= AttemptsLeft(p) - 1;
    assert q * k <= (AttemptsLeft(p) - 1) * k;
  }

  lemma EndAttemptCountsDown<Row, Patch>(s: System<Row, Patch>, c: ReqId, o: Outcome)
    requires c in s.clients && InBounds(s.clients[c].progress) && s.clients[c].progress.Trying?
    requires !o.Applied? && StepsLeft(s.clients[c]) >= 1
    ensures 0 <= Rank(EndAttempt(s, c, o).clients[c]) < Rank(s.clients[c])
  {
    var cl := s.clients[c];
    assert AttemptsLeft(cl.progress) >= 0;
    if Advance(cl.progress, o).Trying? {
      RetryCostsAnAttempt(cl.progress, o, |cl.notes| + 6);
    }
  }

  lemma RankIsNatural<Row, Patch>(
    kind: Kind<Row, Patch>, init: Versioned<Row>, s: System<Row, Patch>, c: ReqId)
    requires Inv(kind, init, s) && c in s.clients
    ensures Rank(s.clients[c]) >= StepsLeft(s.clients[c]) >= 0
    ensures InBounds(s.clients[c].progress)
    ensures s.clients[c].phase.Reading? || Attempting(s.clients[c].phase) ==>
              s.clients[c].progress.Trying? && StepsLeft(s.clients[c]) >= 1
    ensures s.clients[c].phase.Writing? ==> StepsLeft(s.clients[c]) >= 2
  {
    assert ClientInv(kind, init, s, c, s.clients[c]);
    assert AttemptsLeft(s.clients[c].progress) >= 0;
  }

  lemma ReadCountsDown<Row, Patch>(
    kind: Kind<Row, Patch>, init: Versioned<Row>, s: System<Row, Patch>, c: ReqId, now: Time)
    requires Inv(kind, init, s) && CanRead(s, c)
    ensures Rank(StepRead(kind, s, c, now).clients[c]) < Rank(s.clients[c])
  {
    RankIsNatural(kind, init, s, c);
    if s.row.None? {
      EndAttemptCountsDown(s, c, Failed(NotFound));
    } else {
      match kind.build(s.row.value.data, s.clients[c].patch, now)
      case Reject(answer) => EndAttemptCountsDown(s, c, Failed(answer));
      case Merge(_, _) =>
    }
  }

  lemma CommitCountsDown<Row, Patch>(kind: Kind<Row, Patch>, init: Versioned<Row>, s: System<Row, Patch>, c: ReqId)
    requires Inv(kind, init, s) && CanCommit(s, c)
    ensures Rank(StepCommit(s, c).clients[c]) < Rank(s.clients[c])
  {
    RankIsNatural(kind, init, s, c);
  }

  /** Every statement of a request brings it nearer to its answer. */
  lemma OwnStepCountsDown<Row(!new), Patch(!new)>(
    kind: Kind<Row, Patch>, init: Versioned<Row>, s: System<Row, Patch>, a: Action<Patch>, c: ReqId)
    requires Inv(kind, init, s) && Enabled(kind, s, a) && c in s.clients && Actor(a) == Some(c)
    ensures c in Step(kind, s, a).clients && Rank(Step(kind, s, a).clients[c]) < Rank(s.clients[c])
  {
    match a
    case Read(_, now) => ReadCountsDown(kind, init, s, c, now);
    case CommitTxn(_) => CommitCountsDown(kind, init, s, c);
    case Recheck(_) =>
      RankIsNatural(kind, init, s, c);
      EndAttemptCountsDown(s, c, if s.row.None? then Failed(NotFound) else Conflicted);
    case Deadlock(_) =>
      RankIsNatural(kind, init, s, c);
      EndAttemptCountsDown(s, c, Deadlocked);
    case Fail(_, answer) =>
      RankIsNatural(kind, init, s, c);
      EndAttemptCountsDown(s, c, Failed(answer));
    case _ =>
  }

  function OwnSteps<Patch>(run: seq<Action<Patch>>, c: ReqId): nat {
    if run == [] then 0 else (if Actor(run[0]) == Some(c) then 1 else 0) + OwnSteps(run[1..], c)
  }

  lemma {:induction false} OwnStepsAreBounded<Row(!new), Patch(!new)>(
    kind: Kind<Row, Patch>, init: Versioned<Row>, s: System<Row, Patch>, run: seq<Action<Patch>>, c: ReqId)
    requires Honest(kind) && Inv(kind, init, s) && Legal(kind, s, run) && c in s.clients
    ensures c in After(kind, s, run).clients
    ensures OwnSteps(run, c) + Rank(After(kind, s, run).clients[c]) <= Rank(s.clients[c])
    decreases |run|
  {
    if run != [] {
      var t := Step(kind, s, run[0]);
      StepKeepsInv(kind, init, s, run[0]);
      if Actor(run[0]) == Some(c) {
        OwnStepCountsDown(kind, init, s, run[0], c);
      } else {
        OthersStepLeavesAlone(kind, s, run[0], c);
      }
      OwnStepsAreBounded(kind, init, t, run[1..], c);
    }
  }

  lemma OthersStepLeavesAlone<Row(!new), Patch(!new)>(kind: Kind<Row, Patch>, s: System<Row, Patch>,
      a: Action<Patch>, c: ReqId)
    requires Enabled(kind, s, a) && c in s.clients && Actor(a) != Some(c)
    ensures c in Step(kind, s, a).clients && Step(kind, s, a).clients[c] == s.clients[c]
  {
  }

  /** A request with n notes runs at most 18 * (n + 6) statements of its own after it arrives,
      whatever every other request does meanwhile. */
  lemma EveryRequestIsBounded<Row(!new), Patch(!new)>(
    kind: Kind<Row, Patch>, init: Versioned<Row>, before: seq<Action<Patch>>, s: System<Row, Patch>,
    c: ReqId, patch: Patch, notes: seq<string>, run: seq<Action<Patch>>)
    requires Honest(kind) && Reaches(kind, init, before, s)
    requires Enabled(kind, s, Arrive(c, patch, notes))
    requires Legal(kind, Step(kind, s, Arrive(c, patch, notes)), run)
    ensures OwnSteps(run, c) < MAX_CAS_ATTEMPTS * MAX_DEADLOCK_ATTEMPTS * (|notes| + 6)
  {
    ReachedIsGood(kind, init, before, s);
    var t := Step(kind, s, Arrive(c, patch, notes));
    StepKeepsInv(kind, init, s, Arrive(c, patch, notes));
    OwnStepsAreBounded(kind, init, t, run, c);
    RunKeepsInv(kind, init, t, run);
    RankIsNatural(kind, init, After(kind, t, run), c);
    RankOnArrival(t.clients[c]);
  }

  lemma RankOnArrival<Row, Patch>(cl: Client<Row, Patch>)
    requires cl.phase.Reading? && cl.progress == START
    ensures Rank(cl) == MAX_CAS_ATTEMPTS * MAX_DEADLOCK_ATTEMPTS * (|cl.notes| + 6) - 1
  {
    assert AttemptsLeft(START) == 17;
  }

  lemma {:induction false} RunKeepsInv<Row(!new), Patch(!new)>(
    kind: Kind<Row, Patch>, init: Versioned<Row>, s: System<Row, Patch>, run: seq<Action<Patch>>)
    requires Honest(kind) && Inv(kind, init, s) && Legal(kind, s, run)
    ensures Inv(kind, init, After(kind, s, run))
    decreases |run|
  {
    if run != [] {
      StepKeepsInv(kind, init, s, run[0]);
      RunKeepsInv(kind, init, Step(kind, s, run[0]), run[1..]);
    }
  }

  /** The ordinary next statement of a request, when it is not waiting for the row lock. */
  ghost predicate CanMove<Row, Patch>(s: System<Row, Patch>, c: ReqId) {
    || CanRead(s, c) || CanGuard(s, c) || CanInsert(s, c) || CanCommit(s, c)
    || (c in s.clients && (s.clients[c].phase.Rechecking? || s.clients[c].phase.Notifying?))
  }

  /** No reachable state is stuck: an unfinished request, or the holder of the row lock it waits for, can
      take its ordinary next step; or the record is deleted, and the entry it was about to insert fails. */
  lemma SomeoneCanMove<Row(!new), Patch(!new)>(
    kind: Kind<Row, Patch>, init: Versioned<Row>, run: seq<Action<Patch>>, s: System<Row, Patch>, c: ReqId)
    requires Honest(kind) && Reaches(kind, init, run, s)
    requires c in s.clients && !s.clients[c].phase.Over?
    ensures || CanMove(s, c)
            || (s.lock.Some? && CanMove(s, s.lock.value))
            || (s.row.None? && s.clients[c].phase.Writing? && Enabled(kind, s, Fail(c, ServerError)))
    ensures s.row.None? ==> s.lock.None?
  {
    ReachedIsGood(kind, init, run, s);
    assert ClientInv(kind, init, s, c, s.clients[c]);
    if s.lock.Some? {
      assert ClientInv(kind, init, s, s.lock.value, s.clients[s.lock.value]);
    }
  }
}
