/** Who committed, who was told, and how long a request can take. */
module EditHistory {
  import opened Base
  import opened Retry
  import opened EditProtocol
  import opened EditProofs

  ghost predicate ToldDone<Row, Patch>(s: System<Row, Patch>, c: ReqId) {
    c in s.clients && s.clients[c].phase.Over? && s.clients[c].progress == Answered(Done)
  }

  /** An edit request has committed only if it is past its commit. */
  ghost predicate Committed<Row, Patch>(s: System<Row, Patch>, c: ReqId) {
    c in s.clients && s.clients[c].progress == Answered(Done) &&
        (s.clients[c].phase.Notifying? || s.clients[c].phase.Over?)
  }

  ghost predicate HistoryInv<Row, Patch>(s: System<Row, Patch>) {
    && (forall i :: 0 <= i < |s.commits| && s.commits[i].who.Some? ==> Committed(s, s.commits[i].who.value))
    && (forall i, j :: 0 <= i < j < |s.commits| && s.commits[i].who.Some? ==> s.commits[i].who != s.commits[j].who)
    && (forall i :: 0 <= i < |s.published| ==> ToldDone(s, s.published[i]))
    && (forall i, j :: 0 <= i < j < |s.published| ==> s.published[i] != s.published[j])
    && (forall c :: ToldDone(s, c) ==> c in s.published)
  }

  /** t differs from s at most in the request c, which was not past its commit and is not told yet. */
  ghost predicate Quiet<Row, Patch>(s: System<Row, Patch>, t: System<Row, Patch>, c: ReqId) {
    && t.published == s.published
    && t.clients.Keys <= s.clients.Keys + {c}
    && (forall d :: d in s.clients ==> d in t.clients)
    && (forall d :: d in s.clients && d != c ==> t.clients[d] == s.clients[d])
    && !Committed(s, c)
    && !ToldDone(t, c)
  }

  lemma QuietKeepsHistory<Row, Patch>(
    s: System<Row, Patch>, t: System<Row, Patch>, c: ReqId, added: seq<Commit<Patch>>)
    requires HistoryInv(s) && Quiet(s, t, c)
    requires t.commits == s.commits + added && |added| <= 1
    requires added != [] ==> added[0].who == Some(c) && Committed(t, c)
    ensures HistoryInv(t)
  {
    forall d | Committed(s, d) ensures d != c && Committed(t, d) {}
    forall d | ToldDone(s, d) ensures d != c && ToldDone(t, d) {}
    forall d | ToldDone(t, d) ensures d in t.published {
      assert ToldDone(s, d);
    }
  }

  lemma NotifyKeepsHistory<Row, Patch>(s: System<Row, Patch>, c: ReqId)
    requires HistoryInv(s) && c in s.clients && s.clients[c].phase.Notifying? && s.clients[c].progress == Answered(Done)
    ensures HistoryInv(SetPhase(s, c, Over).(published := s.published + [c]))
  {
    var t := SetPhase(s, c, Over).(published := s.published + [c]);
    forall d | Committed(s, d) ensures Committed(t, d) {}
    forall d | ToldDone(s, d) ensures d != c && ToldDone(t, d) {}
    forall d | ToldDone(t, d) ensures d in t.published {
      assert d == c || ToldDone(s, d);
    }
    assert forall i :: 0 <= i < |s.published| ==> s.published[i] != c;
  }

  lemma EndAttemptKeepsHistory<Row, Patch>(s: System<Row, Patch>, c: ReqId, o: Outcome)
    requires HistoryInv(s) && c in s.clients && s.clients[c].progress.Trying?
    requires !o.Applied? && (o.Failed? ==> o.answer != Done)
    ensures HistoryInv(EndAttempt(s, c, o))
  {
    QuietKeepsHistory(s, EndAttempt(s, c, o), c, []);
  }

  lemma CommitKeepsHistory<Row, Patch>(s: System<Row, Patch>, c: ReqId)
    requires HistoryInv(s) && CanCommit(s, c) && s.clients[c].progress.Trying?
    ensures HistoryInv(StepCommit(s, c))
  {
    var work := s.clients[c].phase.work;
    var added := if work.changes == [] then []
                 else [Commit(Some(c), s.clients[c].patch, work.now, work.staged[0])];
    QuietKeepsHistory(s, StepCommit(s, c), c, added);
  }

  lemma RollbackKeepsHistory<Row, Patch>(
    kind: Kind<Row, Patch>, init: Versioned<Row>, s: System<Row, Patch>, a: Action<Patch>)
    requires Inv(kind, init, s) && HistoryInv(s) && EndsAttempt(a) && Enabled(kind, s, a)
    ensures HistoryInv(Step(kind, s, a))
  {
    assert ClientInv(kind, init, s, a.c, s.clients[a.c]);
    var o := match a
      case Recheck(_) => if s.row.None? then Failed(NotFound) else Conflicted
      case Deadlock(_) => Deadlocked
      case Fail(_, answer) => Failed(answer);
    EndAttemptKeepsHistory(s, a.c, o);
    hide HistoryInv, EndAttempt;
  }

  lemma ReadKeepsHistory<Row(!new), Patch(!new)>(
    kind: Kind<Row, Patch>, init: Versioned<Row>, s: System<Row, Patch>, c: ReqId, now: Time)
    requires Honest(kind) && Inv(kind, init, s) && HistoryInv(s) && CanRead(s, c)
    ensures HistoryInv(StepRead(kind, s, c, now))
  {
    assert ClientInv(kind, init, s, c, s.clients[c]);
    hide Inv, HistoryInv;
    if s.row.None? {
      EndAttemptKeepsHistory(s, c, Failed(NotFound));
    } else {
      match kind.build(s.row.value.data, s.clients[c].patch, now)
      case Reject(answer) => EndAttemptKeepsHistory(s, c, Failed(answer));
      case Merge(_, _) => QuietKeepsHistory(s, StepRead(kind, s, c, now), c, []);
    }
  }

  /** Arriving, guarding and inserting leave the history as it is. */
  lemma QuietStepKeepsHistory<Row, Patch>(
    kind: Kind<Row, Patch>, init: Versioned<Row>, s: System<Row, Patch>, a: Action<Patch>)
    requires Inv(kind, init, s) && HistoryInv(s) && Enabled(kind, s, a)
    requires a.Arrive? || a.Guard? || a.Insert?
    ensures HistoryInv(Step(kind, s, a))
  {
    assert a.Arrive? || ClientInv(kind, init, s, a.c, s.clients[a.c]);
    QuietKeepsHistory(s, Step(kind, s, a), a.c, []) by { hide Inv; }
  }

  lemma StepKeepsHistory<Row(!new), Patch(!new)>(
    kind: Kind<Row, Patch>, init: Versioned<Row>, s: System<Row, Patch>, a: Action<Patch>)
    requires Honest(kind) && Inv(kind, init, s) && HistoryInv(s) && Enabled(kind, s, a)
    ensures HistoryInv(Step(kind, s, a))
  {
    assert a.CommitTxn? || a.Notify? ==> ClientInv(kind, init, s, a.c, s.clients[a.c]);
    hide Inv, Honest, StepRead, StepGuard, StepCommit, StepDirect, StepInsert, EndAttempt;
    if EndsAttempt(a) {
      RollbackKeepsHistory(kind, init, s, a);
    } else {
      match a
      case Read(c, now) => ReadKeepsHistory(kind, init, s, c, now);
      case CommitTxn(c) => CommitKeepsHistory(s, c);
      case Notify(c) => NotifyKeepsHistory(s, c);
      case DirectWrite(patch, now) => DirectKeepsHistory(kind, s, patch, now);
      case Arrive(_, _, _) => QuietStepKeepsHistory(kind, init, s, a);
      case Guard(_) => QuietStepKeepsHistory(kind, init, s, a);
      case Insert(_) => QuietStepKeepsHistory(kind, init, s, a);
      case OtherEntry =>
      case Vanish =>
    }
  }

  lemma DirectKeepsHistory<Row, Patch>(kind: Kind<Row, Patch>, s: System<Row, Patch>, patch: Patch, now: Time)
    requires HistoryInv(s) && CanWriteDirectly(kind, s, patch, now)
    ensures HistoryInv(StepDirect(kind, s, patch, now))
  {
    var t := StepDirect(kind, s, patch, now);
    forall d | Committed(s, d) ensures Committed(t, d) {}
    forall d | ToldDone(t, d) ensures d in t.published {
      assert ToldDone(s, d);
    }
  }
}
