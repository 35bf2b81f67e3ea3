/** An Incident's types and its links to other Incidents: what every run of the transactions gives. */
module Relations {
  import opened Base
  import opened Retry
  import opened Membership
  import MA = MembershipAnswers

  /** Every interleaving of requests equals their serial application in commit order, and the log is
      the requests' own entries in that order. A request told of success is one of them, or found its first key
      as asked. */
  lemma MembershipIsSerial<K(!new)>(init: set<K>, run: seq<Action<K>>)
    requires Legal(Initial(init), run)
    ensures var s := After(Initial(init), run);
            s.table == Serial(init, s.commits, |s.commits|) && s.log == SerialLog(s.commits)
    ensures var s := After(Initial(init), run);
            forall c :: c in s.clients && s.clients[c].progress == Answered(Done) ==>
              var cl := s.clients[c];
              MA.CommittedBy(s.commits, c, cl.req) || MA.WasAsAsked(init, s.commits, cl.since, cl.req)
  {
    RunKeepsInv(init, Initial(init), run);
    var s := After(Initial(init), run);
    forall c | c in s.clients && s.clients[c].progress == Answered(Done)
      ensures var cl := s.clients[c];
              MA.CommittedBy(s.commits, c, cl.req) || MA.WasAsAsked(init, s.commits, cl.since, cl.req)
    {
      MA.AnswersAreDeserved(init, run, c);
    }
  }

  predicate NamesKey<K(==)>(commits: seq<Commit<K>>, i: nat, k: K)
    requires i < |commits|
  {
    k in commits[i].req.keys
  }

  /** The last of the first n committed requests to name a key says whether it is there. */
  function Decided<K(==)>(init: set<K>, commits: seq<Commit<K>>, k: K, n: nat): bool
    requires n <= |commits|
  {
    if n == 0 then k in init
    else if NamesKey(commits, n - 1, k) then commits[n - 1].req.add
    else Decided(init, commits, k, n - 1)
  }

  /** Requests on different keys commute: whether a key is present depends only on the last committed
      request that names it. */
  lemma {:induction false} LastRequestOnAKeyDecides<K>(init: set<K>, commits: seq<Commit<K>>, k: K, n: nat)
    requires n <= |commits|
    ensures k in Serial(init, commits, n) <==> Decided(init, commits, k, n)
  {
    if n > 0 {
      LastRequestOnAKeyDecides(init, commits, k, n - 1);
      assert k in Keys(commits[n - 1].req) <==> NamesKey(commits, n - 1, k);
    }
  }

  // ----- Log entries and transitions -----

  function CountEntries<K(==)>(log: seq<LogEntry<K>>, entry: LogEntry<K>): nat {
    if log == [] then 0
    else CountEntries(log[..|log| - 1], entry) + (if log[|log| - 1] == entry then 1 else 0)
  }

  lemma {:induction false} CountEntriesOfTwo<K>(a: seq<LogEntry<K>>, b: seq<LogEntry<K>>, entry: LogEntry<K>)
    ensures CountEntries(a + b, entry) == CountEntries(a, entry) + CountEntries(b, entry)
  {
    if b == [] {
      assert a + b == a;
    } else {
      var n := |b| - 1;
      assert (a + b)[..|a + b| - 1] == a + b[..n];
      CountEntriesOfTwo(a, b[..n], entry);
    }
  }

  /** How many of the first n commits made the key appear, or disappear. */
  ghost function Transitions<K>(init: set<K>, commits: seq<Commit<K>>, n: nat, k: K, appears: bool): nat
    requires n <= |commits|
  {
    if n == 0 then 0
    else
      Transitions(init, commits, n - 1, k, appears) +
      (if (k in Serial(init, commits, n - 1)) != appears && (k in Serial(init, commits, n)) == appears then 1 else 0)
  }

  /** How many of the first n commits removed the key while it was not there. */
  ghost function Idle<K>(init: set<K>, commits: seq<Commit<K>>, n: nat, k: K): nat
    requires n <= |commits|
  {
    if n == 0 then 0
    else
      Idle(init, commits, n - 1, k) +
      (if NamesKey(commits, n - 1, k) && !commits[n - 1].req.add && k !in Serial(init, commits, n - 1) then 1 else 0)
  }

  /** One request names the key once at most. */
  ghost predicate NamesOnce<K>(req: Request<K>) {
    forall i, j :: 0 <= i < j < |req.keys| ==> req.keys[i] != req.keys[j]
  }

  lemma {:induction false} CountInRequest<K>(keys: seq<K>, add: bool, refused: Answer, k: K, kind: bool)
    requires NamesOnce(Request(keys, add, refused))
    ensures CountEntries(EntriesOf(Request(keys, add, refused)), LogEntry(k, kind)) == if k in keys &&
        add == kind then 1 else 0
  {
    if keys != [] {
      var n := |keys| - 1;
      var entries := EntriesOf(Request(keys, add, refused));
      assert entries[..n] == EntriesOf(Request(keys[..n], add, refused));
      CountInRequest(keys[..n], add, refused, k, kind);
      assert keys == keys[..n] + [keys[n]];
    }
  }

  lemma {:induction false} EntriesCountTransitions<K>(init: set<K>, commits: seq<Commit<K>>, k: K)
    requires forall i :: 0 <= i < |commits| ==> NamesOnce(commits[i].req)
    requires forall i :: 0 <= i < |commits| && commits[i].req.add ==> Keys(commits[i].req) !! Serial(init, commits, i)
    ensures CountEntries(SerialLog(commits), LogEntry(k, true)) == Transitions(init, commits, |commits|, k, true)
    ensures CountEntries(SerialLog(commits), LogEntry(k, false))
         == Transitions(init, commits, |commits|, k, false) + Idle(init, commits, |commits|, k)
  {
    if commits != [] {
      var n := |commits| - 1;
      var req := commits[n].req;
      assert commits == commits[..n] + [commits[n]];
      PrefixTransitions(init, commits, n, k);
      EntriesCountTransitions(init, commits[..n], k);
      CountEntriesOfTwo(SerialLog(commits[..n]), EntriesOf(req), LogEntry(k, true));
      CountEntriesOfTwo(SerialLog(commits[..n]), EntriesOf(req), LogEntry(k, false));
      CountInRequest(req.keys, req.add, req.refused, k, true);
      CountInRequest(req.keys, req.add, req.refused, k, false);
      assert k in Keys(req) <==> k in req.keys;
    }
  }

  lemma PrefixTransitions<K>(init: set<K>, commits: seq<Commit<K>>, n: nat, k: K)
    requires n < |commits|
    ensures forall i :: 0 <= i <= n ==> Serial(init, commits[..n], i) == Serial(init, commits, i)
    ensures Transitions(init, commits[..n], n, k, true) == Transitions(init, commits, n, k, true)
    ensures Transitions(init, commits[..n], n, k, false) == Transitions(init, commits, n, k, false)
    ensures Idle(init, commits[..n], n, k) == Idle(init, commits, n, k)
  {
    forall i | 0 <= i <= n ensures Serial(init, commits[..n], i) == Serial(init, commits, i) {
      PrefixSerial(init, commits, n, i);
    }
    PrefixTransitionsUpTo(init, commits, n, n, k);
  }

  lemma {:induction false} PrefixSerial<K>(init: set<K>, commits: seq<Commit<K>>, n: nat, i: nat)
    requires i <= n <= |commits|
    ensures Serial(init, commits[..n], i) == Serial(init, commits, i)
  {
    if i > 0 {
      PrefixSerial(init, commits, n, i - 1);
    }
  }

  lemma {:induction false} PrefixTransitionsUpTo<K>(init: set<K>, commits: seq<Commit<K>>, n: nat, i: nat, k: K)
    requires i <= n <= |commits|
    ensures Transitions(init, commits[..n], i, k, true) == Transitions(init, commits, i, k, true)
    ensures Transitions(init, commits[..n], i, k, false) == Transitions(init, commits, i, k, false)
    ensures Idle(init, commits[..n], i, k) == Idle(init, commits, i, k)
  {
    if i > 0 {
      PrefixTransitionsUpTo(init, commits, n, i - 1, k);
      PrefixSerial(init, commits, n, i - 1);
      PrefixSerial(init, commits, n, i);
    }
  }

  // ----- Incident types: one key per request -----

  type TypeId = int

  function TypeRequest(t: TypeId, attach: bool): Request<TypeId> {
    Request([t], attach, ServerError)
  }

  ghost predicate OnlyTypeRequests(run: seq<Action<TypeId>>) {
    forall i :: 0 <= i < |run| && run[i].Arrive? ==> exists t, attach :: run[i].req == TypeRequest(t, attach)
  }

  /** For every type, "Added type" entries count the times the type came onto the Incident, exactly; a
      losing duplicate leaves none. "Removed type" entries count the times it went, and also the detaches
      that committed when it was already gone, so they are exact if and only if there was none of those. */
  lemma TypeEntriesCountTransitions(init: set<TypeId>, run: seq<Action<TypeId>>, t: TypeId)
    requires Legal(Initial(init), run) && OnlyTypeRequests(run)
    ensures var s := After(Initial(init), run);
            && CountEntries(s.log, LogEntry(t, true)) == Transitions(init, s.commits, |s.commits|, t, true)
            && CountEntries(s.log, LogEntry(t, false))
               == Transitions(init, s.commits, |s.commits|, t, false) + Idle(init, s.commits, |s.commits|, t)
  {
    RunKeepsInv(init, Initial(init), run);
    var s := After(Initial(init), run);
    RequestsCameFromRun(Initial(init), run);
    forall i | 0 <= i < |s.commits| ensures NamesOnce(s.commits[i].req) {
      var j :| 0 <= j < |run| && run[j].Arrive? && run[j].req == s.commits[i].req;
      var u, attach :| run[j].req == TypeRequest(u, attach);
    }
    EntriesCountTransitions(init, s.commits, t);
  }

  /** A detach that passed its first check, in its open transaction. */
  function Detaching(t: TypeId, txn: Txn<TypeId>): Client<TypeId> {
    Client(TypeRequest(t, false), Running(txn), START, 0)
  }

  function Detached(t: TypeId): Client<TypeId> {
    Client(TypeRequest(t, false), Notifying, Answered(Done), 0)
  }

  function Arrival(t: TypeId): Client<TypeId> {
    Client(TypeRequest(t, false), Checking, START, 0)
  }

  /** Two requests detach the same type: both find it in their first read, then one runs after the other. */
  function RaceOfTwo(t: TypeId): seq<Action<TypeId>> {
    var req := TypeRequest(t, false);
    [Arrive(1, req)] + ([Arrive(2, req)] + ([Check(1)] + ([Check(2)] + DetachOneByOne())))
  }

  function DetachOneByOne(): seq<Action<TypeId>> {
    [Exec(1)] + ([WriteLog(1)] + ([CommitTxn(1)] + ([Exec(2)] + ([WriteLog(2)] + ([CommitTxn(2)] + [])))))
  }

  /** How the race ends: the type is gone, and both requests logged its removal. */
  function AfterRace(t: TypeId): System<TypeId> {
    var req := TypeRequest(t, false);
    System({}, [LogEntry(t, false), LogEntry(t, false)], [Commit(1, req), Commit(2, req)], map[1 := Detached(t),
        2 := Detached(t)])
  }

  /** An action and where it leads. */
  ghost predicate Leads<K(!new)>(s: System<K>, a: Action<K>, t: System<K>) {
    Enabled(s, a) && Step(s, a) == t
  }

  lemma FirstDetach(t: TypeId, s0: System<TypeId>, s1: System<TypeId>, s2: System<TypeId>, s3: System<TypeId>)
    requires s0 == System({t}, [], [], map[1 := Detaching(t, FreshTxn()), 2 := Detaching(t, FreshTxn())])
    requires s1 == s0.(clients := s0.clients[1 := Detaching(t, Txn(1, {}, {t}, {}, 0))])
    requires s2 == s0.(clients := s0.clients[1 := Detaching(t, Txn(1, {}, {t}, {}, 1))])
    requires s3 == System({}, [LogEntry(t, false)], [Commit(1, TypeRequest(t, false))], s0.clients[1 := Detached(t)])
    ensures Leads(s0, Exec(1), s1) && Leads(s1, WriteLog(1), s2) && Leads(s2, CommitTxn(1), s3)
  {
    assert {} + {t} == {t} && ({t} + {}) - {t} == {};
    assert EntriesOf(TypeRequest(t, false)) == [LogEntry(t, false)];
  }

  lemma SecondDetach(t: TypeId, s3: System<TypeId>, s4: System<TypeId>, s5: System<TypeId>)
    requires s3 == System({}, [LogEntry(t, false)], [Commit(1, TypeRequest(t, false))],
                          map[1 := Detached(t), 2 := Detaching(t, FreshTxn())])
    requires s4 == s3.(clients := s3.clients[2 := Detaching(t, Txn(1, {}, {}, {t}, 0))])
    requires s5 == s3.(clients := s3.clients[2 := Detaching(t, Txn(1, {}, {}, {t}, 1))])
    ensures Leads(s3, Exec(2), s4) && Leads(s4, WriteLog(2), s5) && Leads(s5, CommitTxn(2), AfterRace(t))
  {
    assert {} + ({t} - {}) == {t};
    assert EntriesOf(TypeRequest(t, false)) == [LogEntry(t, false)];
  }

  lemma RaceFromChecked(t: TypeId)
    ensures var s := System({t}, [], [], map[1 := Detaching(t, FreshTxn()), 2 := Detaching(t, FreshTxn())]);
            Legal(s, DetachOneByOne()) && After(s, DetachOneByOne()) == AfterRace(t)
  {
    var waiting := Detaching(t, FreshTxn());
    var s0 := System({t}, [], [], map[1 := waiting, 2 := waiting]);
    var s1 := s0.(clients := s0.clients[1 := Detaching(t, Txn(1, {}, {t}, {}, 0))]);
    var s2 := s0.(clients := s0.clients[1 := Detaching(t, Txn(1, {}, {t}, {}, 1))]);
    var s3 := System({}, [LogEntry(t, false)], [Commit(1, TypeRequest(t, false))], s0.clients[1 := Detached(t)]);
    assert s3.clients == map[1 := Detached(t), 2 := waiting];
    var s4 := s3.(clients := s3.clients[2 := Detaching(t, Txn(1, {}, {}, {t}, 0))]);
    var s5 := s3.(clients := s3.clients[2 := Detaching(t, Txn(1, {}, {}, {t}, 1))]);
    FirstDetach(t, s0, s1, s2, s3);
    SecondDetach(t, s3, s4, s5);
    assert Legal(AfterRace(t), []) && After(AfterRace(t), []) == AfterRace(t);
    hide Enabled, Step, Legal, After, AfterRace;
    MA.Go(s5, CommitTxn(2), []);
    MA.Go(s4, WriteLog(2), [CommitTxn(2)] + []);
    MA.Go(s3, Exec(2), [WriteLog(2)] + ([CommitTxn(2)] + []));
    MA.Go(s2, CommitTxn(1), [Exec(2)] + ([WriteLog(2)] + ([CommitTxn(2)] + [])));
    MA.Go(s1, WriteLog(1), [CommitTxn(1)] + ([Exec(2)] + ([WriteLog(2)] + ([CommitTxn(2)] + []))));
    MA.Go(s0, Exec(1), [WriteLog(1)] + ([CommitTxn(1)] + ([Exec(2)] + ([WriteLog(2)] + ([CommitTxn(2)] + [])))));
  }

  lemma BothArriveAndCheck(t: TypeId, s1: System<TypeId>, s2: System<TypeId>, s3: System<TypeId>, s4: System<TypeId>)
    requires s1 == System({t}, [], [], map[1 := Arrival(t)])
    requires s2 == System({t}, [], [], map[1 := Arrival(t), 2 := Arrival(t)])
    requires s3 == System({t}, [], [], map[1 := Detaching(t, FreshTxn()), 2 := Arrival(t)])
    requires s4 == System({t}, [], [], map[1 := Detaching(t, FreshTxn()), 2 := Detaching(t, FreshTxn())])
    ensures Leads(Initial({t}), Arrive(1, TypeRequest(t, false)), s1)
    ensures Leads(s1, Arrive(2, TypeRequest(t, false)), s2)
    ensures Leads(s2, Check(1), s3) && Leads(s3, Check(2), s4)
  {
    assert s2.clients == s1.clients[2 := Arrival(t)];
    assert s3.clients == s2.clients[1 := Detaching(t, FreshTxn())];
    assert s4.clients == s3.clients[2 := Detaching(t, FreshTxn())];
  }

  /** So a racing detach can log a removal that removed nothing: in this run the type goes once, and the
      log says so twice. */
  lemma RacingDetachLogsTwice(t: TypeId)
    ensures Legal(Initial({t}), RaceOfTwo(t)) && After(Initial({t}), RaceOfTwo(t)) == AfterRace(t)
    ensures CountEntries(AfterRace(t).log, LogEntry(t, false)) == 2
    ensures Transitions({t}, AfterRace(t).commits, 2, t, false) == 1
  {
    var req := TypeRequest(t, false);
    var s1 := System({t}, [], [], map[1 := Arrival(t)]);
    var s2 := System({t}, [], [], map[1 := Arrival(t), 2 := Arrival(t)]);
    var s3 := System({t}, [], [], map[1 := Detaching(t, FreshTxn()), 2 := Arrival(t)]);
    var s4 := System({t}, [], [], map[1 := Detaching(t, FreshTxn()), 2 := Detaching(t, FreshTxn())]);
    BothArriveAndCheck(t, s1, s2, s3, s4);
    TwoRemovalsOneLoss(t);
    RaceFromChecked(t);
    hide Enabled, Step, Legal, After, AfterRace, Initial, DetachOneByOne, CountEntries, Transitions;
    MA.Go(s3, Check(2), DetachOneByOne());
    MA.Go(s2, Check(1), [Check(2)] + DetachOneByOne());
    MA.Go(s1, Arrive(2, req), [Check(1)] + ([Check(2)] + DetachOneByOne()));
    MA.Go(Initial({t}), Arrive(1, req), [Arrive(2, req)] + ([Check(1)] + ([Check(2)] + DetachOneByOne())));
  }

  lemma TwoRemovalsOneLoss(t: TypeId)
    ensures CountEntries(AfterRace(t).log, LogEntry(t, false)) == 2
    ensures Transitions({t}, AfterRace(t).commits, 2, t, false) == 1
  {
    var entry := LogEntry(t, false);
    var commits := AfterRace(t).commits;
    assert AfterRace(t).log == [entry] + [entry] && [entry][..0] == [];
    CountEntriesOfTwo([entry], [entry], entry);
    assert Keys(TypeRequest(t, false)) == {t};
    assert Serial({t}, commits, 0) == {t};
    assert Serial({t}, commits, 1) == {t} - {t} == {};
    assert Serial({t}, commits, 2) == {} - {t} == {};
    assert Transitions({t}, commits, 1, t, false) == 1;
  }

  /** The requests that commit, and those in flight, are requests that arrived. */
  lemma {:induction false} RequestsCameFromRun<K(!new)>(s: System<K>, run: seq<Action<K>>)
    requires Legal(s, run)
    ensures forall i :: |s.commits| <= i < |After(s, run).commits| ==> Arrived(s, run, After(s, run).commits[i].req)
    ensures s.commits <= After(s, run).commits
    decreases |run|
  {
    if run != [] {
      var t := Step(s, run[0]);
      RequestsCameFromRun(t, run[1..]);
      forall req | Arrived(t, run[1..], req) ensures Arrived(s, run, req) {
        if j :| 0 <= j < |run[1..]| && run[1..][j].Arrive? && run[1..][j].req == req {
          assert run[j + 1] == run[1..][j];
        }
      }
      forall i | |s.commits| <= i < |After(s, run).commits| ensures Arrived(s, run, After(s, run).commits[i].req) {
        if i < |t.commits| {
          assert After(s, run).commits[i] == t.commits[i];
        }
      }
    }
  }

  /** The request is in flight in s, or arrives during the run. */
  ghost predicate Arrived<K>(s: System<K>, run: seq<Action<K>>, req: Request<K>) {
    || (exists c :: c in s.clients && s.clients[c].req == req)
    || (exists j :: 0 <= j < |run| && run[j].Arrive? && run[j].req == req)
  }

  // ----- Links between Incidents: two keys per request, one for each direction -----

  datatype IncidentKey = IncidentKey(event: int, number: int)
  datatype Link = Link(from: IncidentKey, to: IncidentKey)

  /** Link or unlink a and b, as requested from a's end. */
  function LinkRequest(a: IncidentKey, b: IncidentKey, link: bool): Request<Link> {
    Request([Link(a, b), Link(b, a)], link, BadRequest)
  }

  /** An Incident is never linked to itself: such a request is refused before it gets here. */
  ghost predicate IsLinkRequest(req: Request<Link>) {
    exists a, b, link :: a != b && req == LinkRequest(a, b, link)
  }

  ghost predicate OnlyLinkRequests(run: seq<Action<Link>>) {
    forall i :: 0 <= i < |run| && run[i].Arrive? ==> IsLinkRequest(run[i].req)
  }

  ghost predicate Proper(table: set<Link>) {
    && (forall a, b :: Link(a, b) in table ==> Link(b, a) in table)
    && (forall a :: Link(a, a) !in table)
  }

  lemma {:induction false} SerialLinksAreProper(init: set<Link>, commits: seq<Commit<Link>>, n: nat)
    requires n <= |commits| && Proper(init)
    requires forall i :: 0 <= i < |commits| ==> IsLinkRequest(commits[i].req)
    ensures Proper(Serial(init, commits, n))
  {
    if n > 0 {
      SerialLinksAreProper(init, commits, n - 1);
      var a, b, link :| a != b && commits[n - 1].req == LinkRequest(a, b, link);
      assert Keys(commits[n - 1].req) == {Link(a, b), Link(b, a)};
    }
  }

  lemma CommittedAreLinkRequests(init: set<Link>, run: seq<Action<Link>>)
    requires Legal(Initial(init), run) && OnlyLinkRequests(run)
    ensures forall i :: 0 <= i < |After(Initial(init), run).commits| ==>
        IsLinkRequest(After(Initial(init), run).commits[i].req)
  {
    RequestsCameFromRun(Initial(init), run);
  }

  /** Whatever link and unlink requests race, from either end, through duplicate keys, failures and
      deadlocks: every link is stored in both directions, and none from an Incident to itself. */
  lemma LinksStaySymmetric(init: set<Link>, run: seq<Action<Link>>)
    requires Legal(Initial(init), run) && OnlyLinkRequests(run) && Proper(init)
    ensures Proper(After(Initial(init), run).table)
  {
    RunKeepsInv(init, Initial(init), run);
    CommittedAreLinkRequests(init, run);
    var commits := After(Initial(init), run).commits;
    SerialLinksAreProper(init, commits, |commits|);
  }

  lemma {:induction false} InFlightRequestsArrived<K(!new)>(s: System<K>, run: seq<Action<K>>, c: ReqId)
    requires Legal(s, run) && c in After(s, run).clients
    ensures Arrived(s, run, After(s, run).clients[c].req)
    decreases |run|
  {
    if run != [] {
      var t := Step(s, run[0]);
      InFlightRequestsArrived(t, run[1..], c);
      var req := After(s, run).clients[c].req;
      if j :| 0 <= j < |run[1..]| && run[1..][j].Arrive? && run[1..][j].req == req {
        assert run[j + 1] == run[1..][j];
      }
    }
  }

  /** Once the first row of a link is inserted, inserting the reverse row never meets a duplicate: the
      error for it can only be a failing statement. */
  lemma ReverseInsertIsNeverADuplicate(init: set<Link>, run: seq<Action<Link>>, c: ReqId)
    requires Legal(Initial(init), run) && OnlyLinkRequests(run) && Proper(init)
    requires IsRunning(After(Initial(init), run), c)
    requires var cl := After(Initial(init), run).clients[c]; cl.req.add && cl.phase.txn.done == 1
    ensures var s := After(Initial(init), run);
            var cl := s.clients[c];
            |cl.req.keys| == 2 && !Finds(s, cl.phase.txn, cl.req.keys[1])
  {
    var s := After(Initial(init), run);
    RunKeepsInv(init, Initial(init), run);
    LinksStaySymmetric(init, run);
    InFlightRequestsArrived(Initial(init), run, c);
    var cl := s.clients[c];
    assert IsLinkRequest(cl.req);
    var a, b, link :| a != b && cl.req == LinkRequest(a, b, link);
    assert TxnInv(s.table, cl.req, cl.phase.txn);
    assert cl.req.keys[0] in cl.phase.txn.inserted;
    assert Link(b, a) in cl.phase.txn.inserted ==> Link(b, a) in Records(cl.phase.txn);
    assert Link(b, a) !in cl.req.keys[..1];
  }

  /** Each end of a link logs exactly the times the link came to be, and once for each time it went and
      each unlink that committed when it was already gone. */
  lemma LinkEntriesCountTransitions(init: set<Link>, run: seq<Action<Link>>, a: IncidentKey, b: IncidentKey)
    requires Legal(Initial(init), run) && OnlyLinkRequests(run)
    ensures var s := After(Initial(init), run);
            && CountEntries(s.log, LogEntry(Link(a, b), true)) ==
                Transitions(init, s.commits, |s.commits|, Link(a, b), true)
            && CountEntries(s.log, LogEntry(Link(a, b), false))
               == Transitions(init, s.commits, |s.commits|, Link(a, b), false) + Idle(init, s.commits, |s.commits|,
                   Link(a, b))
  {
    RunKeepsInv(init, Initial(init), run);
    var s := After(Initial(init), run);
    CommittedAreLinkRequests(init, run);
    forall i | 0 <= i < |s.commits| ensures NamesOnce(s.commits[i].req) {
      assert IsLinkRequest(s.commits[i].req);
    }
    EntriesCountTransitions(init, s.commits, Link(a, b));
  }

  // ----- Requests alone -----

  /** Attaching a type the Incident has not, or detaching one it has, meeting no other request: the type alone
      comes or goes, and the log has one entry more. */
  lemma TypeAloneIsSet(s: System<TypeId>, c: ReqId, t: TypeId, attach: bool) returns (after: System<TypeId>)
    requires c !in s.clients && MA.Quiet(s, c) && (t in s.table) != attach
    ensures var run := MA.Alone(c, TypeRequest(t, attach)); Legal(s, run) && After(s, run) == after
    ensures after.table == if attach then s.table + {t} else s.table - {t}
    ensures after.log == s.log + [LogEntry(t, attach)]
    ensures c in after.clients && after.clients[c].progress == Answered(Done)
  {
    var req := TypeRequest(t, attach);
    hide Legal, After, MA.Alone;
    after := MA.AloneGetsThrough(s, c, req);
    assert MA.KeysOf(req.keys) == {t};
    assert after.log == s.log + [after.log[|s.log|]];
  }

  /** Linking two Incidents that are not linked, or unlinking two that are: both directions come or go, and
      each end has one entry more. */
  lemma LinkAloneIsSet(s: System<Link>, c: ReqId, a: IncidentKey, b: IncidentKey, link: bool)
    returns (after: System<Link>)
    requires c !in s.clients && MA.Quiet(s, c) && Proper(s.table) && a != b
    requires (Link(a, b) in s.table) != link
    ensures var run := MA.Alone(c, LinkRequest(a, b, link)); Legal(s, run) && After(s, run) == after
    ensures after.table == if link then s.table + {Link(a, b), Link(b, a)} else s.table - {Link(a, b), Link(b, a)}
    ensures after.log == s.log + [LogEntry(Link(a, b), link), LogEntry(Link(b, a), link)]
    ensures c in after.clients && after.clients[c].progress == Answered(Done)
  {
    var req := LinkRequest(a, b, link);
    assert req.keys[..0] == [] && req.keys[..1] == [Link(a, b)];
    hide Legal, After, MA.Alone;
    after := MA.AloneGetsThrough(s, c, req);
    assert MA.KeysOf(req.keys) == {Link(a, b), Link(b, a)};
    var n := |s.log|;
    assert after.log == s.log + [after.log[n], after.log[n + 1]];
    assert after.log[n + 0] == LogEntry(Link(a, b), link) && after.log[n + 1] == LogEntry(Link(b, a), link);
  }
}
