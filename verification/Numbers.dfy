/**
 * Allocating record numbers: every creator reads max + 1 without a lock and inserts, and the primary
 * key settles races (api/incident.go, api/fieldreport.go, api/visit.go).
 */
module Numbers {
  import opened Base

  const MAX_NUMBER_ALLOC_ATTEMPTS: nat := 3

  function UpTo(n: nat): (r: set<nat>)
    ensures forall k :: k in r <==> 1 <= k <= n
  {
    if n == 0 then {} else UpTo(n - 1) + {n}
  }

  /** What the allocation query returns: one more than the largest number, or 1. */
  ghost predicate IsNext(numbers: set<nat>, next: nat) {
    next >= 1 && (forall k :: k in numbers ==> k < next) && (next > 1 ==> next - 1 in numbers)
  }

  /** NextIncidentNumber: candidates NUMBER + 1 and 1, the largest first. */
  method NextNumber(numbers: set<nat>) returns (next: nat)
    ensures IsNext(numbers, next)
  {
    next := 1;
    var left := numbers;
    while left != {}
      invariant left <= numbers
      invariant next >= 1 && (next > 1 ==> next - 1 in numbers)
      invariant forall k :: k in numbers && k !in left ==> k < next
      decreases left
    {
      var k :| k in left;
      left := left - {k};
      if k + 1 > next {
        next := k + 1;
      }
    }
  }

  lemma NextAfterUpTo(n: nat, next: nat)
    ensures IsNext(UpTo(n), next) <==> next == n + 1
  {
    if IsNext(UpTo(n), next) && n > 0 {
      assert n in UpTo(n);
    }
    if IsNext(UpTo(n), next) && next > 1 {
      assert next - 1 in UpTo(n);
    }
  }

  /** The numbers in use in one event. */
  class NumberTable {
    var numbers: set<nat>

    /** The insert: refused when the primary key is taken. */
    method Create(n: nat) returns (duplicate: bool)
      modifies this
      ensures duplicate == (n in old(numbers))
      ensures numbers == old(numbers) + {n}
    {
      duplicate := n in numbers;
      numbers := numbers + {n};
    }

    /** Other creators run to completion, one after another. */
    method RivalsCreate(count: nat, ghost n: nat)
      requires numbers == UpTo(n)
      modifies this
      ensures numbers == UpTo(n + count)
    {
      for k := 0 to count
        invariant numbers == UpTo(n + k)
      {
        var next := NextNumber(numbers);
        NextAfterUpTo(n + k, next);
        var _ := Create(next);
        assert numbers == UpTo(n + k + 1);
      }
    }

    /** The allocation loop of a creation; rivals(k) creations of other requests complete between the
        read and the insert of its attempt number k. It gives up exactly when every attempt had one. */
    method NewNumber(rivals: nat -> nat, ghost n: nat) returns (number: Option<nat>)
      requires numbers == UpTo(n)
      modifies this
      ensures number.None? <==> forall k: nat :: k < MAX_NUMBER_ALLOC_ATTEMPTS ==> rivals(k) > 0
      ensures number.Some? ==> number.value !in old(numbers) && number.value in numbers
      ensures exists m: nat :: m >= n && numbers == UpTo(m) && (number.Some? ==> number.value == m)
    {
      ghost var m := n;
      for attempt := 0 to MAX_NUMBER_ALLOC_ATTEMPTS
        invariant m >= n && numbers == UpTo(m)
        invariant forall k: nat :: k < attempt ==> rivals(k) > 0
      {
        var duplicate, next := TryNumber(rivals(attempt), m);
        m := m + rivals(attempt);
        if !duplicate {
          m := m + 1;
          hide UpTo;
          assert numbers == UpTo(m) && next == m;
          return Some(next);
        }
      }
      number := None;
    }

    /** One attempt, with `rivals` creations of others between its read and its insert. */
    method TryNumber(rivals: nat, ghost m: nat) returns (duplicate: bool, next: nat)
      requires numbers == UpTo(m)
      modifies this
      ensures next == m + 1 && (duplicate <==> rivals > 0)
      ensures numbers == UpTo(m + rivals + if duplicate then 0 else 1)
    {
      next := NextNumber(numbers);
      NextAfterUpTo(m, next);
      RivalsCreate(rivals, m);
      duplicate := Create(next);
      assert numbers == UpTo(m + rivals + if duplicate then 0 else 1);
    }
  }

  // ----- Every interleaving of creators -----

  datatype Result = Created(number: nat) | Conflict | ServerError

  /** `since` is history: how many records the event had when the request arrived. */
  datatype Creator = Creator(phase: Phase, attempt: nat, since: nat)
  datatype Phase = Reading | Inserting(number: nat) | Over(result: Result)

  datatype Event = Event(
    numbers: set<nat>,                  // the primary keys in use
    made: seq<ReqId>,                   // history: who created a record, in order
    creators: map<ReqId, Creator>)

  /** A read sees some number that is next at that moment. */
  datatype Action = Arrive(c: ReqId) | Read(c: ReqId, next: nat) | Insert(c: ReqId) | Fail(c: ReqId)

  ghost predicate Enabled(s: Event, a: Action) {
    match a
    case Arrive(c) => c !in s.creators
    case Read(c, next) => c in s.creators && s.creators[c].phase.Reading? && IsNext(s.numbers, next)
    case Insert(c) => c in s.creators && s.creators[c].phase.Inserting?
    case Fail(c) => c in s.creators && !s.creators[c].phase.Over?
  }

  function Become(s: Event, c: ReqId, phase: Phase, attempt: nat): Event
    requires c in s.creators
  {
    s.(creators := s.creators[c := s.creators[c].(phase := phase, attempt := attempt)])
  }

  function StepInsert(s: Event, c: ReqId): Event
    requires c in s.creators && s.creators[c].phase.Inserting?
  {
    var cr := s.creators[c];
    var n := cr.phase.number;
    if n !in s.numbers then Become(s, c, Over(Created(n)), cr.attempt).(numbers := s.numbers + {n},
        made := s.made + [c])
    else if cr.attempt >= MAX_NUMBER_ALLOC_ATTEMPTS then Become(s, c, Over(Conflict), cr.attempt)
    else Become(s, c, Reading, cr.attempt + 1)
  }

  ghost function Step(s: Event, a: Action): Event
    requires Enabled(s, a)
  {
    match a
    case Arrive(c) => s.(creators := s.creators[c := Creator(Reading, 1, |s.numbers|)])
    case Read(c, next) => Become(s, c, Inserting(next), s.creators[c].attempt)
    case Insert(c) => StepInsert(s, c)
    case Fail(c) => Become(s, c, Over(ServerError), s.creators[c].attempt)
  }

  ghost predicate CreatorInv(s: Event, c: ReqId, cr: Creator) {
    && 1 <= cr.attempt <= MAX_NUMBER_ALLOC_ATTEMPTS
    && (match cr.phase
        case Reading => cr.since + cr.attempt - 1 <= |s.made| && c !in s.made
        case Inserting(n) => cr.since + cr.attempt <= n <= |s.made| + 1 && c !in s.made
        case Over(Created(n)) => 1 <= n <= |s.made| && s.made[n - 1] == c
        case Over(Conflict) => cr.since + MAX_NUMBER_ALLOC_ATTEMPTS <= |s.made| && c !in s.made
        case Over(ServerError) => c !in s.made)
  }

  ghost predicate Inv(s: Event) {
    && s.numbers == UpTo(|s.made|)
    && |s.numbers| == |s.made|
    && (forall c :: c in s.creators ==> CreatorInv(s, c, s.creators[c]))
    && (forall c :: c in s.made ==> c in s.creators)
  }

  /** A creator whose statement this is not, and one whose it is. */
  lemma BystanderStaysOk(s: Event, a: Action, c: ReqId)
    requires Enabled(s, a) && c != a.c && c in s.creators && CreatorInv(s, c, s.creators[c])
    ensures c in Step(s, a).creators && CreatorInv(Step(s, a), c, Step(s, a).creators[c])
  {
    hide IsNext;
    var t := Step(s, a);
    assert t.creators[c] == s.creators[c];
    assert t.made == s.made || t.made == s.made + [a.c];
    hide Step, Enabled;
  }

  lemma ActorStaysOk(s: Event, a: Action)
    requires Inv(s) && Enabled(s, a) && (a.Read? ==> a.next == |s.made| + 1)
    ensures a.c in Step(s, a).creators && CreatorInv(Step(s, a), a.c, Step(s, a).creators[a.c])
  {
    if a.Arrive? {
      assert a.c !in s.made;
    } else {
      assert CreatorInv(s, a.c, s.creators[a.c]);
    }
    hide IsNext;
  }

  lemma CreatorsStayOk(s: Event, a: Action, c: ReqId)
    requires Inv(s) && Enabled(s, a) && (a.Read? ==> a.next == |s.made| + 1)
    requires c in Step(s, a).creators
    ensures CreatorInv(Step(s, a), c, Step(s, a).creators[c])
  {
    if c == a.c {
      ActorStaysOk(s, a);
    } else {
      assert c in s.creators && CreatorInv(s, c, s.creators[c]);
      hide CreatorInv, Inv;
      BystanderStaysOk(s, a, c);
    }
  }

  lemma StepKeepsInv(s: Event, a: Action)
    requires Inv(s) && Enabled(s, a)
    ensures Inv(Step(s, a))
  {
    if a.Read? {
      NextAfterUpTo(|s.made|, a.next);
    }
    var t := Step(s, a);
    forall c | c in t.creators ensures CreatorInv(t, c, t.creators[c]) {
      CreatorsStayOk(s, a, c);
    }
    NumbersStayUpTo(s, a);
    hide CreatorInv, IsNext, UpTo, Step, Enabled;
  }

  /** A number that is free is the next, as the creator read it when it was. */
  lemma NumbersStayUpTo(s: Event, a: Action)
    requires Inv(s) && Enabled(s, a)
    ensures var t := Step(s, a);
            && t.numbers == UpTo(|t.made|) && |t.numbers| == |t.made|
            && forall c :: c in t.made ==> c in t.creators
  {
    hide IsNext;
    if a.Insert? {
      assert CreatorInv(s, a.c, s.creators[a.c]);
      InsertAddsTheNext(s, a.c);
    }
  }

  lemma InsertAddsTheNext(s: Event, c: ReqId)
    requires s.numbers == UpTo(|s.made|) && |s.numbers| == |s.made|
    requires c in s.creators && s.creators[c].phase.Inserting? && 1 <= s.creators[c].phase.number <= |s.made| + 1
    ensures var t := StepInsert(s, c); t.numbers == UpTo(|t.made|) && |t.numbers| == |t.made|
  {
  }

  ghost predicate Legal(s: Event, run: seq<Action>)
    decreases |run|
  {
    run == [] || (Enabled(s, run[0]) && Legal(Step(s, run[0]), run[1..]))
  }

  ghost function After(s: Event, run: seq<Action>): Event
    requires Legal(s, run)
    decreases |run|
  {
    if run == [] then s else After(Step(s, run[0]), run[1..])
  }

  lemma {:induction false} RunKeepsInv(s: Event, run: seq<Action>)
    requires Inv(s) && Legal(s, run)
    ensures Inv(After(s, run))
    decreases |run|
  {
    if run != [] {
      StepKeepsInv(s, run[0]);
      RunKeepsInv(Step(s, run[0]), run[1..]);
    }
  }

  const EMPTY_EVENT: Event := Event({}, [], map[])

  /** However creators interleave, the numbers in use are exactly 1 to N, one per creation; no two
      creations return the same number, and a returned number is in use. */
  lemma NumbersAreConsecutiveAndUnique(run: seq<Action>)
    requires Legal(EMPTY_EVENT, run)
    ensures var s := After(EMPTY_EVENT, run);
            && s.numbers == UpTo(|s.made|)
            && (forall c :: c in s.creators && s.creators[c].phase.Over? && s.creators[c].phase.result.Created? ==>
                  s.creators[c].phase.result.number in s.numbers)
            && (forall c, d :: c in s.creators && d in s.creators && c != d
                               && s.creators[c].phase.Over? && s.creators[c].phase.result.Created?
                               && s.creators[d].phase.Over? && s.creators[d].phase.result.Created? ==>
                  s.creators[c].phase.result.number != s.creators[d].phase.result.number)
  {
    RunKeepsInv(EMPTY_EVENT, run);
    var s := After(EMPTY_EVENT, run);
    forall c | c in s.creators ensures CreatorInv(s, c, s.creators[c]) {}
  }

  /** A creation is answered 409 only if at least three creations of other requests completed after
      it arrived. */
  lemma ConflictNeedsRivals(run: seq<Action>, c: ReqId)
    requires Legal(EMPTY_EVENT, run)
    requires c in After(EMPTY_EVENT, run).creators && After(EMPTY_EVENT, run).creators[c].phase == Over(Conflict)
    ensures var s := After(EMPTY_EVENT, run);
            s.creators[c].since + MAX_NUMBER_ALLOC_ATTEMPTS <= |s.made| && c !in s.made
  {
    RunKeepsInv(EMPTY_EVENT, run);
    var s := After(EMPTY_EVENT, run);
    assert CreatorInv(s, c, s.creators[c]);
  }

  predicate ToldServerError(s: Event, c: ReqId) {
    c in s.creators && s.creators[c].phase == Over(ServerError)
  }

  /** A creation is answered 500 only if one of its statements failed. */
  lemma {:induction false} ErrorNeedsFailure(s: Event, run: seq<Action>, c: ReqId)
    requires Legal(s, run) && !ToldServerError(s, c) && ToldServerError(After(s, run), c)
    ensures Fail(c) in run
    decreases |run|
  {
    var t := Step(s, run[0]);
    if run[0] != Fail(c) {
      assert !ToldServerError(t, c);
      ErrorNeedsFailure(t, run[1..], c);
    }
  }

  /** A creation that meets no other gets the next number at its first attempt. */
  lemma AloneGetsTheNext(before: seq<Action>, c: ReqId)
    requires Legal(EMPTY_EVENT, before) && c !in After(EMPTY_EVENT, before).creators
    ensures var s := After(EMPTY_EVENT, before);
            var run := [Arrive(c)] + ([Read(c, |s.made| + 1)] + [Insert(c)]);
            && Legal(s, run)
            && var t := After(s, run);
            && c in t.creators && t.creators[c].phase == Over(Created(|s.made| + 1))
            && t.numbers == UpTo(|s.made| + 1) && t.made == s.made + [c]
  {
    RunKeepsInv(EMPTY_EVENT, before);
    var s := After(EMPTY_EVENT, before);
    var next := |s.made| + 1;
    assert IsNext(s.numbers, next) && next !in s.numbers;
    assert UpTo(next) == UpTo(|s.made|) + {next};
    var run := [Arrive(c)] + ([Read(c, next)] + [Insert(c)]);
    var s1 := Step(s, Arrive(c));
    var s2 := Step(s1, Read(c, next));
    var s3 := Step(s2, Insert(c));
    assert run[1..] == [Read(c, next)] + [Insert(c)] && run[1..][1..] == [Insert(c)] && [Insert(c)][1..] == [];
    assert Legal(s3, []) && Legal(s2, [Insert(c)]) && After(s2, [Insert(c)]) == s3;
    assert Legal(s1, run[1..]) && After(s1, run[1..]) == s3;
  }
}
