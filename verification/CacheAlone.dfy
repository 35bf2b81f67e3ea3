/** A cache does cache: what a fresh cell, a stale one and a failing fetch give a reader (lib/cache/cache.go). */
module CacheAlone {
  import opened Base
  import opened Cache
  import opened CacheRuns

  lemma OneMore(s: System, a: Action, rest: seq<Action>, ttl: int)
    requires Enabled(s, a) && Legal(Step(s, a, ttl), rest, ttl)
    ensures Legal(s, [a] + rest, ttl) && After(s, [a] + rest, ttl) == After(Step(s, a, ttl), rest, ttl)
  {
    assert ([a] + rest)[1..] == rest;
  }

  lemma Last(s: System, a: Action, ttl: int)
    requires Enabled(s, a)
    ensures Legal(s, [a], ttl) && After(s, [a], ttl) == Step(s, a, ttl)
  {
    assert [a][1..] == [];
  }

  /** A reader of a fresh cell is served what it holds, without a fetch, a lock or a change of any cache. */
  lemma FreshCellIsServed(s: System, p: ReqId, c: CacheId, ttl: int)
    requires p !in s.procs && StillValid(s.slots.Of(c).cell.time, ttl, s.now)
    ensures var run := [StartGet(p, c)] + ([Go(p)] + [Go(p)]);
            && Legal(s, run, ttl)
            && var t := After(s, run, ttl);
            && t.slots == s.slots && p in t.procs
            && var cell := s.slots.Of(c).cell;
            t.procs[p].phase == Got(Served(cell.version, cell.time, s.now, cell.era))
  {
    var s1 := Step(s, StartGet(p, c), ttl);
    var s2 := Step(s1, Go(p), ttl);
    assert s2.procs[p].phase == Checking(s.slots.Of(c).cell) && s2.slots == s.slots && s2.now == s.now;
    Last(s2, Go(p), ttl);
    hide Legal, After;
    OneMore(s1, Go(p), [Go(p)], ttl);
    OneMore(s, StartGet(p, c), [Go(p)] + [Go(p)], ttl);
  }

  /** A reader's way to its fetch and from there. */
  function ToFetch(p: ReqId, rest: seq<Action>): seq<Action> {
    [Go(p)] + ([Go(p)] + ([Go(p)] + ([Go(p)] + ([Go(p)] + rest))))
  }

  /** The reader at this point, its cache's mutex held by it. */
  function AtWork(s: System, p: ReqId, c: CacheId, phase: Phase): System {
    var slot := s.slots.Of(c);
    s.(procs := s.procs[p := Proc(c, phase, slot.floor, slot.era)],
       slots := s.slots.Put(c, slot.(holder := Some(p))))
  }

  lemma ReachesFetch(s: System, p: ReqId, c: CacheId, ttl: int, rest: seq<Action>)
    requires p in s.procs && s.procs[p] == Proc(c, Loading, s.slots.Of(c).floor, s.slots.Of(c).era)
    requires s.slots.Of(c).holder == None && !StillValid(s.slots.Of(c).cell.time, ttl, s.now)
    requires Legal(AtWork(s, p, c, Fetching(s.directory, s.slots.Of(c).era)), rest, ttl)
    ensures Legal(s, ToFetch(p, rest), ttl)
    ensures var fetching := AtWork(s, p, c, Fetching(s.directory, s.slots.Of(c).era));
            After(s, ToFetch(p, rest), ttl) == After(fetching, rest, ttl)
  {
    var s1 := Step(s, Go(p), ttl);
    var s2 := Step(s1, Go(p), ttl);
    var s3 := Step(s2, Go(p), ttl);
    assert s3 == AtWork(s, p, c, Reloading);
    var s4 := Step(s3, Go(p), ttl);
    assert s4 == AtWork(s, p, c, Rechecking(s.slots.Of(c).cell));
    var s5 := Step(s4, Go(p), ttl);
    assert s5 == AtWork(s, p, c, Fetching(s.directory, s.slots.Of(c).era));
    hide Legal, After, Step, AtWork;
    OneMore(s4, Go(p), rest, ttl);
    OneMore(s3, Go(p), [Go(p)] + rest, ttl);
    OneMore(s2, Go(p), [Go(p)] + ([Go(p)] + rest), ttl);
    OneMore(s1, Go(p), [Go(p)] + ([Go(p)] + ([Go(p)] + rest)), ttl);
    OneMore(s, Go(p), [Go(p)] + ([Go(p)] + ([Go(p)] + ([Go(p)] + rest))), ttl);
  }

  lemma FetchesAndStores(s: System, p: ReqId, c: CacheId, ttl: int)
    requires p in s.procs && s.slots.Of(c).holder == None
    ensures var slot, h := s.slots.Of(c), AtWork(s, p, c, Fetching(s.directory, s.slots.Of(c).era));
            var run := [FetchOk(p, s.directory)] + ([Go(p)] + [Go(p)]);
            && Legal(h, run, ttl)
            && var t := After(h, run, ttl);
            && p in t.procs && t.procs[p].phase == Got(Fetched(s.directory, slot.era))
            && t.slots == s.slots.Put(c, slot.(cell := Cell(Some(s.directory), s.now, slot.era)))
  {
    var h := AtWork(s, p, c, Fetching(s.directory, s.slots.Of(c).era));
    var h1 := Step(h, FetchOk(p, s.directory), ttl);
    assert h1 == AtWork(s, p, c, Storing(s.directory, s.now, s.slots.Of(c).era));
    var h2 := Step(h1, Go(p), ttl);
    assert h2.procs[p].phase == Unlocking(Fetched(s.directory, s.slots.Of(c).era));
    Last(h2, Go(p), ttl);
    hide Legal, After;
    OneMore(h1, Go(p), [Go(p)], ttl);
    OneMore(h, FetchOk(p, s.directory), [Go(p)] + [Go(p)], ttl);
  }

  /** A reader of a stale cell whose mutex is free fetches what the directory holds, returns it and stores it
      with the clock's reading. So the next reader is served it, as long as the ttl lasts. */
  lemma StaleCellIsRefreshed(s: System, p: ReqId, c: CacheId, ttl: int)
    requires p !in s.procs && s.slots.Of(c).holder == None && !StillValid(s.slots.Of(c).cell.time, ttl, s.now)
    ensures var run := [StartGet(p, c)] + ToFetch(p, [FetchOk(p, s.directory)] + ([Go(p)] + [Go(p)]));
            && Legal(s, run, ttl)
            && var t := After(s, run, ttl);
            && p in t.procs && t.procs[p].phase == Got(Fetched(s.directory, s.slots.Of(c).era))
            && t.slots == s.slots.Put(c, s.slots.Of(c).(cell := Cell(Some(s.directory), s.now, s.slots.Of(c).era)))
  {
    var s1 := Step(s, StartGet(p, c), ttl);
    var fetch := [FetchOk(p, s.directory)] + ([Go(p)] + [Go(p)]);
    assert s1.slots == s.slots && s1.now == s.now && s1.directory == s.directory;
    hide Legal, After, AtWork, ToFetch;
    FetchesAndStores(s1, p, c, ttl);
    ReachesFetch(s1, p, c, ttl, fetch);
    OneMore(s, StartGet(p, c), ToFetch(p, fetch), ttl);
  }

  predicate IsFailing(s: System, p: ReqId) {
    p in s.procs && (s.procs[p].phase == Unlocking(Failed) || s.procs[p].phase == Got(Failed))
  }

  /** A read fails only if its own fetch did. */
  lemma {:induction false} FailureNeedsAFailedFetch(s: System, run: seq<Action>, ttl: int, p: ReqId)
    requires Legal(s, run, ttl) && !IsFailing(s, p) && IsFailing(After(s, run, ttl), p)
    ensures FetchErr(p) in run
    decreases |run|
  {
    if run[0] != FetchErr(p) {
      FailureNeedsAFailedFetch(Step(s, run[0], ttl), run[1..], ttl, p);
    }
  }
}
