/**
 * The directory caches under concurrent use: three caches over one directory, any number of readers
 * and flushers, interleaved load by load, lock by lock, fetch by fetch.
 *
 * The directory's content is its version: every write to it is one more.
 */
module CacheRuns {
  import opened Base
  import opened Cache

  datatype CacheId = Users | Positions | Teams

  /** What the atomic pointer points to: a directory version, or nothing yet, and when it was stored.
      `era` is history: how often the cache had been invalidated when that version's fetch began. */
  datatype Cell = Cell(version: Option<nat>, time: Time, era: nat)

  const EMPTY: Cell := Cell(None, EPOCH, 0)

  /** `floor` and `era` are history: the directory version when the cache was last invalidated, and how
      often it has been. */
  datatype Slot = Slot(cell: Cell, holder: Option<ReqId>, floor: nat, era: nat)

  datatype Slots = Slots(users: Slot, positions: Slot, teams: Slot) {
    function Of(c: CacheId): Slot {
      match c
      case Users => users
      case Positions => positions
      case Teams => teams
    }

    function Put(c: CacheId, slot: Slot): Slots {
      match c
      case Users => this.(users := slot)
      case Positions => this.(positions := slot)
      case Teams => this.(teams := slot)
    }
  }

  /** How a read ended. A served value says when it was stored and when that was checked. */
  datatype Outcome =
    | Served(version: Option<nat>, storedAt: Time, checkedAt: Time, era: nat)
    | Fetched(fetched: nat, era: nat)
    | Failed

  datatype Phase =
    // A reader of one cache.
    | Loading                               // before the first, unlocked load
    | Checking(cell: Cell)                  // before comparing its time with the clock
    | Locking                               // waiting for the mutex
    | Reloading                             // holding it, before the second load
    | Rechecking(cell: Cell)
    | Fetching(begun: nat, era: nat)        // the refresher runs; the directory version and the era when it began
    | Storing(fetched: nat, stamp: Time, era: nat) // about to store what it returned
    | Unlocking(outcome: Outcome)
    | Got(outcome: Outcome)
    // A flusher, working through the three caches.
    | FlushLocking(next: CacheId)
    | FlushStoring(next: CacheId)
    | FlushUnlocking(next: CacheId)
    | Flushed

  /** A process: a reader of `cache`, or a flusher. `floor` and `era` are history: for a reader, those of
      its cache when it started; for a flusher, the directory version when it started. */
  datatype Proc = Proc(cache: CacheId, phase: Phase, floor: nat, era: nat)

  datatype System = System(now: Time, directory: nat, slots: Slots, procs: map<ReqId, Proc>)

  datatype Action =
    | Tick(now: Time)
    | WriteDirectory
    | StartGet(p: ReqId, cache: CacheId)
    | StartFlush(p: ReqId)
    | Go(p: ReqId)                          // the next step of p, when it has only one
    | FetchOk(p: ReqId, version: nat)       // the refresher returns some version it may have seen
    | FetchErr(p: ReqId)

  /** The cache whose mutex the process holds, if any. */
  function Holding(pr: Proc): Option<CacheId> {
    match pr.phase
    case Reloading => Some(pr.cache)
    case Rechecking(_) => Some(pr.cache)
    case Fetching(_, _) => Some(pr.cache)
    case Storing(_, _, _) => Some(pr.cache)
    case Unlocking(_) => Some(pr.cache)
    case FlushStoring(c) => Some(c)
    case FlushUnlocking(c) => Some(c)
    case _ => None
  }

  predicate CanGo(s: System, p: ReqId)
  {
    p in s.procs &&
    match s.procs[p].phase
    case Locking => s.slots.Of(s.procs[p].cache).holder == None
    case FlushLocking(c) => s.slots.Of(c).holder == None
    case Fetching(_, _) => false
    case Got(_) => false
    case Flushed => false
    case _ => true
  }

  predicate Enabled(s: System, a: Action)
  {
    match a
    case Tick(now) => s.now <= now
    case WriteDirectory => true
    case StartGet(p, _) => p !in s.procs
    case StartFlush(p) => p !in s.procs
    case Go(p) => CanGo(s, p)
    case FetchOk(p, v) => p in s.procs && s.procs[p].phase.Fetching? && s.procs[p].phase.begun <= v <= s.directory
    case FetchErr(p) => p in s.procs && s.procs[p].phase.Fetching?
  }

  function At(s: System, p: ReqId, phase: Phase): System
    requires p in s.procs
  {
    s.(procs := s.procs[p := s.procs[p].(phase := phase)])
  }

  function SetSlot(s: System, c: CacheId, slot: Slot): System {
    s.(slots := s.slots.Put(c, slot))
  }

  function NextCache(c: CacheId): Option<CacheId> {
    match c
    case Users => Some(Positions)
    case Positions => Some(Teams)
    case Teams => None
  }

  function StepGo(s: System, p: ReqId, ttl: int): System
    requires CanGo(s, p)
  {
    var pr := s.procs[p];
    var slot := s.slots.Of(pr.cache);
    match pr.phase
    case Loading => At(s, p, Checking(slot.cell))
    case Checking(cell) =>
      if StillValid(cell.time, ttl, s.now) then At(s, p, Got(Served(cell.version, cell.time, s.now, cell.era)))
      else At(s, p, Locking)
    case Locking => SetSlot(At(s, p, Reloading), pr.cache, slot.(holder := Some(p)))
    case Reloading => At(s, p, Rechecking(slot.cell))
    case Rechecking(cell) =>
      if StillValid(cell.time, ttl, s.now) then At(s, p, Unlocking(Served(cell.version, cell.time, s.now, cell.era)))
      else At(s, p, Fetching(s.directory, slot.era))
    case Fetching(_, _) => s
    case Storing(v, stamp, era) =>
      SetSlot(At(s, p, Unlocking(Fetched(v, era))), pr.cache, slot.(cell := Cell(Some(v), stamp, era)))
    case Unlocking(o) => SetSlot(At(s, p, Got(o)), pr.cache, slot.(holder := None))
    case FlushLocking(c) => SetSlot(At(s, p, FlushStoring(c)), c, s.slots.Of(c).(holder := Some(p)))
    case FlushStoring(c) =>
      SetSlot(At(s, p, FlushUnlocking(c)), c, s.slots.Of(c).(cell := EMPTY, floor := s.directory,
          era := s.slots.Of(c).era + 1))
    case FlushUnlocking(c) =>
      var unlocked := SetSlot(s, c, s.slots.Of(c).(holder := None));
      (match NextCache(c)
       case Some(n) => At(unlocked, p, FlushLocking(n))
       case None => At(unlocked, p, Flushed))
    case Got(_) => s
    case Flushed => s
  }

  function Step(s: System, a: Action, ttl: int): System
    requires Enabled(s, a)
  {
    match a
    case Tick(now) => s.(now := now)
    case WriteDirectory => s.(directory := s.directory + 1)
    case StartGet(p, c) => s.(procs := s.procs[p := Proc(c, Loading, s.slots.Of(c).floor, s.slots.Of(c).era)])
    case StartFlush(p) => s.(procs := s.procs[p := Proc(Users, FlushLocking(Users), s.directory, 0)])
    case Go(p) => StepGo(s, p, ttl)
    case FetchOk(p, v) => At(s, p, Storing(v, s.now, s.procs[p].phase.era))
    case FetchErr(p) => At(s, p, Unlocking(Failed))
  }

  ghost predicate Legal(s: System, run: seq<Action>, ttl: int)
    decreases |run|
  {
    run == [] || (Enabled(s, run[0]) && Legal(Step(s, run[0], ttl), run[1..], ttl))
  }

  ghost function After(s: System, run: seq<Action>, ttl: int): System
    requires Legal(s, run, ttl)
    decreases |run|
  {
    if run == [] then s else After(Step(s, run[0], ttl), run[1..], ttl)
  }

  function Start(now: Time): System
  {
    System(now, 0, Slots(Slot(EMPTY, None, 0, 0), Slot(EMPTY, None, 0, 0), Slot(EMPTY, None, 0, 0)), map[])
  }

  // ----- What every run keeps -----

  /** A cell holds something the directory has been since the version `floor`, fetched since `era` and
      stored in the past; or nothing, in which case it never looks fresh. */
  ghost predicate CellOk(s: System, ttl: int, cell: Cell, floor: nat, era: nat) {
    match cell.version
    case Some(v) => floor <= v <= s.directory && era <= cell.era && cell.time <= s.now
    case None => cell.time + ttl <= s.now
  }

  /** What a read may return. */
  ghost predicate OutcomeOk(s: System, ttl: int, o: Outcome, floor: nat, era: nat) {
    match o
    case Served(version, storedAt, checkedAt, begun) =>
      && version.Some? && floor <= version.value <= s.directory && era <= begun
      && storedAt <= checkedAt < storedAt + ttl && checkedAt <= s.now
    case Fetched(v, begun) => floor <= v <= s.directory && era <= begun
    case Failed => true
  }

  /** The caches a flusher has already invalidated. */
  predicate Done(phase: Phase, c: CacheId) {
    match phase
    case FlushLocking(n) => Before(c, n)
    case FlushStoring(n) => Before(c, n)
    case FlushUnlocking(n) => c == n || Before(c, n)
    case Flushed => true
    case _ => false
  }

  predicate Before(c: CacheId, d: CacheId) {
    (c.Users? && !d.Users?) || (c.Positions? && d.Teams?)
  }

  ghost predicate ProcOk(s: System, ttl: int, pr: Proc) {
    pr.floor <= s.directory && PhaseOk(s, ttl, pr) && FlushOk(s, pr)
  }

  ghost predicate PhaseOk(s: System, ttl: int, pr: Proc) {
    && (IsReader(pr.phase) ==> pr.floor <= s.slots.Of(pr.cache).floor && pr.era <= s.slots.Of(pr.cache).era)
    && match pr.phase
       case Checking(cell) => CellOk(s, ttl, cell, pr.floor, pr.era)
       case Rechecking(cell) => CellOk(s, ttl, cell, pr.floor, pr.era)
       case Fetching(begun, era) =>
         pr.floor <= s.slots.Of(pr.cache).floor <= begun <= s.directory && era == s.slots.Of(pr.cache).era
       case Storing(v, stamp, era) =>
         && pr.floor <= s.slots.Of(pr.cache).floor <= v <= s.directory && era == s.slots.Of(pr.cache).era
         && stamp <= s.now
       case Unlocking(o) => OutcomeOk(s, ttl, o, pr.floor, pr.era)
       case Got(o) => OutcomeOk(s, ttl, o, pr.floor, pr.era)
       case _ => true
  }

  ghost predicate FlushOk(s: System, pr: Proc) {
    && (Done(pr.phase, Users) ==> pr.floor <= s.slots.users.floor)
    && (Done(pr.phase, Positions) ==> pr.floor <= s.slots.positions.floor)
    && (Done(pr.phase, Teams) ==> pr.floor <= s.slots.teams.floor)
  }

  predicate IsReader(phase: Phase) {
    !phase.FlushLocking? && !phase.FlushStoring? && !phase.FlushUnlocking? && !phase.Flushed?
  }

  ghost predicate SlotOk(s: System, ttl: int, slot: Slot) {
    CellOk(s, ttl, slot.cell, slot.floor, slot.era) && slot.floor <= s.directory
  }

  ghost predicate Inv(s: System, ttl: int) {
    && EPOCH + ttl <= s.now
    && SlotOk(s, ttl, s.slots.Of(Users)) && SlotOk(s, ttl, s.slots.Of(Positions)) && SlotOk(s, ttl, s.slots.Of(Teams))
    && (forall p :: p in s.procs ==> ProcOk(s, ttl, s.procs[p]))
    && Exclusive(s)
  }

  /** Whoever holds a mutex is its one holder. */
  ghost predicate Exclusive(s: System) {
    forall p :: p in s.procs && Holding(s.procs[p]).Some? ==> s.slots.Of(Holding(s.procs[p]).value).holder == Some(p)
  }

  /** Time, the directory, the floors and the eras only grow. */
  ghost predicate Later(s: System, t: System) {
    && s.now <= t.now && s.directory <= t.directory
    && LaterSlot(s.slots.users, t.slots.users)
    && LaterSlot(s.slots.positions, t.slots.positions)
    && LaterSlot(s.slots.teams, t.slots.teams)
  }

  predicate LaterSlot(a: Slot, b: Slot) {
    a.floor <= b.floor && a.era <= b.era
  }

  /** Not invalidated in between. */
  predicate SameEra(a: Slot, b: Slot) {
    a.floor == b.floor && a.era == b.era
  }

  /** Where a process p has no part in a step, only its cache's mutex could have let the floor move. */
  lemma BystanderStaysOk(s: System, t: System, ttl: int, pr: Proc)
    requires ProcOk(s, ttl, pr) && Later(s, t)
    requires Holding(pr).Some? ==> SameEra(s.slots.Of(Holding(pr).value), t.slots.Of(Holding(pr).value))
    ensures ProcOk(t, ttl, pr)
  {
  }

  lemma StepIsLater(s: System, a: Action, ttl: int)
    requires Enabled(s, a)
    requires SlotsBelow(s)
    ensures Later(s, Step(s, a, ttl))
  {
    hide StillValid;
    if a.Go? {
      GoIsLater(s, a.p, ttl);
      hide StepGo;
    }
  }

  /** No cache was invalidated at a version the directory has not reached. */
  predicate SlotsBelow(s: System) {
    s.slots.users.floor <= s.directory && s.slots.positions.floor <= s.directory && s.slots.teams.floor <= s.directory
  }

  lemma GoIsLater(s: System, p: ReqId, ttl: int)
    requires CanGo(s, p) && SlotsBelow(s)
    ensures Later(s, StepGo(s, p, ttl))
  {
    hide StillValid;
    var t := StepGo(s, p, ttl);
    assert t.now == s.now && t.directory == s.directory;
    assert t.slots.users == s.slots.users || LaterSlot(s.slots.users, t.slots.users);
  }

  /** A flusher passes on only after raising the floor of the cache it worked on. */
  lemma FlusherIsOk(s: System, p: ReqId, ttl: int)
    requires CanGo(s, p) && ProcOk(s, ttl, s.procs[p]) && !IsReader(s.procs[p].phase)
    ensures ProcOk(StepGo(s, p, ttl), ttl, StepGo(s, p, ttl).procs[p])
  {
  }

  /** A reader keeps what it read within bounds, as nobody can invalidate its cache while it refreshes. */
  lemma ReaderIsOk(s: System, p: ReqId, ttl: int)
    requires CanGo(s, p) && ProcOk(s, ttl, s.procs[p]) && IsReader(s.procs[p].phase)
    requires SlotOk(s, ttl, s.slots.Of(s.procs[p].cache))
    ensures ProcOk(StepGo(s, p, ttl), ttl, StepGo(s, p, ttl).procs[p])
  {
    var t := StepGo(s, p, ttl);
    assert t.now == s.now && t.directory == s.directory && IsReader(t.procs[p].phase);
    assert SameEra(s.slots.Of(s.procs[p].cache), t.slots.Of(s.procs[p].cache));
    assert FlushOk(t, t.procs[p]);
  }

  lemma SlotsStayOk(s: System, a: Action, ttl: int, c: CacheId)
    requires Inv(s, ttl) && Enabled(s, a)
    ensures SlotOk(Step(s, a, ttl), ttl, Step(s, a, ttl).slots.Of(c))
  {
    assert SlotOk(s, ttl, s.slots.Of(c));
    if a.Go? {
      assert ProcOk(s, ttl, s.procs[a.p]);
      if s.procs[a.p].phase.Storing? {
        StoreIsOk(s, a.p, ttl, c);
      } else {
        NoStoreIsOk(s, a.p, ttl, c);
      }
    } else {
      var t := Step(s, a, ttl);
      assert t.slots == s.slots;
    }
  }

  /** Without a store, a cell stays as it is or becomes the empty one. */
  lemma NoStoreIsOk(s: System, p: ReqId, ttl: int, c: CacheId)
    requires CanGo(s, p) && !s.procs[p].phase.Storing? && EPOCH + ttl <= s.now
    requires SlotOk(s, ttl, s.slots.Of(c))
    ensures SlotOk(StepGo(s, p, ttl), ttl, StepGo(s, p, ttl).slots.Of(c))
  {
    hide StillValid;
    var t := StepGo(s, p, ttl);
    assert t.now == s.now && t.directory == s.directory;
    assert t.slots.Of(c).cell == s.slots.Of(c).cell || t.slots.Of(c).cell == EMPTY;
  }

  lemma StoreIsOk(s: System, p: ReqId, ttl: int, c: CacheId)
    requires p in s.procs && s.procs[p].phase.Storing? && ProcOk(s, ttl, s.procs[p])
    requires SlotOk(s, ttl, s.slots.Of(c))
    ensures SlotOk(StepGo(s, p, ttl), ttl, StepGo(s, p, ttl).slots.Of(c))
  {
  }

  /** A floor moves only in the hands of the process that holds the mutex. */
  lemma FloorMovesUnderTheMutex(s: System, a: Action, ttl: int, c: CacheId)
    requires Inv(s, ttl) && Enabled(s, a)
    requires !(a.Go? && Holding(s.procs[a.p]) == Some(c))
    ensures SameEra(s.slots.Of(c), Step(s, a, ttl).slots.Of(c))
  {
  }

  /** A process that does not move keeps the mutex it holds. */
  lemma HolderStays(s: System, a: Action, ttl: int, p: ReqId)
    requires Exclusive(s) && Enabled(s, a)
    requires p in s.procs && Holding(s.procs[p]).Some? && a != Go(p)
    ensures Step(s, a, ttl).slots.Of(Holding(s.procs[p]).value).holder == Some(p)
  {
    hide StillValid;
    if a.Go? {
      assert Holding(s.procs[a.p]) != Holding(s.procs[p]);
    }
  }

  lemma MutexStaysExclusive(s: System, a: Action, ttl: int)
    requires Exclusive(s) && Enabled(s, a)
    ensures Exclusive(Step(s, a, ttl))
  {
    var t := Step(s, a, ttl);
    forall p | p in t.procs && Holding(t.procs[p]).Some?
      ensures t.slots.Of(Holding(t.procs[p]).value).holder == Some(p)
    {
      if a != Go(p) && p in s.procs && Holding(s.procs[p]).Some? {
        HolderStays(s, a, ttl, p);
      } else if a == Go(p) {
        MoverHolds(s, p, ttl);
      }
    }
  }

  lemma MoverHolds(s: System, p: ReqId, ttl: int)
    requires Exclusive(s) && CanGo(s, p)
    ensures var t := StepGo(s, p, ttl);
            p in t.procs && (Holding(t.procs[p]).Some? ==> t.slots.Of(Holding(t.procs[p]).value).holder == Some(p))
  {
    hide StillValid;
  }

  /** A process that starts, or whose fetch ends. */
  lemma StarterIsOk(s: System, a: Action, ttl: int)
    requires Inv(s, ttl) && Enabled(s, a) && (a.StartGet? || a.StartFlush? || a.FetchOk? || a.FetchErr?)
    ensures a.p in Step(s, a, ttl).procs && ProcOk(Step(s, a, ttl), ttl, Step(s, a, ttl).procs[a.p])
  {
    if a.StartGet? || a.StartFlush? {
      BeginnerIsOk(s, a, ttl);
    } else {
      assert ProcOk(s, ttl, s.procs[a.p]);
      hide Inv;
      FetcherIsOk(s, a, ttl);
    }
    hide Inv, Step, Enabled, ProcOk;
  }

  lemma BeginnerIsOk(s: System, a: Action, ttl: int)
    requires SlotOk(s, ttl, s.slots.users) && SlotOk(s, ttl, s.slots.positions) && SlotOk(s, ttl, s.slots.teams)
    requires Enabled(s, a) && (a.StartGet? || a.StartFlush?)
    ensures a.p in Step(s, a, ttl).procs && ProcOk(Step(s, a, ttl), ttl, Step(s, a, ttl).procs[a.p])
  {
    hide StepGo, CellOk, OutcomeOk;
  }

  lemma FetcherIsOk(s: System, a: Action, ttl: int)
    requires Enabled(s, a) && (a.FetchOk? || a.FetchErr?) && ProcOk(s, ttl, s.procs[a.p])
    ensures ProcOk(Step(s, a, ttl), ttl, Step(s, a, ttl).procs[a.p])
  {
    hide StepGo, CellOk;
  }

  lemma OtherIsOk(s: System, a: Action, ttl: int, p: ReqId)
    requires Inv(s, ttl) && Enabled(s, a) && p in s.procs && !Moves(a, p)
    ensures p in Step(s, a, ttl).procs && ProcOk(Step(s, a, ttl), ttl, Step(s, a, ttl).procs[p])
  {
    assert ProcOk(s, ttl, s.procs[p]);
    assert SlotOk(s, ttl, s.slots.users) && SlotOk(s, ttl, s.slots.positions) && SlotOk(s, ttl, s.slots.teams);
    StepIsLater(s, a, ttl);
    var held := Holding(s.procs[p]);
    if held.Some? {
      if a.Go? {
        assert Holding(s.procs[a.p]) != held;
      }
      FloorMovesUnderTheMutex(s, a, ttl, held.value);
    }
    assert Step(s, a, ttl).procs[p] == s.procs[p];
    hide Inv, ProcOk, Step, Later, SlotOk;
    BystanderStaysOk(s, Step(s, a, ttl), ttl, s.procs[p]);
  }

  /** The step is one of p's own. */
  predicate Moves(a: Action, p: ReqId) {
    match a
    case Tick(_) => false
    case WriteDirectory => false
    case _ => a.p == p
  }

  lemma ProcsStayOk(s: System, a: Action, ttl: int, p: ReqId)
    requires Inv(s, ttl) && Enabled(s, a)
    requires p in Step(s, a, ttl).procs
    ensures ProcOk(Step(s, a, ttl), ttl, Step(s, a, ttl).procs[p])
  {
    if !Moves(a, p) {
      OtherIsOk(s, a, ttl, p);
    } else if a.Go? {
      assert ProcOk(s, ttl, s.procs[p]);
      assert SlotOk(s, ttl, s.slots.Of(s.procs[p].cache));
      hide Inv, ProcOk, SlotOk, StepGo;
      if IsReader(s.procs[p].phase) {
        ReaderIsOk(s, p, ttl);
      } else {
        FlusherIsOk(s, p, ttl);
      }
    } else {
      StarterIsOk(s, a, ttl);
    }
  }

  lemma StepKeepsInv(s: System, a: Action, ttl: int)
    requires Inv(s, ttl) && Enabled(s, a)
    ensures Inv(Step(s, a, ttl), ttl)
  {
    var t := Step(s, a, ttl);
    SlotsStayOk(s, a, ttl, Users);
    SlotsStayOk(s, a, ttl, Positions);
    SlotsStayOk(s, a, ttl, Teams);
    MutexStaysExclusive(s, a, ttl);
    forall p | p in t.procs ensures ProcOk(t, ttl, t.procs[p]) {
      ProcsStayOk(s, a, ttl, p);
    }
    hide ProcOk, SlotOk, Exclusive;
    assert EPOCH + ttl <= t.now;
  }

  /** Every state a run reaches from a start at a time when an empty cache is already stale. */
  lemma {:induction false} RunKeepsInv(s: System, run: seq<Action>, ttl: int)
    requires Inv(s, ttl) && Legal(s, run, ttl)
    ensures Inv(After(s, run, ttl), ttl)
    decreases |run|
  {
    if run != [] {
      StepKeepsInv(s, run[0], ttl);
      RunKeepsInv(Step(s, run[0], ttl), run[1..], ttl);
    }
  }

  lemma StartIsInv(now: Time, ttl: int)
    requires EPOCH + ttl <= now
    ensures Inv(Start(now), ttl)
  {
  }

  /** A process stays what it was started as. */
  lemma {:induction false} IdentityStays(s: System, run: seq<Action>, ttl: int, p: ReqId)
    requires Legal(s, run, ttl) && p in s.procs
    ensures p in After(s, run, ttl).procs
    ensures After(s, run, ttl).procs[p].floor == s.procs[p].floor
    ensures After(s, run, ttl).procs[p].cache == s.procs[p].cache
    ensures After(s, run, ttl).procs[p].era == s.procs[p].era
    ensures IsReader(After(s, run, ttl).procs[p].phase) == IsReader(s.procs[p].phase)
    decreases |run|
  {
    if run != [] {
      OneStepKeepsIdentity(s, run[0], ttl, p);
      IdentityStays(Step(s, run[0], ttl), run[1..], ttl, p);
    }
  }

  lemma OneStepKeepsIdentity(s: System, a: Action, ttl: int, p: ReqId)
    requires Enabled(s, a) && p in s.procs
    ensures p in Step(s, a, ttl).procs
    ensures Step(s, a, ttl).procs[p].floor == s.procs[p].floor
    ensures Step(s, a, ttl).procs[p].cache == s.procs[p].cache
    ensures Step(s, a, ttl).procs[p].era == s.procs[p].era
    ensures IsReader(Step(s, a, ttl).procs[p].phase) == IsReader(s.procs[p].phase)
  {
  }

  // ----- What callers can rely on -----

  /** The version a read handed to its caller; none when it failed. */
  function Returned(o: Outcome): Option<nat> {
    match o
    case Served(v, _, _, _) => v
    case Fetched(v, _) => Some(v)
    case Failed => None
  }

  /**
   * Flush is what its comment promises: a read that starts after a Flush returned sees every write
   * made to the directory before that Flush began, whatever other readers and flushers do meanwhile.
   */
  lemma ReadAfterFlushSeesTheWrites(now: Time, before: seq<Action>, flusher: ReqId, during: seq<Action>,
                                    reader: ReqId, cache: CacheId, after: seq<Action>, ttl: int)
    requires EPOCH + ttl <= now
    requires Legal(Start(now), before, ttl)
    requires
      var s0 := After(Start(now), before, ttl);
      && Enabled(s0, StartFlush(flusher))
      && var s1 := Step(s0, StartFlush(flusher), ttl);
      && Legal(s1, during, ttl)
      && var s2 := After(s1, during, ttl);
      && flusher in s2.procs && s2.procs[flusher].phase == Flushed
      && Enabled(s2, StartGet(reader, cache))
      && var s3 := Step(s2, StartGet(reader, cache), ttl);
      && Legal(s3, after, ttl)
      && var s4 := After(s3, after, ttl);
      && reader in s4.procs && s4.procs[reader].phase.Got?
    ensures
      var s0 := After(Start(now), before, ttl);
      var s3 := Step(After(Step(s0, StartFlush(flusher), ttl), during, ttl), StartGet(reader, cache), ttl);
      var s4 := After(s3, after, ttl);
      var o := s4.procs[reader].phase.outcome;
      o == Failed || (Returned(o).Some? && s0.directory <= Returned(o).value <= s4.directory)
  {
    var s0 := After(Start(now), before, ttl);
    var s1 := Step(s0, StartFlush(flusher), ttl);
    var s2 := After(s1, during, ttl);
    var s3 := Step(s2, StartGet(reader, cache), ttl);
    StartIsInv(now, ttl);
    RunKeepsInv(Start(now), before, ttl);
    StepKeepsInv(s0, StartFlush(flusher), ttl);
    RunKeepsInv(s1, during, ttl);
    IdentityStays(s1, during, ttl, flusher);
    StepKeepsInv(s2, StartGet(reader, cache), ttl);
    RunKeepsInv(s3, after, ttl);
    IdentityStays(s3, after, ttl, reader);
    FlushedFloors(s2, ttl, flusher, cache);
    OutcomeIsOk(After(s3, after, ttl), ttl, reader);
  }

  lemma FlushedFloors(s: System, ttl: int, flusher: ReqId, c: CacheId)
    requires Inv(s, ttl) && flusher in s.procs && s.procs[flusher].phase == Flushed
    ensures s.procs[flusher].floor <= s.slots.Of(c).floor
  {
    assert ProcOk(s, ttl, s.procs[flusher]);
  }

  lemma OutcomeIsOk(s: System, ttl: int, p: ReqId)
    requires Inv(s, ttl) && p in s.procs && s.procs[p].phase.Got?
    ensures OutcomeOk(s, ttl, s.procs[p].phase.outcome, s.procs[p].floor, s.procs[p].era)
  {
    assert ProcOk(s, ttl, s.procs[p]);
  }

  /** What is served without a fetch is real data, stored less than the ttl before it was checked. */
  lemma ServedDataIsYoung(now: Time, run: seq<Action>, ttl: int, p: ReqId)
    requires EPOCH + ttl <= now && Legal(Start(now), run, ttl)
    requires
      var s := After(Start(now), run, ttl);
      p in s.procs && s.procs[p].phase.Got? && s.procs[p].phase.outcome.Served?
    ensures
      var o := After(Start(now), run, ttl).procs[p].phase.outcome;
      o.version.Some? && o.storedAt <= o.checkedAt < o.storedAt + ttl
  {
    StartIsInv(now, ttl);
    RunKeepsInv(Start(now), run, ttl);
    OutcomeIsOk(After(Start(now), run, ttl), ttl, p);
  }

  /** One fetch at a time for each cache. */
  lemma OneRefresherAtATime(now: Time, run: seq<Action>, ttl: int, p: ReqId, q: ReqId)
    requires EPOCH + ttl <= now && Legal(Start(now), run, ttl)
    requires
      var s := After(Start(now), run, ttl);
      && p in s.procs && s.procs[p].phase.Fetching?
      && q in s.procs && s.procs[q].phase.Fetching?
      && s.procs[p].cache == s.procs[q].cache
    ensures p == q
  {
    StartIsInv(now, ttl);
    RunKeepsInv(Start(now), run, ttl);
    var s := After(Start(now), run, ttl);
    assert s.slots.Of(s.procs[p].cache).holder == Some(p);
    assert s.slots.Of(s.procs[q].cache).holder == Some(q);
  }

  /** How often the cache had been invalidated when the fetch of what a read returned began. */
  function FetchedIn(o: Outcome): nat
    requires !o.Failed?
  {
    o.era
  }

  /** Whatever a read returns, its fetch began after every Invalidate of that cache that had stored its
      empty value when the read started. */
  lemma ReadAfterInvalidateIsFetchedAfterIt(
    now: Time, before: seq<Action>, reader: ReqId, cache: CacheId, after: seq<Action>, ttl: int)
    requires EPOCH + ttl <= now && Legal(Start(now), before, ttl)
    requires
      var s := After(Start(now), before, ttl);
      && Enabled(s, StartGet(reader, cache))
      && Legal(Step(s, StartGet(reader, cache), ttl), after, ttl)
      && var t := After(Step(s, StartGet(reader, cache), ttl), after, ttl);
      && reader in t.procs && t.procs[reader].phase.Got? && t.procs[reader].phase.outcome != Failed
    ensures
      var s := After(Start(now), before, ttl);
      var t := After(Step(s, StartGet(reader, cache), ttl), after, ttl);
      s.slots.Of(cache).era <= FetchedIn(t.procs[reader].phase.outcome)
  {
    var s := After(Start(now), before, ttl);
    var begun := Step(s, StartGet(reader, cache), ttl);
    StartIsInv(now, ttl);
    RunKeepsInv(Start(now), before, ttl);
    StepKeepsInv(s, StartGet(reader, cache), ttl);
    RunKeepsInv(begun, after, ttl);
    IdentityStays(begun, after, ttl, reader);
    OutcomeIsOk(After(begun, after, ttl), ttl, reader);
  }

  /** The reader's fetch succeeded. */
  predicate HasFetched(pr: Proc) {
    match pr.phase
    case Storing(_, _, _) => true
    case Unlocking(o) => o.Fetched?
    case Got(o) => o.Fetched?
    case _ => false
  }

  lemma {:induction false} FetchedStaysFetched(s: System, run: seq<Action>, ttl: int, p: ReqId)
    requires Legal(s, run, ttl) && p in s.procs && HasFetched(s.procs[p])
    ensures p in After(s, run, ttl).procs && HasFetched(After(s, run, ttl).procs[p])
    decreases |run|
  {
    if run != [] {
      FetchedStaysFetched(Step(s, run[0], ttl), run[1..], ttl, p);
    }
  }

  /** How many steps of a run change a cache in the name of p. */
  ghost function StoresBy(s: System, run: seq<Action>, ttl: int, p: ReqId): nat
    requires Legal(s, run, ttl)
    decreases |run|
  {
    if run == [] then 0
    else
      (if run[0] == Go(p) && !SameCells(s, Step(s, run[0], ttl)) then 1 else 0)
      + StoresBy(Step(s, run[0], ttl), run[1..], ttl, p)
  }

  predicate SameCells(s: System, t: System) {
    s.slots.users.cell == t.slots.users.cell && s.slots.positions.cell == t.slots.positions.cell
    && s.slots.teams.cell == t.slots.teams.cell
  }

  /** A read that fails has changed no cache, whatever happened between its fetch and its answer. */
  lemma {:induction false} FailureStoresNothing(s: System, run: seq<Action>, ttl: int, p: ReqId)
    requires Legal(s, run, ttl)
    requires p in After(s, run, ttl).procs && After(s, run, ttl).procs[p].phase == Got(Failed)
    ensures StoresBy(s, run, ttl, p) == 0
    decreases |run|
  {
    if run != [] {
      var t := Step(s, run[0], ttl);
      FailureStoresNothing(t, run[1..], ttl, p);
      if p in s.procs {
        IdentityStays(s, run, ttl, p);
      }
      if run[0] == Go(p) && s.procs[p].phase.Storing? {
        FetchedStaysFetched(t, run[1..], ttl, p);
      }
    }
  }

  /**
   * All of this needs an empty cache to look stale, which its creation time is meant to make sure of.
   * It does exactly as long as the ttl is not longer than the time since then: with a longer one, the
   * first read of a new cache is answered at once, with nothing, and no fetch.
   */
  lemma NewCacheServesNothingIff(now: Time, ttl: int, p: ReqId, c: CacheId)
    ensures
      var run := [StartGet(p, c), Go(p), Go(p)];
      && Legal(Start(now), run, ttl)
      && var t := After(Start(now), run, ttl);
      && p in t.procs
      && (t.procs[p].phase == Got(Served(None, EPOCH, now, 0)) <==> now < EPOCH + ttl)
  {
    var s := Start(now);
    var run := [StartGet(p, c), Go(p), Go(p)];
    var s1 := Step(s, run[0], ttl);
    assert run[1..] == [Go(p), Go(p)];
    var s2 := Step(s1, Go(p), ttl);
    var s3 := Step(s2, Go(p), ttl);
    assert [Go(p), Go(p)][1..] == [Go(p)];
    assert [Go(p)][1..] == [];
    assert Legal(s3, [], ttl) && Legal(s2, [Go(p)], ttl) && Legal(s1, [Go(p), Go(p)], ttl);
    assert After(s2, [Go(p)], ttl) == s3;
    assert After(s1, [Go(p), Go(p)], ttl) == s3;
  }
}
