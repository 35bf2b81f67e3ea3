/**
 * Event edits that run at the same time. An edit reads the event, reads the parent it names, and writes
 * the whole row, each in a statement of its own and with no transaction around them (api/event.go).
 */
module EventRaces {
  import opened Base
  import opened Events

  datatype Phase =
    | Reading
    | Checking(stored: EventRow)    // the stored row is read, the parent is not
    | Writing(row: EventRow)        // every check is passed
    | Over

  datatype Editor = Editor(id: EventId, patch: EventPatch, phase: Phase)

  datatype System = System(events: EventMap, nextId: EventId, editors: map<ReqId, Editor>)

  datatype Action =
    | StartEdit(c: ReqId, id: EventId, patch: EventPatch)
    | StartCreate(c: ReqId, patch: EventPatch)
    | Go(c: ReqId)
    | DeleteOne(id: EventId)

  predicate Enabled(s: System, a: Action) {
    match a
    case StartEdit(c, id, _) => c !in s.editors && id != 0
    case StartCreate(c, patch) => c !in s.editors && Creates(0, patch)
    case Go(c) => c in s.editors && !s.editors[c].phase.Over?
    case DeleteOne(_) => true
  }

  function At(s: System, c: ReqId, phase: Phase): System
    requires c in s.editors
  {
    s.(editors := s.editors[c := s.editors[c].(phase := phase)])
  }

  /** The UPDATE finds its row, its parent and a free name; or it writes nothing. */
  predicate CanWrite(events: EventMap, id: EventId, row: EventRow) {
    id in events && (row.parent.Some? ==> row.parent.value in events) && !NameRefused(events, id, row.name)
  }

  function Written(events: EventMap, id: EventId, row: EventRow): EventMap {
    if CanWrite(events, id, row) then events[id := row] else events
  }

  function StepGo(s: System, c: ReqId): System
    requires Enabled(s, Go(c))
  {
    var e := s.editors[c];
    match e.phase
    case Reading => At(s, c, if e.id in s.events then Checking(s.events[e.id]) else Over)
    case Checking(stored) =>
      (match Decide(e.id, stored, e.patch, Target(s.events, e.patch))
       case Refused => At(s, c, Over)
       case Accepted(row) => At(s, c, Writing(row)))
    case Writing(row) => At(s, c, Over).(events := Written(s.events, e.id, row))
    case Over => s
  }

  function Step(s: System, a: Action): System
    requires Enabled(s, a)
  {
    match a
    case StartEdit(c, id, patch) => s.(editors := s.editors[c := Editor(id, patch, Reading)])
    case StartCreate(c, patch) =>
      if NameRefused(s.events, s.nextId, patch.name.value) then
        System(s.events, NextAfterInsert(s.nextId, patch.name.value), s.editors[c := Editor(s.nextId, patch, Over)])
      else System(s.events[s.nextId := NewEvent(patch.name.value)], s.nextId + 1,
             s.editors[c := Editor(s.nextId, patch, Reading)])
    case Go(c) => StepGo(s, c)
    case DeleteOne(id) => s.(events := Deleted(s.events, id))
  }

  ghost predicate Legal(s: System, run: seq<Action>)
    decreases |run|
  {
    run == [] || (Enabled(s, run[0]) && Legal(Step(s, run[0]), run[1..]))
  }

  ghost function After(s: System, run: seq<Action>): System
    requires Legal(s, run)
    decreases |run|
  {
    if run == [] then s else After(Step(s, run[0]), run[1..])
  }

  const START: System := System(map[], 1, map[])

  predicate TopRow(row: EventRow) {
    !(row.isGroup && row.parent.Some?)
  }

  ghost predicate Inv(s: System) {
    && GroupsAreTop(s.events)
    && ParentsExist(s.events)
    && NamesOk(s.events)
    && (forall e :: e in s.events ==> e < s.nextId)
    && (forall c :: c in s.editors && s.editors[c].phase.Writing? ==> TopRow(s.editors[c].phase.row))
  }

  lemma NamesStayDifferent(s: System, a: Action)
    requires NamesOk(s.events) && Enabled(s, a)
    ensures NamesOk(Step(s, a).events)
  {
    match a
    case StartEdit(_, _, _) =>
    case StartCreate(_, p) =>
      if !NameRefused(s.events, s.nextId, p.name.value) {
        WriteKeepsNames(s.events, s.nextId, NewEvent(p.name.value));
      }
    case DeleteOne(id) =>
    case Go(c) =>
      var e := s.editors[c];
      if e.phase.Writing? && CanWrite(s.events, e.id, e.phase.row) {
        WriteKeepsNames(s.events, e.id, e.phase.row);
      }
  }

  /** What a write puts into the table was checked in one piece: a group without a parent. */
  lemma RowsStayChecked(s: System, a: Action)
    requires Inv(s) && Enabled(s, a)
    ensures GroupsAreTop(Step(s, a).events)
    ensures var t := Step(s, a);
            forall c :: c in t.editors && t.editors[c].phase.Writing? ==> TopRow(t.editors[c].phase.row)
  {
    hide NamesOk, NameRefused, ParentsExist;
    var t := Step(s, a);
    assert forall e :: e in t.events ==> (e in s.events && t.events[e] == s.events[e]) || TopRow(t.events[e]);
  }

  lemma ParentsStay(s: System, a: Action)
    requires Inv(s) && Enabled(s, a)
    ensures ParentsExist(Step(s, a).events)
    ensures forall e :: e in Step(s, a).events ==> e < Step(s, a).nextId
  {
    hide NamesOk, NameRefused, GroupsAreTop, Decide;
    var t := Step(s, a);
    forall e | e in t.events && t.events[e].parent.Some? ensures t.events[e].parent.value in t.events {
      if a.DeleteOne? {
        assert s.events[e].parent == t.events[e].parent;
      }
    }
  }

  lemma StepKeepsInv(s: System, a: Action)
    requires Inv(s) && Enabled(s, a)
    ensures Inv(Step(s, a))
  {
    NamesStayDifferent(s, a);
    RowsStayChecked(s, a);
    ParentsStay(s, a);
    hide Step, Enabled, NamesOk, GroupsAreTop, ParentsExist;
  }

  lemma {:induction false} RunKeepsInv(s: System, run: seq<Action>)
    requires Inv(s) && Legal(s, run)
    ensures Inv(After(s, run))
    decreases |run|
  {
    if run != [] {
      StepKeepsInv(s, run[0]);
      RunKeepsInv(Step(s, run[0]), run[1..]);
    }
  }

  /** However edits, creations and deletions interleave, no group has a parent: each write carries both
      columns, and they were checked together. Parents exist, thanks to the foreign key. */
  lemma NoGroupEverHasAParent(run: seq<Action>)
    requires Legal(START, run)
    ensures GroupsAreTop(After(START, run).events) && ParentsExist(After(START, run).events)
    ensures NamesOk(After(START, run).events)
  {
    RunKeepsInv(START, run);
  }

  /** One step keeps the parent relation free of cycles exactly when it is not a write that puts an event
      below itself; the guard that was passed says nothing about the moment of the write. */
  lemma StepKeepsAcyclicIff(s: System, a: Action)
    requires Inv(s) && Acyclic(s.events) && Enabled(s, a)
    ensures
      var writes := a.Go? && s.editors[a.c].phase.Writing?;
      Acyclic(Step(s, a).events) <==>
        !(writes && var id, row := s.editors[a.c].id, s.editors[a.c].phase.row;
          && CanWrite(s.events, id, row) && row.parent.Some?
          && Above(s.events, id, row.parent.value))
  {
    match a
    case StartEdit(_, _, _) =>
    case StartCreate(_, p) =>
      if !NameRefused(s.events, s.nextId, p.name.value) {
        CreateKeepsAcyclic(s.events, s.nextId, p.name.value);
      }
    case DeleteOne(id) => DeleteKeepsAcyclic(s.events, id);
    case Go(c) =>
      if s.editors[c].phase.Writing? && CanWrite(s.events, s.editors[c].id, s.editors[c].phase.row) {
        WriteKeepsAcyclicIff(s.events, s.editors[c].id, s.editors[c].phase.row);
      }
  }

  /** An edit that is written while its target is still a group closes no cycle. */
  lemma WriteUnderAGroupIsSafe(events: EventMap, id: EventId, row: EventRow)
    requires Tree(events) && id in events
    requires row.parent.Some? && row.parent.value != id && row.parent.value in events &&
        events[row.parent.value].isGroup
    ensures Acyclic(events[id := row])
  {
    var q := row.parent.value;
    if Above(events, id, q) {
      var n: nat :| Climb(events, q, n) == Some(id);
      TopClimbsNowhere(events, q, n);
      assert false;
    }
    WriteKeepsAcyclicIff(events, id, row);
  }

  // ----- Creations and deletions -----

  /** A deletion takes the event away and its children's parent, nothing else, whoever edits meanwhile. */
  lemma DeletionDetaches(s: System, id: EventId)
    ensures var t := Step(s, DeleteOne(id));
            && t == s.(events := t.events) && t.events.Keys == s.events.Keys - {id}
            && forall e :: e in t.events ==>
                 && t.events[e].parent == (if s.events[e].parent == Some(id) then None else s.events[e].parent)
                 && t.events[e].(parent := None) == s.events[e].(parent := None)
  {
  }

  /** A creation adds a plain event under the next id, which its edit then goes on to, unless the name is too
      long or another event has it but for case: then it adds nothing and is over. */
  lemma CreationAdds(s: System, c: ReqId, patch: EventPatch)
    requires Enabled(s, StartCreate(c, patch)) && s.nextId !in s.events
    ensures var t, name := Step(s, StartCreate(c, patch)), patch.name.value;
            if |name| > 128 || exists e :: e in s.events && SameName(s.events[e].name, name)
            then t.events == s.events && t.editors[c].phase.Over?
            else
              && t.events.Keys == s.events.Keys + {s.nextId} && t.nextId == s.nextId + 1
              && (forall e :: e in s.events ==> t.events[e] == s.events[e])
              && t.events[s.nextId].name == name && !t.events[s.nextId].isGroup && t.events[s.nextId].parent == None
              && t.editors[c] == Editor(s.nextId, patch, Reading)
  {
    hide SameName;
  }

  // ----- An edit alone -----

  /** The statements of an edit: as many as its checks let it get to. */
  function Alone(s: System, c: ReqId, id: EventId, patch: EventPatch): seq<Action> {
    [StartEdit(c, id, patch)] + (
      if id !in s.events then [Go(c)]
      else if Decide(id, s.events[id], patch, Target(s.events, patch)).Refused? then [Go(c)] + [Go(c)]
      else [Go(c)] + ([Go(c)] + [Go(c)]))
  }

  lemma Last(s: System, a: Action)
    requires Enabled(s, a)
    ensures Legal(s, [a]) && After(s, [a]) == Step(s, a)
  {
    assert [a][1..] == [];
  }

  /** An edit that meets no other request does what the serial edit does: it writes the row its checks accept,
      if the name is not refused, and nothing else. */
  lemma EditAloneIsSerial(s: System, c: ReqId, id: EventId, patch: EventPatch)
    requires c !in s.editors && id != 0 && ParentsExist(s.events)
    ensures Legal(s, Alone(s, c, id, patch)) && After(s, Alone(s, c, id, patch)).events == Edited(s.events, id, patch)
    ensures c in After(s, Alone(s, c, id, patch)).editors && After(s, Alone(s, c, id, patch)).editors[c].phase.Over?
  {
    var s1 := Step(s, StartEdit(c, id, patch));
    var s2 := Step(s1, Go(c));
    if id !in s.events {
      Last(s1, Go(c));
      OneMore(s, StartEdit(c, id, patch), [Go(c)]);
    } else {
      var s3 := Step(s2, Go(c));
      var decision := Decide(id, s.events[id], patch, Target(s.events, patch));
      hide Decide, NameRefused, Legal, After;
      if decision.Refused? {
        Last(s2, Go(c));
        OneMore(s1, Go(c), [Go(c)]);
        OneMore(s, StartEdit(c, id, patch), [Go(c)] + [Go(c)]);
      } else {
        ParentIsThere(s.events, id, patch);
        Last(s3, Go(c));
        OneMore(s2, Go(c), [Go(c)]);
        OneMore(s1, Go(c), [Go(c)] + [Go(c)]);
        OneMore(s, StartEdit(c, id, patch), [Go(c)] + ([Go(c)] + [Go(c)]));
      }
    }
  }

  lemma ParentIsThere(events: EventMap, id: EventId, patch: EventPatch)
    requires id in events && ParentsExist(events)
    requires Decide(id, events[id], patch, Target(events, patch)).Accepted?
    ensures var row := Decide(id, events[id], patch, Target(events, patch)).row;
            row.parent.Some? ==> row.parent.value in events
  {
  }

  // ----- The race that closes a cycle -----

  function Group(name: string): EventRow {
    NewEvent(name).(isGroup := true)
  }

  /** Stop being a group and go below `parent`. */
  function Demote(parent: EventId): EventPatch {
    NO_CHANGE.(isGroup := Some(false), parent := Some(parent))
  }

  /** Two groups, and one edit of each, at these points. */
  function Race(a: EventRow, b: EventRow, first: Phase, second: Phase): System {
    System(map[1 := a, 2 := b], 3, map[1 := Editor(1, Demote(2), first), 2 := Editor(2, Demote(1), second)])
  }

  const TWO_GROUPS: System := System(map[1 := Group("a"), 2 := Group("b")], 3, map[])

  lemma FirstMoves(a: EventRow, b: EventRow, first: Phase, second: Phase, next: Phase)
    ensures At(Race(a, b, first, second), 1, next) == Race(a, b, next, second)
    ensures At(Race(a, b, first, second), 2, next) == Race(a, b, first, next)
  {
  }

  lemma BothRead()
    ensures var s := Race(Group("a"), Group("b"), Reading, Reading);
            && Legal(s, [Go(1), Go(2)])
            && After(s, [Go(1), Go(2)]) == Race(Group("a"), Group("b"), Checking(Group("a")), Checking(Group("b")))
  {
    var a, b := Group("a"), Group("b");
    FirstMoves(a, b, Reading, Reading, Checking(a));
    FirstMoves(a, b, Checking(a), Reading, Checking(b));
    OneMore(Race(a, b, Checking(a), Reading), Go(2), []);
    OneMore(Race(a, b, Reading, Reading), Go(1), [Go(2)]);
  }

  function Child(name: string, parent: EventId): EventRow {
    NewEvent(name).(parent := Some(parent))
  }

  lemma DemotionIsAccepted(id: EventId, name: string, other: string, parent: EventId)
    requires parent > 0 && parent != id
    ensures Decide(id, Group(name), Demote(parent), Some(Group(other))) == Accepted(Child(name, parent))
  {
  }

  lemma BothPassTheirChecks()
    ensures var s := Race(Group("a"), Group("b"), Checking(Group("a")), Checking(Group("b")));
            && Legal(s, [Go(1), Go(2)])
            && After(s, [Go(1), Go(2)]) == Race(Group("a"), Group("b"), Writing(Child("a", 2)), Writing(Child("b", 1)))
  {
    var a, b := Group("a"), Group("b");
    DemotionIsAccepted(1, "a", "b", 2);
    DemotionIsAccepted(2, "b", "a", 1);
    hide Decide, Child, Group;
    FirstMoves(a, b, Checking(a), Checking(b), Writing(Child("a", 2)));
    FirstMoves(a, b, Writing(Child("a", 2)), Checking(b), Writing(Child("b", 1)));
    OneMore(Race(a, b, Writing(Child("a", 2)), Checking(b)), Go(2), []);
    OneMore(Race(a, b, Checking(a), Checking(b)), Go(1), [Go(2)]);
  }

  lemma NamesAreFree(events: EventMap)
    requires events.Keys == {1, 2} && events[1].name == "a" && events[2].name == "b"
    ensures !NameRefused(events, 1, "a") && !NameRefused(events, 2, "b")
  {
    assert Lower("a"[0]) != Lower("b"[0]);
    assert !SameName("a", "b") && !SameName("b", "a");
  }

  lemma BothWrite()
    ensures var s := Race(Group("a"), Group("b"), Writing(Child("a", 2)), Writing(Child("b", 1)));
            && Legal(s, [Go(1), Go(2)])
            && After(s, [Go(1), Go(2)]).events == map[1 := Child("a", 2), 2 := Child("b", 1)]
  {
    var s := Race(Group("a"), Group("b"), Writing(Child("a", 2)), Writing(Child("b", 1)));
    NamesAreFree(s.events);
    var t := Step(s, Go(1));
    NamesAreFree(t.events);
    var u := Step(t, Go(2));
    assert t.events == map[1 := Child("a", 2), 2 := Group("b")];
    assert u.events == map[1 := Child("a", 2), 2 := Child("b", 1)];
    OneMore(t, Go(2), []);
    OneMore(s, Go(1), [Go(2)]);
  }

  /** Two groups can be made each other's child: both edits read before either writes. */
  lemma RacingEditsCloseACycle()
    ensures
      var run := [StartEdit(1, 1, Demote(2)), StartEdit(2, 2, Demote(1))] + ([Go(1), Go(2)] + ([Go(1),
          Go(2)] + [Go(1), Go(2)]));
      && Tree(TWO_GROUPS.events)
      && Legal(TWO_GROUPS, run)
      && !Acyclic(After(TWO_GROUPS, run).events)
  {
    TwoGroupsAreATree();
    BothStart();
    BothRead();
    BothPassTheirChecks();
    BothWrite();
    hide Race, Child, Group, Demote, Step, Tree, Acyclic;
    var a, b := Group("a"), Group("b");
    var go := [Go(1), Go(2)];
    Then(Race(a, b, Checking(a), Checking(b)), go, go);
    Then(Race(a, b, Reading, Reading), go, go + go);
    Then(TWO_GROUPS, [StartEdit(1, 1, Demote(2)), StartEdit(2, 2, Demote(1))], go + (go + go));
    EachBelowTheOther();
  }

  lemma EachBelowTheOther()
    ensures !Acyclic(map[1 := Child("a", 2), 2 := Child("b", 1)])
  {
    var events := map[1 := Child("a", 2), 2 := Child("b", 1)];
    assert ParentIn(events, 1, {1, 2}) && ParentIn(events, 2, {1, 2});
    assert IsLoop(events, {1, 2});
  }

  lemma BothStart()
    ensures var starts := [StartEdit(1, 1, Demote(2)), StartEdit(2, 2, Demote(1))];
            Legal(TWO_GROUPS, starts) && After(TWO_GROUPS, starts) == Race(Group("a"), Group("b"), Reading, Reading)
  {
    var t := Step(TWO_GROUPS, StartEdit(1, 1, Demote(2)));
    assert Step(t, StartEdit(2, 2, Demote(1))) == Race(Group("a"), Group("b"), Reading, Reading);
    OneMore(t, StartEdit(2, 2, Demote(1)), []);
    OneMore(TWO_GROUPS, StartEdit(1, 1, Demote(2)), [StartEdit(2, 2, Demote(1))]);
  }

  lemma TwoGroupsAreATree()
    ensures Tree(TWO_GROUPS.events)
  {
    forall loop: set<EventId> ensures !IsLoop(TWO_GROUPS.events, loop) {
      if e :| e in loop {
        assert !ParentIn(TWO_GROUPS.events, e, loop);
      }
    }
  }

  lemma OneMore(s: System, a: Action, rest: seq<Action>)
    requires Enabled(s, a) && Legal(Step(s, a), rest)
    ensures Legal(s, [a] + rest) && After(s, [a] + rest) == After(Step(s, a), rest)
  {
    assert ([a] + rest)[1..] == rest;
  }

  lemma {:induction false} Then(s: System, run: seq<Action>, more: seq<Action>)
    requires Legal(s, run) && Legal(After(s, run), more)
    ensures Legal(s, run + more) && After(s, run + more) == After(After(s, run), more)
    decreases |run|
  {
    if run == [] {
      assert run + more == more;
    } else {
      Then(Step(s, run[0]), run[1..], more);
      assert (run + more)[1..] == run[1..] + more;
    }
  }
}
