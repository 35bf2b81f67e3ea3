/** Events and event groups: creating, editing and deleting them (api/event.go). */
module Events {
  import opened Base

  type EventId = int

  /** A row of the EVENT table. A release time that is not set means no embargo. */
  datatype EventRow = EventRow(
    name: string, isGroup: bool, parent: Option<EventId>, mapUrl: NullText,
    campRelease: Option<Time>, artRelease: Option<Time>, mapRelease: Option<Time>, normalize: bool)

  /** What an edit asks for. Absent means "leave it alone"; a parent of 0 or less means "no parent", and a
      release time given as None "no embargo". */
  datatype EventPatch = EventPatch(
    name: Option<string>, isGroup: Option<bool>, parent: Option<EventId>, mapUrl: Option<string>,
    campRelease: Option<Option<Time>>, artRelease: Option<Option<Time>>, mapRelease: Option<Option<Time>>,
    normalize: Option<bool>)

  const NO_CHANGE: EventPatch := EventPatch(None, None, None, None, None, None, None, None)

  datatype Decision = Refused | Accepted(row: EventRow)

  function NewEvent(name: string): EventRow {
    EventRow(name, false, None, None, None, None, None, false)
  }

  predicate IsWordChar(c: char) {
    'a' <= c <= 'z' || 'A' <= c <= 'Z' || '0' <= c <= '9' || c == '_' || c == '-'
  }

  predicate AllowedName(name: string) {
    name != "" && forall i :: 0 <= i < |name| ==> IsWordChar(name[i])
  }

  const MAX_URL := 1024

  function Truncate(s: string): string {
    if |s| > MAX_URL then s[..MAX_URL] else s
  }

  /** The parent an edit leaves the event with. */
  function NewParent(stored: EventRow, p: EventPatch): Option<EventId> {
    match p.parent
    case None => stored.parent
    case Some(id) => if id > 0 then Some(id) else None
  }

  /** When an edit of event `id` is acceptable; `target` is the row of the parent it names, if that exists. */
  predicate Acceptable(id: EventId, stored: EventRow, p: EventPatch, target: Option<EventRow>) {
    var group := p.isGroup.GetOr(stored.isGroup);
    && (p.name.Some? ==> AllowedName(p.name.value))
    && (p.parent.Some? ==> p.parent.value != id)
    && (p.parent.Some? && p.parent.value > 0 ==> target.Some? && target.value.isGroup)
    && (group ==>
          && NewParent(stored, p) == None
          && p.mapUrl.GetOr("") == ""
          && p.campRelease.GetOr(None) == None
          && p.artRelease.GetOr(None) == None
          && p.mapRelease.GetOr(None) == None
          && !p.normalize.GetOr(false))
  }

  function Overlaid(stored: EventRow, p: EventPatch): EventRow {
    EventRow(
      p.name.GetOr(stored.name), p.isGroup.GetOr(stored.isGroup), NewParent(stored, p),
      match p.mapUrl
      case None => stored.mapUrl
      case Some(url) => StringToSql(Truncate(url)),
      p.campRelease.GetOr(stored.campRelease), p.artRelease.GetOr(stored.artRelease),
      p.mapRelease.GetOr(stored.mapRelease), p.normalize.GetOr(stored.normalize))
  }

  function Decide(id: EventId, stored: EventRow, p: EventPatch, target: Option<EventRow>): Decision {
    if Acceptable(id, stored, p, target) then Accepted(Overlaid(stored, p)) else Refused
  }

  /** Every column is what the edit asks for, or as stored where it asks for nothing. */
  ghost predicate AsAsked(stored: EventRow, p: EventPatch, row: EventRow) {
    && (p.name.Some? ==> row.name == p.name.value) && (p.name.None? ==> row.name == stored.name)
    && (p.isGroup.Some? ==> row.isGroup == p.isGroup.value) && (p.isGroup.None? ==> row.isGroup == stored.isGroup)
    && (p.parent.Some? ==> row.parent == if p.parent.value > 0 then p.parent else None)
    && (p.parent.None? ==> row.parent == stored.parent)
    && (p.mapUrl.Some? ==>
          && TextOf(row.mapUrl) <= p.mapUrl.value
          && |TextOf(row.mapUrl)| == if |p.mapUrl.value| > MAX_URL then MAX_URL else |p.mapUrl.value|)
    && (p.mapUrl.None? ==> row.mapUrl == stored.mapUrl)
    && (p.campRelease.Some? ==> row.campRelease == p.campRelease.value)
    && (p.campRelease.None? ==> row.campRelease == stored.campRelease)
    && (p.artRelease.Some? ==> row.artRelease == p.artRelease.value)
    && (p.artRelease.None? ==> row.artRelease == stored.artRelease)
    && (p.mapRelease.Some? ==> row.mapRelease == p.mapRelease.value)
    && (p.mapRelease.None? ==> row.mapRelease == stored.mapRelease)
    && (p.normalize.Some? ==> row.normalize == p.normalize.value)
    && (p.normalize.None? ==> row.normalize == stored.normalize)
  }

  /** An edit of the name alone is accepted exactly for a nonempty name of letters, digits, underscores and
      hyphens. */
  lemma NameIsAcceptedIff(id: EventId, stored: EventRow, name: string)
    requires !(stored.isGroup && stored.parent.Some?)
    ensures Decide(id, stored, NO_CHANGE.(name := Some(name)), None) ==
        if name != "" && forall c :: c in name ==>
             'a' <= c <= 'z' || 'A' <= c <= 'Z' || '0' <= c <= '9' || c == '_' || c == '-'
        then Accepted(stored.(name := name)) else Refused
  {
    assert (forall i :: 0 <= i < |name| ==> IsWordChar(name[i])) <==> forall c :: c in name ==> IsWordChar(c);
  }

  /** An edit is refused exactly for a name with no or with other characters; for naming as its parent itself,
      or an event that is not there or no group; or for making or leaving the event a group that has a parent
      or is given anything only events have. */
  lemma RefusedIff(id: EventId, stored: EventRow, p: EventPatch, target: Option<EventRow>)
    ensures Decide(id, stored, p, target).Refused? <==>
        || (p.name.Some? &&
              (p.name.value == "" ||
               exists c ::
                 c in p.name.value &&
                 !('a' <= c <= 'z' || 'A' <= c <= 'Z' || '0' <= c <= '9' || c == '_' || c == '-')))
        || p.parent == Some(id)
        || (p.parent.Some? && p.parent.value > 0 && (target.None? || !target.value.isGroup))
        || ((p.isGroup == Some(true) || (p.isGroup.None? && stored.isGroup)) && (
              || (if p.parent.Some? then p.parent.value > 0 else stored.parent.Some?)
              || (p.mapUrl.Some? && p.mapUrl.value != "")
              || (p.campRelease.Some? && p.campRelease.value.Some?)
              || (p.artRelease.Some? && p.artRelease.value.Some?)
              || (p.mapRelease.Some? && p.mapRelease.value.Some?)
              || p.normalize == Some(true)))
  {
    if p.name.Some? {
      var name := p.name.value;
      assert (forall i :: 0 <= i < |name| ==> IsWordChar(name[i])) <==> forall c :: c in name ==> IsWordChar(c);
    }
  }

  /** One release time: a group may only be given none. */
  method ApplyRelease(isGroup: bool, stored: Option<Time>, patch: Option<Option<Time>>)
    returns (refused: bool, release: Option<Time>)
    ensures refused <==> isGroup && patch.GetOr(None) != None
    ensures !refused ==> release == patch.GetOr(stored)
  {
    refused, release := false, stored;
    if patch.Some? {
      if isGroup && patch.value.Some? {
        return true, release;
      }
      release := patch.value;
    }
  }

  /** The update starts as the stored row; each check comes just before or after its own overwrite. */
  method BuildEventUpdate(id: EventId, stored: EventRow, p: EventPatch, target: Option<EventRow>) returns (d: Decision)
    ensures d == Decide(id, stored, p, target)
    ensures d.Accepted? ==> AsAsked(stored, p, d.row)
    ensures d.Accepted? && d.row.isGroup ==> d.row.parent == None
    ensures d.Accepted? && p.parent.Some? && p.parent.value > 0 ==>
              p.parent.value != id && target.Some? && target.value.isGroup
    ensures d.Accepted? && p.isGroup.GetOr(stored.isGroup) ==>
              && p.mapUrl in {None, Some("")} && p.normalize in {None, Some(false)}
              && p.campRelease in {None, Some(None)} && p.artRelease in {None, Some(None)}
              && p.mapRelease in {None, Some(None)}
  {
    assert Acceptable(id, stored, p, target) ==> AsAsked(stored, p, Overlaid(stored, p));
    hide AsAsked, AllowedName, Truncate, StringToSql;
    var name, isGroup, parent, mapUrl := stored.name, stored.isGroup, stored.parent, stored.mapUrl;
    var campRelease, artRelease, mapRelease := stored.campRelease, stored.artRelease, stored.mapRelease;
    var normalize, refused := stored.normalize, false;
    if p.name.Some? {
      if !AllowedName(p.name.value) {
        return Refused;
      }
      name := p.name.value;
    }
    assert name == p.name.GetOr(stored.name);
    if p.isGroup.Some? {
      isGroup := p.isGroup.value;
    }
    assert isGroup == p.isGroup.GetOr(stored.isGroup);
    if p.parent.Some? {
      if p.parent.value == id {
        return Refused;
      }
      if p.parent.value > 0 {
        if target.None? || !target.value.isGroup {
          return Refused;
        }
        parent := Some(p.parent.value);
      } else {
        parent := None;
      }
    }
    assert parent == NewParent(stored, p);
    if isGroup && parent.Some? {
      return Refused;
    }
    if p.mapUrl.Some? {
      if isGroup && p.mapUrl.value != "" {
        return Refused;
      }
      mapUrl := StringToSql(Truncate(p.mapUrl.value));
    }
    assert isGroup ==> p.mapUrl.GetOr("") == "";
    refused, campRelease := ApplyRelease(isGroup, stored.campRelease, p.campRelease);
    if refused {
      return Refused;
    }
    refused, artRelease := ApplyRelease(isGroup, stored.artRelease, p.artRelease);
    if refused {
      return Refused;
    }
    refused, mapRelease := ApplyRelease(isGroup, stored.mapRelease, p.mapRelease);
    if refused {
      return Refused;
    }
    if p.normalize.Some? {
      if isGroup && p.normalize.value {
        return Refused;
      }
      normalize := p.normalize.value;
    }
    assert normalize == p.normalize.GetOr(stored.normalize) && (isGroup ==> !p.normalize.GetOr(false));
    assert Acceptable(id, stored, p, target);
    d := Accepted(EventRow(name, isGroup, parent, mapUrl, campRelease, artRelease, mapRelease, normalize));
  }

  /** So an event with a map URL can be made a group with a map URL. */
  lemma GroupCanHoldAMapUrl()
    ensures var event := NewEvent("a").(mapUrl := Some("u"));
            var edit := NO_CHANGE.(isGroup := Some(true));
            Decide(1, event, edit, None) == Accepted(event.(isGroup := true))
  {
  }

  /** The checks look at the request only. An event keeps its map URL when it becomes a group, or already
      has one as a group, exactly when the edit does not mention the URL. */
  lemma GroupKeepsMapUrlIff(id: EventId, stored: EventRow, p: EventPatch, target: Option<EventRow>)
    requires Decide(id, stored, p, target).Accepted? && p.isGroup.GetOr(stored.isGroup)
    ensures TextOf(Decide(id, stored, p, target).row.mapUrl) != "" <==> p.mapUrl.None? && TextOf(stored.mapUrl) != ""
  {
  }

  // ----- The table, one request at a time -----

  type EventMap = map<EventId, EventRow>

  function Lookup(events: EventMap, id: EventId): Option<EventRow> {
    if id in events then Some(events[id]) else None
  }

  /** The row of the parent an edit names. */
  function Target(events: EventMap, p: EventPatch): Option<EventRow> {
    if p.parent.Some? then Lookup(events, p.parent.value) else None
  }

  /** Deleting an event, its children detached. */
  function Deleted(events: EventMap, id: EventId): EventMap {
    map e | e in events && e != id :: if events[e].parent == Some(id) then events[e].(parent := None) else events[e]
  }

  function Lower(c: char): char {
    if 'A' <= c <= 'Z' then c + 32 as char else c
  }

  /** Names as the unique key compares them: without case. */
  predicate SameName(a: string, b: string) {
    |a| == |b| && forall i :: 0 <= i < |a| ==> Lower(a[i]) == Lower(b[i])
  }

  /** Another event has the name: the unique key refuses it. */
  predicate NameTaken(events: EventMap, id: EventId, name: string) {
    exists e :: e in events && e != id && SameName(events[e].name, name)
  }

  const MAX_NAME := 128

  /** What the database says to a name: too long for the column, or another event's. */
  predicate NameRefused(events: EventMap, id: EventId, name: string) {
    |name| > MAX_NAME || NameTaken(events, id, name)
  }

  /** An insert that meets the unique key has used up its id, one that does not fit the column has not. */
  function NextAfterInsert(nextId: EventId, name: string): EventId {
    if |name| > MAX_NAME then nextId else nextId + 1
  }

  function Edited(events: EventMap, id: EventId, p: EventPatch): EventMap {
    if id !in events then events
    else match Decide(id, events[id], p, Target(events, p))
      case Refused => events
      case Accepted(row) => if NameRefused(events, id, row.name) then events else events[id := row]
  }

  predicate Creates(id: EventId, p: EventPatch) {
    id == 0 && p.name.Some? && AllowedName(p.name.value)
  }

  class EventTable {
    var events: EventMap
    var nextId: EventId

    predicate Valid()
      reads this
    {
      nextId > 0 && forall e :: e in events ==> 0 < e < nextId
    }

    constructor ()
      ensures Valid() && events == map[]
    {
      events, nextId := map[], 1;
    }

    /** `editEvents`: an id of 0 first creates an event, which stays even if the rest is then refused. */
    method EditEvents(id: EventId, p: EventPatch) returns (done: bool, created: Option<EventId>)
      requires Valid()
      modifies this
      ensures Valid()
      ensures created == if Creates(id, p) && !NameRefused(old(events), old(nextId), p.name.value) then
          Some(old(nextId)) else None
      ensures id == 0 && created.None? ==> !done && events == old(events)
      ensures created.Some? ==> events == Edited(old(events)[created.value := NewEvent(p.name.value)], created.value, p)
      ensures id != 0 ==> events == Edited(old(events), id, p)
      ensures done ==>
                var e := created.GetOr(id);
                e in events && (p.isGroup.Some? ==> events[e].isGroup == p.isGroup.value)
    {
      created := None;
      var target := id;
      if id == 0 {
        if p.name.None? || !AllowedName(p.name.value) {
          return false, None;
        }
        target := nextId;
        nextId := NextAfterInsert(nextId, p.name.value);
        if NameRefused(events, target, p.name.value) {
          return false, None;
        }
        events := events[target := NewEvent(p.name.value)];
        created := Some(target);
      }
      if target !in events {
        return false, created;
      }
      var decision := BuildEventUpdate(target, events[target], p, Target(events, p));
      if decision.Refused? || NameRefused(events, target, decision.row.name) {
        return false, created;
      }
      events := events[target := decision.row];
      done := true;
    }

    /** The end of `deleteEvent`: detach the children, then delete the row. */
    method DeleteEvent(id: EventId)
      requires Valid()
      modifies this
      ensures Valid() && events == Deleted(old(events), id)
    {
      events := map e | e in events :: if events[e].parent == Some(id) then events[e].(parent := None) else events[e];
      events := events - {id};
    }
  }

  // ----- The parent relation -----

  /** No set of events has all its parents inside itself: climbing from any event ends. */
  ghost predicate Acyclic(events: EventMap) {
    forall loop: set<EventId> :: !IsLoop(events, loop)
  }

  ghost predicate IsLoop(events: EventMap, loop: set<EventId>) {
    (exists e :: e in loop) && forall e :: e in loop ==> ParentIn(events, e, loop)
  }

  predicate ParentIn(events: EventMap, e: EventId, loop: set<EventId>) {
    e in events && events[e].parent.Some? && events[e].parent.value in loop
  }

  /** No group has a parent. */
  ghost predicate GroupsAreTop(events: EventMap) {
    forall e :: e in events ==> !(events[e].isGroup && events[e].parent.Some?)
  }

  /** The foreign key: a parent exists. */
  ghost predicate ParentsExist(events: EventMap) {
    forall e :: e in events && events[e].parent.Some? ==> events[e].parent.value in events
  }

  /** The event n steps up from e. */
  function Climb(events: EventMap, e: EventId, n: nat): Option<EventId> {
    if n == 0 then Some(e)
    else match Climb(events, e, n - 1)
      case None => None
      case Some(a) => if a in events then events[a].parent else None
  }

  ghost predicate Above(events: EventMap, ancestor: EventId, e: EventId) {
    exists n: nat :: Climb(events, e, n) == Some(ancestor)
  }

  /** An event below itself makes a loop of everything it climbs through. */
  lemma ClimbingBackIsALoop(events: EventMap, e: EventId, q: EventId, n: nat)
    requires e in events && events[e].parent == Some(q) && Climb(events, q, n) == Some(e)
    ensures !Acyclic(events)
  {
    var loop := Trail(events, q, n);
    TrailHas(events, q, n, n);
    forall a | a in loop ensures ParentIn(events, a, loop) {
      var k := OnTrail(events, q, n, a);
      if k < n {
        ClimbIsPrefix(events, q, k + 1, n);
        TrailHas(events, q, n, k + 1);
      } else {
        TrailHas(events, q, n, 0);
      }
    }
    assert IsLoop(events, loop);
  }

  /** The events among the first n steps up from q. */
  function Trail(events: EventMap, q: EventId, n: nat): set<EventId> {
    (if Climb(events, q, n).Some? then {Climb(events, q, n).value} else {}) + if n == 0 then {}
        else Trail(events, q, n - 1)
  }

  lemma {:induction false} TrailHas(events: EventMap, q: EventId, n: nat, k: nat)
    requires k <= n && Climb(events, q, k).Some?
    ensures Climb(events, q, k).value in Trail(events, q, n)
  {
    if k < n {
      TrailHas(events, q, n - 1, k);
    }
  }

  lemma {:induction false} OnTrail(events: EventMap, q: EventId, n: nat, a: EventId) returns (k: nat)
    requires a in Trail(events, q, n)
    ensures k <= n && Climb(events, q, k) == Some(a)
  {
    if Climb(events, q, n) == Some(a) {
      k := n;
    } else {
      k := OnTrail(events, q, n - 1, a);
    }
  }

  lemma {:induction false} ClimbIsPrefix(events: EventMap, q: EventId, k: nat, n: nat)
    requires k <= n && Climb(events, q, n).Some?
    ensures Climb(events, q, k).Some?
  {
    if k < n {
      ClimbIsPrefix(events, q, k, n - 1);
    }
  }

  /** The part of a loop that climbing from q reaches. */
  ghost function ReachedIn(events: EventMap, q: EventId, loop: set<EventId>): set<EventId> {
    set a | a in loop && Above(events, a, q)
  }

  /** A loop that writing e's row closed and that climbing from its new parent does not bring back to e was
      there before. */
  lemma LoopWasThere(events: EventMap, e: EventId, row: EventRow, loop: set<EventId>)
    requires IsLoop(events[e := row], loop) && e in loop && row.parent.Some?
    requires !Above(events, e, row.parent.value)
    ensures !Acyclic(events)
  {
    var q := row.parent.value;
    var part := ReachedIn(events, q, loop);
    assert ParentIn(events[e := row], e, loop);
    assert Climb(events, q, 0) == Some(q);
    forall a | a in part ensures ParentIn(events, a, part) {
      assert ParentIn(events[e := row], a, loop);
      assert a != e;
      var n: nat :| Climb(events, q, n) == Some(a);
      assert Climb(events, q, n + 1) == events[a].parent;
    }
    assert q in part;
    assert IsLoop(events, part);
  }

  /** Writing a row keeps the relation acyclic exactly when the event is not its new parent, nor above it. */
  lemma WriteKeepsAcyclicIff(events: EventMap, e: EventId, row: EventRow)
    requires Acyclic(events) && e in events
    ensures Acyclic(events[e := row]) <==> row.parent.None? || !Above(events, e, row.parent.value)
  {
    var after := events[e := row];
    if row.parent.Some? && Above(events, e, row.parent.value) {
      var q := row.parent.value;
      var n := FirstMeeting(events, q, e);
      SameClimb(events, after, e, q, n);
      ClimbingBackIsALoop(after, e, q, n);
    } else {
      forall loop: set<EventId> ensures !IsLoop(after, loop) {
        if IsLoop(after, loop) {
          OldLoop(events, e, row, loop);
        }
      }
    }
  }

  lemma OldLoop(events: EventMap, e: EventId, row: EventRow, loop: set<EventId>)
    requires IsLoop(events[e := row], loop)
    requires row.parent.None? || !Above(events, e, row.parent.value)
    ensures !Acyclic(events)
  {
    if e in loop {
      assert ParentIn(events[e := row], e, loop);
      LoopWasThere(events, e, row, loop);
    } else {
      forall a | a in loop ensures ParentIn(events, a, loop) {
        assert ParentIn(events[e := row], a, loop);
      }
      assert IsLoop(events, loop);
    }
  }

  /** The first time climbing from q meets e. */
  lemma FirstMeeting(events: EventMap, q: EventId, e: EventId) returns (n: nat)
    requires Above(events, e, q)
    ensures Climb(events, q, n) == Some(e)
    ensures forall k :: 0 <= k < n ==> Climb(events, q, k) != Some(e)
  {
    var m: nat :| Climb(events, q, m) == Some(e);
    n := 0;
    while Climb(events, q, n) != Some(e)
      invariant n <= m && forall k :: 0 <= k < n ==> Climb(events, q, k) != Some(e)
      decreases m - n
    {
      n := n + 1;
    }
  }

  lemma {:induction false} SameClimb(events: EventMap, after: EventMap, e: EventId, q: EventId, n: nat)
    requires forall a :: a != e ==> (a in events <==> a in after) && (a in events ==> after[a] == events[a])
    requires forall k :: 0 <= k < n ==> Climb(events, q, k) != Some(e)
    ensures Climb(after, q, n) == Climb(events, q, n)
  {
    if n > 0 {
      SameClimb(events, after, e, q, n - 1);
    }
  }

  ghost predicate Tree(events: EventMap) {
    Acyclic(events) && GroupsAreTop(events) && ParentsExist(events)
  }

  /** No two events have the same name. */
  ghost predicate NamesDiffer(events: EventMap) {
    forall d, e :: d in events && e in events && d != e ==> !SameName(events[d].name, events[e].name)
  }

  /** Every name fits its column, and no two events have the same. */
  ghost predicate NamesOk(events: EventMap) {
    NamesDiffer(events) && forall e :: e in events ==> |events[e].name| <= MAX_NAME
  }

  /** A row whose name is not refused keeps names different. */
  lemma WriteKeepsNames(events: EventMap, id: EventId, row: EventRow)
    requires NamesOk(events) && !NameRefused(events, id, row.name)
    ensures NamesOk(events[id := row])
  {
    var after := events[id := row];
    forall d, e | d in after && e in after && d != e ensures !SameName(after[d].name, after[e].name) {
      if d == id {
        SameNameIsSymmetric(row.name, after[e].name);
      }
    }
  }

  lemma SameNameIsSymmetric(a: string, b: string)
    ensures SameName(a, b) == SameName(b, a)
  {
  }

  /** Nothing is above an event without a parent. */
  lemma {:induction false} TopClimbsNowhere(events: EventMap, q: EventId, n: nat)
    requires q in events && events[q].parent.None?
    ensures Climb(events, q, n) == if n == 0 then Some(q) else None
  {
    if n > 0 {
      TopClimbsNowhere(events, q, n - 1);
    }
  }

  lemma EditKeepsTree(events: EventMap, id: EventId, p: EventPatch)
    requires Tree(events)
    ensures Tree(Edited(events, id, p))
  {
    if id in events && Decide(id, events[id], p, Target(events, p)).Accepted? {
      var row := Overlaid(events[id], p);
      if row.parent.Some? && Above(events, id, row.parent.value) {
        var q := row.parent.value;
        var n: nat :| Climb(events, q, n) == Some(id);
        if p.parent.Some? {
          TopClimbsNowhere(events, q, n);
        } else {
          ClimbingBackIsALoop(events, id, q, n);
        }
        assert false;
      }
      WriteKeepsAcyclicIff(events, id, row);
    }
  }

  lemma EditKeepsNames(events: EventMap, id: EventId, p: EventPatch)
    requires NamesOk(events)
    ensures NamesOk(Edited(events, id, p))
  {
    if id in events && Decide(id, events[id], p, Target(events, p)).Accepted? {
      var row := Overlaid(events[id], p);
      if !NameRefused(events, id, row.name) {
        WriteKeepsNames(events, id, row);
      }
    }
  }

  lemma CreateKeepsAcyclic(events: EventMap, id: EventId, name: string)
    requires Acyclic(events) && id !in events
    ensures Acyclic(events[id := NewEvent(name)])
  {
    var after := events[id := NewEvent(name)];
    forall loop: set<EventId> ensures !IsLoop(after, loop) {
      if IsLoop(after, loop) {
        OldLoop(events, id, NewEvent(name), loop);
      }
    }
  }

  lemma DeleteKeepsAcyclic(events: EventMap, id: EventId)
    requires Acyclic(events)
    ensures Acyclic(Deleted(events, id))
  {
    var after := Deleted(events, id);
    forall loop: set<EventId> ensures !IsLoop(after, loop) {
      if IsLoop(after, loop) {
        LoopSurvivesDeletion(events, id, loop);
      }
    }
  }

  lemma LoopSurvivesDeletion(events: EventMap, id: EventId, loop: set<EventId>)
    requires IsLoop(Deleted(events, id), loop)
    ensures IsLoop(events, loop)
  {
    forall a | a in loop ensures ParentIn(events, a, loop) {
      assert ParentIn(Deleted(events, id), a, loop);
    }
  }

  lemma NoEventsNoLoop(loop: set<EventId>)
    ensures !IsLoop(map[], loop)
  {
    if e :| e in loop {
      assert !ParentIn(map[], e, loop);
    }
  }

  // ----- Runs of whole requests -----

  datatype Op = Create(p: EventPatch) | Edit(id: EventId, p: EventPatch) | Delete(id: EventId)

  datatype Table = Table(events: EventMap, nextId: EventId)

  function Apply(t: Table, op: Op): Table {
    match op
    case Create(p) =>
      if !Creates(0, p) then t
      else if NameRefused(t.events, t.nextId, p.name.value) then
        Table(t.events, NextAfterInsert(t.nextId, p.name.value))
      else
        Table(Edited(t.events[t.nextId := NewEvent(p.name.value)], t.nextId, p), t.nextId + 1)
    case Edit(id, p) => Table(Edited(t.events, id, p), t.nextId)
    case Delete(id) => Table(Deleted(t.events, id), t.nextId)
  }

  function ApplyAll(t: Table, ops: seq<Op>): Table {
    if ops == [] then t else Apply(ApplyAll(t, ops[..|ops| - 1]), ops[|ops| - 1])
  }

  const EMPTY: Table := Table(map[], 1)

  /** In every run of requests one after another, no group has a parent, parents exist, climbing from any
      event ends, and names differ and fit their column. */
  lemma {:induction false} SerialRunsKeepATree(ops: seq<Op>)
    ensures Tree(ApplyAll(EMPTY, ops).events)
    ensures NamesOk(ApplyAll(EMPTY, ops).events)
    ensures forall e :: e in ApplyAll(EMPTY, ops).events ==> e < ApplyAll(EMPTY, ops).nextId
  {
    if ops == [] {
      forall loop: set<EventId> ensures !IsLoop(map[], loop) {
        NoEventsNoLoop(loop);
      }
    } else {
      SerialRunsKeepATree(ops[..|ops| - 1]);
      var t := ApplyAll(EMPTY, ops[..|ops| - 1]);
      match ops[|ops| - 1]
      case Create(p) =>
        if Creates(0, p) && !NameRefused(t.events, t.nextId, p.name.value) {
          WriteKeepsNames(t.events, t.nextId, NewEvent(p.name.value));
          EditKeepsNames(t.events[t.nextId := NewEvent(p.name.value)], t.nextId, p);
          CreateKeepsAcyclic(t.events, t.nextId, p.name.value);
          EditKeepsTree(t.events[t.nextId := NewEvent(p.name.value)], t.nextId, p);
        }
      case Edit(id, p) =>
        EditKeepsTree(t.events, id, p);
        EditKeepsNames(t.events, id, p);
      case Delete(id) => DeleteKeepsAcyclic(t.events, id);
    }
  }
}
