/** Who may do what in an event, computed for one event and for all of them (lib/authz/permission.go,
    api/helpers.go). A permission mask is the set of its bits. */
module Permissions {
  import opened Base
  import opened Events

  datatype Permission =
    | ReadIncidents | WriteIncidents | ReadAllFieldReports | ReadOwnFieldReports | WriteAllFieldReports
    | WriteOwnFieldReports | ReadEventName | ReadPlaces | ReadVisits | WriteVisits

  datatype Mode = Read | Write | Report | WriteVisitsOnly

  datatype Validity = Always | Onsite

  datatype Rule = Rule(
    expression: string, mode: Mode, validity: Validity, notBefore: Option<Time>, notAfter: Option<Time>)

  /** The person asking, and when. */
  datatype Asker = Asker(
    handle: string, positions: seq<string>, teams: seq<string>, onDuty: string, onsite: bool, now: Time)

  function RolePermissions(mode: Mode): set<Permission> {
    match mode
    case Report => {ReadEventName, ReadOwnFieldReports, WriteOwnFieldReports, ReadPlaces}
    case Read => {ReadEventName, ReadIncidents, ReadOwnFieldReports, ReadAllFieldReports, ReadVisits, ReadPlaces}
    case Write =>
      {ReadEventName, ReadIncidents, WriteIncidents, ReadAllFieldReports, ReadOwnFieldReports,
       WriteAllFieldReports, WriteOwnFieldReports, ReadVisits, WriteVisits, ReadPlaces}
    case WriteVisitsOnly => {ReadEventName, ReadVisits, WriteVisits, ReadPlaces}
  }

  const PERSON := "person:"
  const POSITION := "position:"
  const ON_DUTY := "onduty:"
  const TEAM := "team:"

  /** The expression is the prefix and then one of the names. */
  predicate NamesOneOf(expression: string, prefix: string, names: seq<string>) {
    prefix <= expression && expression[|prefix|..] in names
  }

  predicate InForce(rule: Rule, who: Asker) {
    && (rule.notAfter.Some? ==> who.now <= rule.notAfter.value)
    && (rule.notBefore.Some? ==> rule.notBefore.value <= who.now)
    && (rule.validity == Always || who.onsite)
  }

  predicate PersonMatches(rule: Rule, who: Asker) {
    && InForce(rule, who)
    && (|| rule.expression == "*"
        || NamesOneOf(rule.expression, PERSON, [who.handle])
        || NamesOneOf(rule.expression, POSITION, who.positions)
        || NamesOneOf(rule.expression, ON_DUTY, [who.onDuty])
        || NamesOneOf(rule.expression, TEAM, who.teams))
  }

  /** The expression is one of the four prefixes and one of the person's names. */
  ghost predicate NamesThem(expression: string, who: Asker) {
    exists name ::
      && name in [who.handle, who.onDuty] + who.positions + who.teams
      && expression in [PERSON + name, POSITION + name, ON_DUTY + name, TEAM + name]
  }

  /** A rule matches nobody after its last moment, before its first, or off site where it is for people on
      site; and it matches by the star or by one of the four kinds of name only. */
  lemma MatchesOnlyInForce(rule: Rule, who: Asker)
    requires PersonMatches(rule, who)
    ensures rule.notAfter.Some? ==> who.now <= rule.notAfter.value
    ensures rule.notBefore.Some? ==> rule.notBefore.value <= who.now
    ensures rule.validity == Onsite ==> who.onsite
    ensures rule.expression == "*" || NamesThem(rule.expression, who)
  {
    if rule.expression != "*" {
      var prefix :=
        if NamesOneOf(rule.expression, PERSON, [who.handle]) then PERSON
        else if NamesOneOf(rule.expression, POSITION, who.positions) then POSITION
        else if NamesOneOf(rule.expression, ON_DUTY, [who.onDuty]) then ON_DUTY
        else TEAM;
      var name := rule.expression[|prefix|..];
      assert rule.expression == prefix + name;
      assert name in [who.handle, who.onDuty] + who.positions + who.teams;
    }
  }

  /** In that time and at that place the star matches everyone. */
  lemma StarMatchesIff(rule: Rule, who: Asker)
    requires rule.expression == "*"
    ensures PersonMatches(rule, who) <==>
        && !(rule.notAfter.Some? && who.now > rule.notAfter.value)
        && !(rule.notBefore.Some? && who.now < rule.notBefore.value)
        && (who.onsite || rule.validity == Always)
  {
  }

  /** No expression can be read in two ways: each prefix is tested against its own kind of name only. */
  lemma ExpressionsAreUnambiguous(rule: Rule, who: Asker, name: string)
    requires InForce(rule, who)
    ensures rule.expression == PERSON + name ==> (PersonMatches(rule, who) <==> name == who.handle)
    ensures rule.expression == POSITION + name ==> (PersonMatches(rule, who) <==> name in who.positions)
    ensures rule.expression == ON_DUTY + name ==> (PersonMatches(rule, who) <==> name == who.onDuty)
    ensures rule.expression == TEAM + name ==> (PersonMatches(rule, who) <==> name in who.teams)
  {
    PrefixesDiffer(PERSON, name);
    PrefixesDiffer(POSITION, name);
    PrefixesDiffer(ON_DUTY, name);
    PrefixesDiffer(TEAM, name);
  }

  /** An expression with one of the four prefixes has that one only, and is not the star. */
  lemma PrefixesDiffer(prefix: string, name: string)
    requires prefix == PERSON || prefix == POSITION || prefix == ON_DUTY || prefix == TEAM
    ensures var e := prefix + name;
            && e != "*" && e[|prefix|..] == name
            && (PERSON <= e <==> prefix == PERSON) && (POSITION <= e <==> prefix == POSITION)
            && (ON_DUTY <= e <==> prefix == ON_DUTY) && (TEAM <= e <==> prefix == TEAM)
  {
    var e := prefix + name;
    assert e[0] == prefix[0] && e[1] == prefix[1];
  }

  // ----- From the ids in a token to names -----

  /** What a token says about the person. */
  datatype Claims = Claims(handle: string, positions: seq<int>, teams: seq<int>, onDuty: Option<int>, onsite: bool)

  /** The directory's names for positions or for teams. */
  type Names = map<int, string>

  /** What a Go map lookup gives: the empty string for an id the directory does not have. */
  function NameOf(names: Names, id: int): string {
    if id in names then names[id] else ""
  }

  function NamesOf(names: Names, ids: seq<int>): seq<string> {
    if ids == [] then [] else NamesOf(names, ids[..|ids| - 1]) + [NameOf(names, ids[|ids| - 1])]
  }

  function OnDutyName(positions: Names, onDuty: Option<int>): string {
    if onDuty.Some? then NameOf(positions, onDuty.value) else ""
  }

  function Resolved(claims: Claims, positions: Names, teams: Names, now: Time): Asker {
    Asker(claims.handle, NamesOf(positions, claims.positions), NamesOf(teams, claims.teams),
          OnDutyName(positions, claims.onDuty), claims.onsite, now)
  }

  /** The loop over the ids. */
  method LookUpAll(names: Names, ids: seq<int>) returns (found: seq<string>)
    ensures found == NamesOf(names, ids)
  {
    found := [];
    for i := 0 to |ids|
      invariant found == NamesOf(names, ids[..i])
    {
      assert ids[..i + 1][..i] == ids[..i];
      found := found + [NameOf(names, ids[i])];
    }
    assert ids[..|ids|] == ids;
  }

  method Resolve(claims: Claims, positions: Names, teams: Names, now: Time) returns (who: Asker)
    ensures who == Resolved(claims, positions, teams, now)
  {
    var positionNames := LookUpAll(positions, claims.positions);
    var teamNames := LookUpAll(teams, claims.teams);
    var onDuty := "";
    if claims.onDuty.Some? {
      onDuty := NameOf(positions, claims.onDuty.value);
    }
    who := Asker(claims.handle, positionNames, teamNames, onDuty, claims.onsite, now);
  }

  /** One of the ids has this name in the directory. */
  ghost predicate Bears(names: Names, ids: seq<int>, name: string) {
    exists id :: id in ids && id in names && names[id] == name
  }

  /** One of the ids is not in the directory. */
  ghost predicate HasUnknown(names: Names, ids: seq<int>) {
    exists id :: id in ids && id !in names
  }

  lemma {:induction false} InNamesIff(names: Names, ids: seq<int>, name: string)
    ensures name in NamesOf(names, ids) <==> Bears(names, ids, name) || (name == "" && HasUnknown(names, ids))
  {
    if ids != [] {
      var rest, last := ids[..|ids| - 1], ids[|ids| - 1];
      InNamesIff(names, rest, name);
      assert forall id :: id in ids <==> id in rest || id == last;
      assert Bears(names, ids, name) <==> Bears(names, rest, name) || (last in names && names[last] == name);
      assert HasUnknown(names, ids) <==> HasUnknown(names, rest) || last !in names;
      hide NamesOf, Bears, HasUnknown;
      assert name in NamesOf(names, rest) + [NameOf(names, last)] <==>
          name in NamesOf(names, rest) || name == NameOf(names, last);
    }
  }

  function OnDutyIds(claims: Claims): seq<int> {
    if claims.onDuty.Some? then [claims.onDuty.value] else []
  }

  /** A rule in force that names a position or a team matches those the directory says bear the name, and
      nobody else unless the name is empty. An empty one matches everyone with an id the directory does not
      have, and, for a position on duty, everyone off duty. */
  lemma MatchesBearersIff(rule: Rule, claims: Claims, positions: Names, teams: Names, now: Time, name: string)
    requires InForce(rule, Resolved(claims, positions, teams, now))
    ensures var matches := PersonMatches(rule, Resolved(claims, positions, teams, now));
            && (rule.expression == POSITION + name ==>
                  (matches <==>
                     || Bears(positions, claims.positions, name)
                     || (name == "" && HasUnknown(positions, claims.positions))))
            && (rule.expression == TEAM + name ==>
                  (matches <==>
                     || Bears(teams, claims.teams, name)
                     || (name == "" && HasUnknown(teams, claims.teams))))
            && (rule.expression == ON_DUTY + name ==>
                  (matches <==>
                     || Bears(positions, OnDutyIds(claims), name)
                     || (name == "" && (claims.onDuty.None? || HasUnknown(positions, OnDutyIds(claims))))))
  {
    var who := Resolved(claims, positions, teams, now);
    ExpressionsAreUnambiguous(rule, who, name);
    InNamesIff(positions, claims.positions, name);
    InNamesIff(teams, claims.teams, name);
    OnDutyIff(positions, claims, name);
    hide PersonMatches, InForce, NamesOf, OnDutyName, Bears, HasUnknown;
  }

  lemma OnDutyIff(positions: Names, claims: Claims, name: string)
    ensures name == OnDutyName(positions, claims.onDuty) <==>
        || Bears(positions, OnDutyIds(claims), name)
        || (name == "" && (claims.onDuty.None? || HasUnknown(positions, OnDutyIds(claims))))
  {
    if claims.onDuty.Some? {
      var id := claims.onDuty.value;
      assert id in OnDutyIds(claims) && forall other :: other in OnDutyIds(claims) ==> other == id;
    }
  }

  /** So a rule for the position "" on duty grants its mode to everyone who is not on duty at all. */
  lemma EmptyOnDutyGrantsOffDuty(claims: Claims, positions: Names, teams: Names, now: Time, mode: Mode)
    requires claims.onDuty == None
    ensures var rule, who := Rule(ON_DUTY, mode, Always, None, None), Resolved(claims, positions, teams, now);
            && !Bears(positions, OnDutyIds(claims), "")
            && forall p :: p in RolePermissions(mode) ==> Grants([rule], who, p)
  {
    var rule, who := Rule(ON_DUTY, mode, Always, None, None), Resolved(claims, positions, teams, now);
    assert rule.expression == ON_DUTY + "";
    MatchesBearersIff(rule, claims, positions, teams, now, "");
    assert [rule][0] == rule && PersonMatches(rule, who);
    hide PersonMatches;
  }

  // ----- What rules grant -----

  /** Some rule that matches the person grants the permission. */
  ghost predicate Grants(rules: seq<Rule>, who: Asker, p: Permission) {
    exists i :: 0 <= i < |rules| && PersonMatches(rules[i], who) && p in RolePermissions(rules[i].mode)
  }

  /** Some rule of one of these modes matches the person. */
  ghost predicate HasMode(rules: seq<Rule>, who: Asker, modes: set<Mode>) {
    exists i :: 0 <= i < |rules| && PersonMatches(rules[i], who) && rules[i].mode in modes
  }

  /** A mask, bit by bit: which modes of a matching rule give it. */
  ghost predicate ByModes(mask: set<Permission>, rules: seq<Rule>, who: Asker) {
    && (ReadIncidents in mask <==> HasMode(rules, who, {Read, Write}))
    && (WriteIncidents in mask <==> HasMode(rules, who, {Write}))
    && (ReadAllFieldReports in mask <==> HasMode(rules, who, {Read, Write}))
    && (WriteAllFieldReports in mask <==> HasMode(rules, who, {Write}))
    && (ReadOwnFieldReports in mask <==> HasMode(rules, who, {Read, Write, Report}))
    && (WriteOwnFieldReports in mask <==> HasMode(rules, who, {Write, Report}))
    && (ReadVisits in mask <==> HasMode(rules, who, {Read, Write, WriteVisitsOnly}))
    && (WriteVisits in mask <==> HasMode(rules, who, {Write, WriteVisitsOnly}))
    && (ReadEventName in mask <==> HasMode(rules, who, {Read, Write, Report, WriteVisitsOnly}))
    && (ReadPlaces in mask <==> HasMode(rules, who, {Read, Write, Report, WriteVisitsOnly}))
  }

  /** What is granted to the person is granted by modes. */
  lemma GrantsByModes(rules: seq<Rule>, who: Asker, p: Permission, modes: set<Mode>)
    requires forall mode :: p in RolePermissions(mode) <==> mode in modes
    ensures Grants(rules, who, p) <==> HasMode(rules, who, modes)
  {
    hide PersonMatches, RolePermissions;
    if i :| 0 <= i < |rules| && PersonMatches(rules[i], who) && p in RolePermissions(rules[i].mode) {
      assert rules[i].mode in modes;
    }
    if i :| 0 <= i < |rules| && PersonMatches(rules[i], who) && rules[i].mode in modes {
      assert p in RolePermissions(rules[i].mode);
    }
  }

  lemma MaskIsByModes(mask: set<Permission>, rules: seq<Rule>, who: Asker)
    requires forall p :: p in mask <==> Grants(rules, who, p)
    ensures ByModes(mask, rules, who)
  {
    GrantsByModes(rules, who, ReadIncidents, {Read, Write});
    GrantsByModes(rules, who, WriteIncidents, {Write});
    GrantsByModes(rules, who, ReadAllFieldReports, {Read, Write});
    GrantsByModes(rules, who, WriteAllFieldReports, {Write});
    GrantsByModes(rules, who, ReadOwnFieldReports, {Read, Write, Report});
    GrantsByModes(rules, who, WriteOwnFieldReports, {Write, Report});
    GrantsByModes(rules, who, ReadVisits, {Read, Write, WriteVisitsOnly});
    GrantsByModes(rules, who, WriteVisits, {Write, WriteVisitsOnly});
    GrantsByModes(rules, who, ReadEventName, {Read, Write, Report, WriteVisitsOnly});
    GrantsByModes(rules, who, ReadPlaces, {Read, Write, Report, WriteVisitsOnly});
    hide Grants, HasMode;
  }

  // ----- One mask for each event -----

  type Access = map<EventId, seq<Rule>>

  /** What a Go map lookup gives: nothing for a missing key. */
  function RulesOf(access: Access, e: EventId): seq<Rule> {
    if e in access then access[e] else []
  }

  function MaskOf(masks: map<EventId, set<Permission>>, e: EventId): set<Permission> {
    if e in masks then masks[e] else {}
  }

  lemma NoRulesGrantNothing(who: Asker)
    ensures forall p :: !Grants([], who, p)
  {
  }

  /** The loop over one event's rules. */
  method MaskFromRules(rules: seq<Rule>, who: Asker) returns (mask: set<Permission>)
    ensures IsMask(mask, rules, who) && ByModes(mask, rules, who)
  {
    hide PersonMatches, RolePermissions, Grants;
    NoRulesGrantNothing(who);
    assert rules[..0] == [];
    mask := {};
    for i := 0 to |rules|
      invariant forall p :: p in mask <==> Grants(rules[..i], who, p)
    {
      GrantsOneMore(rules[..i], rules[i], who);
      assert rules[..i + 1] == rules[..i] + [rules[i]];
      if PersonMatches(rules[i], who) {
        mask := mask + RolePermissions(rules[i].mode);
      }
    }
    assert rules[..|rules|] == rules;
    MaskIsByModes(mask, rules, who);
    hide ByModes;
  }

  lemma GrantsOneMore(rules: seq<Rule>, rule: Rule, who: Asker)
    ensures forall p :: Grants(rules + [rule], who, p) <==>
              Grants(rules, who, p) || (PersonMatches(rule, who) && p in RolePermissions(rule.mode))
  {
    hide PersonMatches, RolePermissions;
    var more := rules + [rule];
    forall p ensures Grants(more, who, p) <==>
        Grants(rules, who, p) || (PersonMatches(rule, who) && p in RolePermissions(rule.mode)) {
      if i :| 0 <= i < |rules| && PersonMatches(rules[i], who) && p in RolePermissions(rules[i].mode) {
        assert more[i] == rules[i];
      }
      assert more[|rules|] == rule;
    }
  }

  ghost predicate IsMask(mask: set<Permission>, rules: seq<Rule>, who: Asker) {
    forall p :: p in mask <==> Grants(rules, who, p)
  }

  lemma MasksOfAll(access: Access, masks: map<EventId, set<Permission>>, who: Asker)
    requires masks.Keys == access.Keys && forall e :: e in masks ==> IsMask(masks[e], access[e], who)
    ensures forall e, p :: p in MaskOf(masks, e) <==> Grants(RulesOf(access, e), who, p)
  {
    assert forall p :: !Grants([], who, p);
    assert forall e :: e in masks ==> IsMask(masks[e], access[e], who);
  }

  method ManyEventPermissions(access: Access, who: Asker) returns (masks: map<EventId, set<Permission>>)
    ensures masks.Keys == access.Keys
    ensures forall e, p :: p in MaskOf(masks, e) <==> Grants(RulesOf(access, e), who, p)
    ensures forall e :: ByModes(MaskOf(masks, e), RulesOf(access, e), who)
  {
    hide IsMask, Grants, ByModes;
    masks := map[];
    var left := access.Keys;
    while left != {}
      invariant left <= access.Keys
      invariant forall e :: e in masks <==> e in access && e !in left
      invariant forall e :: e in masks ==> IsMask(masks[e], access[e], who)
      decreases left
    {
      ghost var some := SomeMember(left);
      var e :| e in left;
      var mask := MaskFromRules(access[e], who);
      masks := masks[e := mask];
      left := left - {e};
    }
    assert forall e :: e in masks <==> e in access;
    MasksOfAll(access, masks, who);
    forall e ensures ByModes(MaskOf(masks, e), RulesOf(access, e), who) {
      MaskIsByModes(MaskOf(masks, e), RulesOf(access, e), who);
    }
  }

  // ----- For one event: its own rules and its parent's, by a query -----

  /** A row of EVENT_ACCESS. */
  datatype AccessRow = AccessRow(event: EventId, rule: Rule)

  /** The rules stored for an event, in table order. */
  function OwnRules(rows: seq<AccessRow>, e: EventId): seq<Rule> {
    if rows == [] then []
    else
      var rest := OwnRules(rows[..|rows| - 1], e);
      var last := rows[|rows| - 1];
      if last.event == e then rest + [last.rule] else rest
  }

  function ParentRules(events: EventMap, rows: seq<AccessRow>, e: EventId): seq<Rule> {
    if e in events && events[e].parent.Some? then OwnRules(rows, events[e].parent.value) else []
  }

  /** EventAndParentAccess: the event's own rules unless it is a group, and its parent's. */
  function EventAndParentAccess(events: EventMap, rows: seq<AccessRow>, e: EventId): seq<Rule> {
    (if e in events && !events[e].isGroup then OwnRules(rows, e) else []) + ParentRules(events, rows, e)
  }

  method EventPermissions(events: EventMap, rows: seq<AccessRow>, e: EventId,
      who: Asker) returns (mask: set<Permission>)
    ensures forall p :: p in mask <==> Grants(EventAndParentAccess(events, rows, e), who, p)
    ensures ByModes(mask, EventAndParentAccess(events, rows, e), who)
  {
    var fetched := EventAndParentAccess(events, rows, e);
    var access := if fetched == [] then map[] else map[e := fetched];
    var masks := ManyEventPermissions(access, who);
    assert RulesOf(access, e) == fetched;
    mask := MaskOf(masks, e);
  }

  // ----- For all events: grouped by event, then merged into the children in place -----

  method GroupByEvent(rows: seq<AccessRow>) returns (access: Access)
    ensures forall e :: RulesOf(access, e) == OwnRules(rows, e)
  {
    access := map[];
    for i := 0 to |rows|
      invariant forall e :: RulesOf(access, e) == OwnRules(rows[..i], e)
    {
      assert rows[..i + 1][..i] == rows[..i];
      access := access[rows[i].event := RulesOf(access, rows[i].event) + [rows[i].rule]];
    }
    assert rows[..|rows|] == rows;
  }

  /** The rules an event has after the first k events of the list had their parent's rules appended, if it
      had `own` before. */
  function Merged(own: EventId -> seq<Rule>, events: EventMap, order: seq<EventId>, k: nat, e: EventId): seq<Rule>
    requires k <= |order|
  {
    if k == 0 then own(e)
    else
      var before := Merged(own, events, order, k - 1, e);
      var child := order[k - 1];
      if child == e && e in events && events[e].parent.Some? then
        before + Merged(own, events, order, k - 1, events[e].parent.value)
      else before
  }

  /** The inner loop: one append for each rule of the parent. */
  method AppendRules(access: Access, child: EventId, inherited: seq<Rule>) returns (merged: Access)
    ensures forall e :: RulesOf(merged, e) == RulesOf(access, e) + if e == child then inherited else []
  {
    merged := access;
    for j := 0 to |inherited|
      invariant forall e :: RulesOf(merged, e) == RulesOf(access, e) + if e == child then inherited[..j] else []
    {
      assert inherited[..j + 1] == inherited[..j] + [inherited[j]];
      merged := merged[child := RulesOf(merged, child) + [inherited[j]]];
    }
    assert inherited[..|inherited|] == inherited;
  }

  method MergeParents(access: Access, events: EventMap, order: seq<EventId>) returns (merged: Access)
    ensures forall e :: RulesOf(merged, e) == Merged(x => RulesOf(access, x), events, order, |order|, e)
  {
    merged := access;
    var own := x => RulesOf(access, x);
    for i := 0 to |order|
      invariant forall e :: RulesOf(merged, e) == Merged(own, events, order, i, e)
    {
      var child := order[i];
      if child !in events || events[child].parent == None {
        continue;
      }
      var inherited := RulesOf(merged, events[child].parent.value);
      merged := AppendRules(merged, child, inherited);
    }
  }

  method PermissionsByEvent(events: EventMap, order: seq<EventId>, rows: seq<AccessRow>, who: Asker)
    returns (masks: map<EventId, set<Permission>>)
    ensures forall e, p :: p in MaskOf(masks, e) <==>
              Grants(Merged(x => OwnRules(rows, x), events, order, |order|, e), who, p)
    ensures forall e :: ByModes(MaskOf(masks, e), Merged(x => OwnRules(rows, x), events, order, |order|, e), who)
  {
    hide ByModes;
    var access := GroupByEvent(rows);
    var merged := MergeParents(access, events, order);
    masks := ManyEventPermissions(merged, who);
    forall e ensures RulesOf(merged, e) == Merged(x => OwnRules(rows, x), events, order, |order|, e) {
      SameOwnSameMerged(x => RulesOf(access, x), x => OwnRules(rows, x), events, order, |order|, e);
    }
  }

  lemma {:induction false} SameOwnSameMerged(
    own: EventId -> seq<Rule>, own': EventId -> seq<Rule>, events: EventMap, order: seq<EventId>, k: nat, e: EventId)
    requires k <= |order| && forall x :: own(x) == own'(x)
    ensures Merged(own, events, order, k, e) == Merged(own', events, order, k, e)
  {
    if k > 0 {
      SameOwnSameMerged(own, own', events, order, k - 1, e);
      if e in events && events[e].parent.Some? {
        SameOwnSameMerged(own, own', events, order, k - 1, events[e].parent.value);
      }
    }
  }

  // ----- Where the two agree -----

  /** The list names every event once, in some order. */
  ghost predicate Lists(events: EventMap, order: seq<EventId>) {
    && (forall e :: e in events <==> e in order)
    && (forall i, j :: 0 <= i < j < |order| ==> order[i] != order[j])
  }

  function ParentOf(events: EventMap, e: EventId): Option<EventId> {
    if e in events then events[e].parent else None
  }

  /** Until its turn comes an event has its own rules only; after it, also what its parent had at its turn. */
  lemma {:induction false} MergedAtTurn(
    own: EventId -> seq<Rule>, events: EventMap, order: seq<EventId>, k: nat, i: nat)
    requires Lists(events, order) && i < |order| && k <= |order|
    ensures k <= i ==> Merged(own, events, order, k, order[i]) == own(order[i])
    ensures k > i ==> (Merged(own, events, order, k, order[i]) == own(order[i]) +
              (if ParentOf(events, order[i]).Some? then
                  Merged(own, events, order, i, ParentOf(events, order[i]).value) else []))
  {
    if k > 0 {
      MergedAtTurn(own, events, order, k - 1, i);
      assert k - 1 != i ==> order[k - 1] != order[i];
    }
  }

  /** An event without a parent keeps its own rules. */
  lemma {:induction false} TopKeepsItsRules(own: EventId -> seq<Rule>, events: EventMap, order: seq<EventId>, k: nat,
      e: EventId)
    requires k <= |order| && ParentOf(events, e) == None
    ensures Merged(own, events, order, k, e) == own(e)
  {
    if k > 0 {
      TopKeepsItsRules(own, events, order, k - 1, e);
    }
  }

  /** An event ends up with exactly its own and its parent's own rules, unless its parent had its turn
      earlier and was given some rule by its own parent then. */
  lemma InheritsAtItsTurn(own: EventId -> seq<Rule>, events: EventMap, order: seq<EventId>, i: nat)
    requires Lists(events, order) && i < |order| && ParentOf(events, order[i]).Some?
    ensures var parent := ParentOf(events, order[i]).value;
            (Merged(own, events, order, |order|, order[i]) == own(order[i]) + own(parent)) <==>
            (forall j :: 0 <= j < i && order[j] == parent && ParentOf(events, parent).Some? ==>
               Merged(own, events, order, j, ParentOf(events, parent).value) == [])
  {
    var parent := ParentOf(events, order[i]).value;
    MergedAtTurn(own, events, order, |order|, i);
    if ParentOf(events, parent).None? {
      TopKeepsItsRules(own, events, order, i, parent);
    } else {
      assert parent in order;
      var j :| 0 <= j < |order| && order[j] == parent;
      MergedAtTurn(own, events, order, i, j);
    }
  }

  /** Every event that has children is at the top: what follows when every parent is a group. */
  ghost predicate ParentsAreTop(events: EventMap) {
    forall e :: e in events && events[e].parent.Some? ==> ParentOf(events, events[e].parent.value) == None
  }

  predicate IsGroupId(events: EventMap, e: EventId) {
    e in events && events[e].isGroup
  }

  ghost predicate ParentsAreGroups(events: EventMap) {
    forall e :: e in events && events[e].parent.Some? ==> IsGroupId(events, events[e].parent.value)
  }

  lemma GroupsOnTopMeansParentsAreTop(events: EventMap)
    requires ParentsAreGroups(events) && GroupsAreTop(events)
    ensures ParentsAreTop(events)
  {
  }

  /** Then the order of the events does not matter. */
  lemma MergedIsOwnAndParents(rows: seq<AccessRow>, events: EventMap, order: seq<EventId>, e: EventId)
    requires Lists(events, order) && ParentsAreTop(events) && e in events
    ensures Merged(x => OwnRules(rows, x), events, order, |order|, e) ==
        OwnRules(rows, e) + ParentRules(events, rows, e)
  {
    var own := x => OwnRules(rows, x);
    var i :| 0 <= i < |order| && order[i] == e;
    if events[e].parent.Some? {
      InheritsAtItsTurn(own, events, order, i);
    } else {
      TopKeepsItsRules(own, events, order, |order|, e);
    }
  }

  lemma GrantsOfConcat(a: seq<Rule>, b: seq<Rule>, who: Asker, p: Permission)
    ensures Grants(a + b, who, p) <==> Grants(a, who, p) || Grants(b, who, p)
  {
    var c := a + b;
    hide PersonMatches, RolePermissions;
    if i :| 0 <= i < |a| && PersonMatches(a[i], who) && p in RolePermissions(a[i].mode) {
      assert c[i] == a[i];
    }
    if i :| 0 <= i < |b| && PersonMatches(b[i], who) && p in RolePermissions(b[i].mode) {
      assert c[|a| + i] == b[i];
    }
    if i :| 0 <= i < |c| && PersonMatches(c[i], who) && p in RolePermissions(c[i].mode) {
      assert c[i] == if i < |a| then a[i] else b[i - |a|];
    }
  }

  /**
   * When every parent is a group, both computations give an event that is no group the same mask, in
   * whatever order the events are listed: exactly what some matching rule of its own or of its parent's
   * grants. For a group the first gives nothing and the second what its own rules grant.
   */
  method BothWays(events: EventMap, order: seq<EventId>, rows: seq<AccessRow>, e: EventId, who: Asker)
    returns (one: set<Permission>, all: set<Permission>)
    requires Lists(events, order) && ParentsAreGroups(events) && GroupsAreTop(events) && e in events
    ensures !events[e].isGroup ==> one == all
    ensures forall p :: p in all <==> Grants(OwnRules(rows, e), who, p) || Grants(ParentRules(events, rows, e), who, p)
    ensures events[e].isGroup ==> one == {}
  {
    one := EventPermissions(events, rows, e, who);
    var masks := PermissionsByEvent(events, order, rows, who);
    all := MaskOf(masks, e);
    GroupsOnTopMeansParentsAreTop(events);
    MergedIsOwnAndParents(rows, events, order, e);
    forall p ensures p in all <==> Grants(OwnRules(rows, e), who, p) || Grants(ParentRules(events, rows, e), who, p) {
      GrantsOfConcat(OwnRules(rows, e), ParentRules(events, rows, e), who, p);
    }
    if events[e].isGroup {
      assert EventAndParentAccess(events, rows, e) == [];
    }
  }
}
