/** What events inherit from beyond their parents when the rules are merged in place (api/helpers.go). */
module PermissionChains {
  import opened Base
  import opened Events
  import opened Permissions

  // ----- Which rules reach an event -----

  /** Events of the list, each the parent of the one before and listed before it; the last has a parent. */
  ghost predicate Chain(events: EventMap, order: seq<EventId>, chain: seq<nat>) {
    && chain != []
    && (forall i :: 0 <= i < |chain| ==> chain[i] < |order| && ParentOf(events, order[chain[i]]).Some?)
    && (forall i :: 0 <= i < |chain| - 1 ==>
          chain[i + 1] < chain[i] && ParentOf(events, order[chain[i]]) == Some(order[chain[i + 1]]))
  }

  /** The event above the whole chain. */
  function Top(events: EventMap, order: seq<EventId>, chain: seq<nat>): EventId
    requires chain != [] && chain[|chain| - 1] < |order|
    requires ParentOf(events, order[chain[|chain| - 1]]).Some?
  {
    ParentOf(events, order[chain[|chain| - 1]]).value
  }

  /** A chain that begins with the event e among the first k of the list. */
  ghost predicate ChainFrom(events: EventMap, order: seq<EventId>, k: nat, e: EventId, chain: seq<nat>) {
    Chain(events, order, chain) && chain[0] < k && order[chain[0]] == e
  }

  ghost predicate Has(rules: seq<Rule>, ok: Rule -> bool) {
    exists i :: 0 <= i < |rules| && ok(rules[i])
  }

  /** An event at the top of a chain has such a rule of its own. */
  ghost predicate TopHas(own: EventId -> seq<Rule>, events: EventMap, order: seq<EventId>, k: nat, e: EventId,
      ok: Rule -> bool) {
    exists chain :: ChainFrom(events, order, k, e, chain) && Has(own(Top(events, order, chain)), ok)
  }

  lemma HasOfConcat(a: seq<Rule>, b: seq<Rule>, ok: Rule -> bool)
    ensures Has(a + b, ok) <==> Has(a, ok) || Has(b, ok)
  {
    var c := a + b;
    if i :| 0 <= i < |a| && ok(a[i]) {
      assert c[i] == a[i];
    }
    if i :| 0 <= i < |b| && ok(b[i]) {
      assert c[|a| + i] == b[i];
    }
    if i :| 0 <= i < |c| && ok(c[i]) {
      assert c[i] == if i < |a| then a[i] else b[i - |a|];
    }
  }

  /** A longer chain: one event put before another chain's first. */
  lemma ChainGrows(events: EventMap, order: seq<EventId>, j: nat, chain: seq<nat>)
    requires j < |order| && ParentOf(events, order[j]).Some?
    requires ChainFrom(events, order, j, ParentOf(events, order[j]).value, chain)
    ensures Chain(events, order, [j] + chain) && Top(events, order, [j] + chain) == Top(events, order, chain)
  {
    var longer := [j] + chain;
    forall i | 0 <= i < |longer|
      ensures longer[i] < |order| && ParentOf(events, order[longer[i]]).Some?
      ensures i < |longer| - 1 ==>
                longer[i + 1] < longer[i] && ParentOf(events, order[longer[i]]) == Some(order[longer[i + 1]])
    {
      if i > 0 {
        assert longer[i] == chain[i - 1];
      }
    }
  }

  /** And a shorter one: all but its first event. */
  lemma ChainShrinks(events: EventMap, order: seq<EventId>, chain: seq<nat>)
    requires Chain(events, order, chain) && |chain| > 1
    ensures ChainFrom(events, order, chain[0], ParentOf(events, order[chain[0]]).value, chain[1..])
    ensures Top(events, order, chain[1..]) == Top(events, order, chain)
  {
    var rest := chain[1..];
    forall i | 0 <= i < |rest|
      ensures rest[i] < |order| && ParentOf(events, order[rest[i]]).Some?
      ensures i < |rest| - 1 ==> rest[i + 1] < rest[i] && ParentOf(events, order[rest[i]]) == Some(order[rest[i + 1]])
    {
      assert rest[i] == chain[i + 1];
    }
  }

  /** What the turn of the k-th event adds to the chains that begin with it. */
  lemma TopHasStep(own: EventId -> seq<Rule>, events: EventMap, order: seq<EventId>, k: nat, e: EventId,
      ok: Rule -> bool)
    requires 0 < k <= |order|
    ensures TopHas(own, events, order, k, e, ok) <==>
              || TopHas(own, events, order, k - 1, e, ok)
              || (order[k - 1] == e && ParentOf(events, e).Some? &&
                  (Has(own(ParentOf(events, e).value), ok) || TopHas(own, events, order, k - 1, ParentOf(events,
                      e).value, ok)))
  {
    if chain :| ChainFrom(events, order, k, e, chain) && Has(own(Top(events, order, chain)), ok) {
      if chain[0] < k - 1 {
        assert ChainFrom(events, order, k - 1, e, chain);
      } else if |chain| > 1 {
        ChainShrinks(events, order, chain);
      }
    }
    if chain :| ChainFrom(events, order, k - 1, e, chain) && Has(own(Top(events, order, chain)), ok) {
      assert ChainFrom(events, order, k, e, chain);
    }
    if order[k - 1] == e && ParentOf(events, e).Some? {
      var q := ParentOf(events, e).value;
      if Has(own(q), ok) {
        assert ChainFrom(events, order, k, e, [k - 1]) && Top(events, order, [k - 1]) == q;
      }
      if chain :| ChainFrom(events, order, k - 1, q, chain) && Has(own(Top(events, order, chain)), ok) {
        ChainGrows(events, order, k - 1, chain);
        assert ChainFrom(events, order, k, e, [k - 1] + chain);
      }
    }
  }

  /** The merge gives an event the rules of its own, and of the tops of chains that begin with it. */
  lemma {:induction false} MergedHas(
    own: EventId -> seq<Rule>, events: EventMap, order: seq<EventId>, k: nat, e: EventId, ok: Rule -> bool)
    requires k <= |order|
    ensures Has(Merged(own, events, order, k, e), ok) <==> Has(own(e), ok) || TopHas(own, events, order, k, e, ok)
  {
    if k == 0 {
      assert forall chain :: !ChainFrom(events, order, 0, e, chain);
    } else {
      MergedHas(own, events, order, k - 1, e, ok);
      TopHasStep(own, events, order, k, e, ok);
      hide Has, TopHas;
      if order[k - 1] == e && ParentOf(events, e).Some? {
        var q := ParentOf(events, e).value;
        MergedHas(own, events, order, k - 1, q, ok);
        HasOfConcat(Merged(own, events, order, k - 1, e), Merged(own, events, order, k - 1, q), ok);
      }
    }
  }

  // ----- Exactly when the merge goes too far -----

  /** A chain that begins with an event's parent, before the event's own turn at position i. */
  ghost predicate LeadsUp(events: EventMap, order: seq<EventId>, i: nat, chain: seq<nat>)
    requires i < |order|
  {
    Chain(events, order, chain) && chain[0] < i && ParentOf(events, order[i]) == Some(order[chain[0]])
  }

  /**
   * An event ends up with exactly its own and its parent's own rules if and only if no chain of ancestors,
   * listed from the top down before the event itself, leads from its parent to an event with rules.
   */
  lemma InheritsExactlyIff(own: EventId -> seq<Rule>, events: EventMap, order: seq<EventId>, i: nat)
    requires Lists(events, order) && i < |order| && ParentOf(events, order[i]).Some?
    ensures var parent := ParentOf(events, order[i]).value;
            (Merged(own, events, order, |order|, order[i]) == own(order[i]) + own(parent)) <==>
            (forall chain :: LeadsUp(events, order, i, chain) ==> own(Top(events, order, chain)) == [])
  {
    var parent := ParentOf(events, order[i]).value;
    var any := (rule: Rule) => true;
    InheritsAtItsTurn(own, events, order, i);
    if j :| 0 <= j < i && order[j] == parent && ParentOf(events, parent).Some? {
      var q := ParentOf(events, parent).value;
      assert forall k :: 0 <= k < i && order[k] == parent ==> k == j;
      MergedHas(own, events, order, j, q, any);
      HasAny(Merged(own, events, order, j, q));
      HasAny(own(q));
      OnlyChainsThrough(own, events, order, i, j);
      hide Merged, Has, TopHas, LeadsUp, Lists;
    } else {
      NothingLeadsUp(events, order, i);
      hide Merged;
    }
  }

  lemma NothingLeadsUp(events: EventMap, order: seq<EventId>, i: nat)
    requires i < |order|
    requires forall j :: 0 <= j < i && ParentOf(events, order[i]) == Some(order[j]) ==> ParentOf(events, order[j]).None?
    ensures forall chain :: !LeadsUp(events, order, i, chain)
  {
  }

  lemma HasAny(rules: seq<Rule>)
    ensures Has(rules, (rule: Rule) => true) <==> rules != []
  {
    var any := (rule: Rule) => true;
    if rules != [] {
      assert any(rules[0]);
    }
  }

  /** With the parent at position j, the chains above the event are j and what leads on from there. */
  lemma OnlyChainsThrough(own: EventId -> seq<Rule>, events: EventMap, order: seq<EventId>, i: nat, j: nat)
    requires Lists(events, order) && j < i < |order|
    requires ParentOf(events, order[i]) == Some(order[j]) && ParentOf(events, order[j]).Some?
    ensures var q := ParentOf(events, order[j]).value;
            (own(q) == [] && !TopHas(own, events, order, j, q, (rule: Rule) => true)) <==>
            (forall chain :: LeadsUp(events, order, i, chain) ==> own(Top(events, order, chain)) == [])
  {
    var q := ParentOf(events, order[j]).value;
    var any := (rule: Rule) => true;
    forall chain | LeadsUp(events, order, i, chain)
      ensures chain[0] == j
      ensures Top(events, order, chain) == q || (|chain| > 1 && ChainFrom(events, order, j, q, chain[1..])
                && Top(events, order, chain[1..]) == Top(events, order, chain))
    {
      assert order[chain[0]] == order[j];
      if |chain| > 1 {
        ChainShrinks(events, order, chain);
      }
    }
    forall chain | LeadsUp(events, order, i, chain) {
      HasAny(own(Top(events, order, chain)));
    }
    assert LeadsUp(events, order, i, [j]) && Top(events, order, [j]) == q;
    if chain :| ChainFrom(events, order, j, q, chain) && Has(own(Top(events, order, chain)), any) {
      ChainGrows(events, order, j, chain);
      assert LeadsUp(events, order, i, [j] + chain);
      HasAny(own(Top(events, order, chain)));
    }
  }

  /** Some rule from beyond the parent that reaches the event grants the permission. */
  ghost predicate GrantedFromBeyond(
    events: EventMap, order: seq<EventId>, rows: seq<AccessRow>, i: nat, who: Asker, p: Permission)
    requires i < |order|
  {
    exists chain :: LeadsUp(events, order, i, chain) && Grants(OwnRules(rows, Top(events, order, chain)), who, p)
  }

  lemma GrantsIsHas(rules: seq<Rule>, who: Asker, p: Permission)
    ensures Grants(rules, who, p) <==> Has(rules, r => PersonMatches(r, who) && p in RolePermissions(r.mode))
  {
    hide PersonMatches, RolePermissions;
  }

  /** What the merged rules of an event grant: what its own grant, its parent's, and those from beyond. */
  lemma MergedGrants(events: EventMap, order: seq<EventId>, rows: seq<AccessRow>, i: nat, who: Asker, p: Permission)
    requires Lists(events, order) && i < |order|
    ensures Grants(Merged(x => OwnRules(rows, x), events, order, |order|, order[i]), who, p) <==>
              || Grants(OwnRules(rows, order[i]), who, p)
              || Grants(ParentRules(events, rows, order[i]), who, p)
              || GrantedFromBeyond(events, order, rows, i, who, p)
  {
    hide Grants, PersonMatches, RolePermissions, OwnRules;
    var e := order[i];
    var own := x => OwnRules(rows, x);
    var ok := (r: Rule) => PersonMatches(r, who) && p in RolePermissions(r.mode);
    MergedHas(own, events, order, |order|, e, ok);
    forall rules ensures Grants(rules, who, p) <==> Has(rules, ok) {
      GrantsIsHas(rules, who, p);
    }
    ChainsOfEvent(own, events, order, i, ok);
    if ParentOf(events, e).None? {
      assert forall chain :: !LeadsUp(events, order, i, chain);
    }
  }

  /** A chain of the event is its own position, or that and then a chain above it. */
  lemma ChainsOfEvent(own: EventId -> seq<Rule>, events: EventMap, order: seq<EventId>, i: nat, ok: Rule -> bool)
    requires Lists(events, order) && i < |order|
    ensures TopHas(own, events, order, |order|, order[i], ok) <==>
              ParentOf(events, order[i]).Some? &&
              (|| Has(own(ParentOf(events, order[i]).value), ok)
               || exists chain :: LeadsUp(events, order, i, chain) && Has(own(Top(events, order, chain)), ok))
  {
    var e := order[i];
    if chain :| ChainFrom(events, order, |order|, e, chain) && Has(own(Top(events, order, chain)), ok) {
      assert chain[0] == i;
      if |chain| > 1 {
        ChainShrinks(events, order, chain);
        assert LeadsUp(events, order, i, chain[1..]);
      }
    }
    if ParentOf(events, e).Some? {
      if Has(own(ParentOf(events, e).value), ok) {
        assert ChainFrom(events, order, |order|, e, [i]);
      }
      if chain :| LeadsUp(events, order, i, chain) && Has(own(Top(events, order, chain)), ok) {
        ChainGrows(events, order, i, chain);
        assert ChainFrom(events, order, |order|, e, [i] + chain);
      }
    }
  }

  /**
   * For an event that is no group, with any events and rules: the two computations give the same mask if
   * and only if whatever is granted from beyond its parent is also granted by its own rules or its
   * parent's. The computation for all events never gives less.
   */
  method CompareBoth(events: EventMap, order: seq<EventId>, rows: seq<AccessRow>, i: nat, who: Asker)
    returns (one: set<Permission>, all: set<Permission>)
    requires Lists(events, order) && i < |order| && order[i] in events && !events[order[i]].isGroup
    ensures one <= all
    ensures one == all <==>
              forall p :: GrantedFromBeyond(events, order, rows, i, who, p) ==>
                Grants(OwnRules(rows, order[i]), who, p) || Grants(ParentRules(events, rows, order[i]), who, p)
  {
    var e := order[i];
    one := EventPermissions(events, rows, e, who);
    var masks := PermissionsByEvent(events, order, rows, who);
    all := MaskOf(masks, e);
    hide Grants, OwnRules, ParentRules, GrantedFromBeyond, Merged;
    forall p
      ensures p in one <==> Grants(OwnRules(rows, e), who, p) || Grants(ParentRules(events, rows, e), who, p)
      ensures p in all <==> p in one || GrantedFromBeyond(events, order, rows, i, who, p)
    {
      GrantsOfConcat(OwnRules(rows, e), ParentRules(events, rows, e), who, p);
      MergedGrants(events, order, rows, i, who, p);
    }
  }

  // ----- Where they part: a former group that got a parent of its own -----

  const GRANT: Rule := Rule("*", Read, Always, None, None)

  /** 3 is below 2, which was a group and is now below the group 1. */
  const CHAIN: EventMap := map[
    1 := NewEvent("top").(isGroup := true),
    2 := NewEvent("middle").(parent := Some(1)),
    3 := NewEvent("leaf").(parent := Some(2))]

  /** Edits lead there, one after another. */
  lemma AChainCanBeMade()
    ensures exists ops :: ApplyAll(EMPTY, ops).events == CHAIN
  {
    var top := CreateNamed("top").(isGroup := Some(true));
    var middle := CreateNamed("middle").(isGroup := Some(true));
    var leaf := CreateNamed("leaf").(parent := Some(2));
    var demote := NO_CHANGE.(isGroup := Some(false), parent := Some(1));
    var t1 := Apply(EMPTY, Create(top));
    assert t1 == Table(map[1 := CHAIN[1]], 2);
    var t2 := Apply(t1, Create(middle));
    assert t2 == Table(map[1 := CHAIN[1], 2 := NewEvent("middle").(isGroup := true)], 3);
    var t3 := Apply(t2, Create(leaf));
    assert t3 == Table(map[1 := CHAIN[1], 2 := NewEvent("middle").(isGroup := true), 3 := CHAIN[3]], 4);
    var t4 := Apply(t3, Edit(2, demote));
    assert t4.events == CHAIN;
    var ops := [Create(top), Create(middle), Create(leaf), Edit(2, demote)];
    assert ops[..3] == [Create(top), Create(middle), Create(leaf)];
    assert ops[..3][..2] == [Create(top), Create(middle)];
    assert ops[..3][..2][..1] == [Create(top)];
    assert ops[..3][..2][..1][..0] == [];
    assert ApplyAll(EMPTY, ops[..3][..2][..1]) == t1;
    assert ApplyAll(EMPTY, ops[..3][..2]) == t2;
    assert ApplyAll(EMPTY, ops[..3]) == t3;
    assert ApplyAll(EMPTY, ops) == t4;
  }

  function CreateNamed(name: string): EventPatch {
    NO_CHANGE.(name := Some(name))
  }

  lemma OnlyTheTopHasRules(e: EventId)
    ensures OwnRules([AccessRow(1, GRANT)], e) == if e == 1 then [GRANT] else []
  {
    var rows := [AccessRow(1, GRANT)];
    assert rows[..|rows| - 1] == [];
    assert OwnRules(rows, e) == OwnRules([], e) + if e == 1 then [GRANT] else [];
  }

  /** The leaf then gets the top group's rules or not, depending on the order of the list; the computation
      for one event never gives them. */
  lemma OrderDecidesInAChain()
    ensures var own := x => OwnRules([AccessRow(1, GRANT)], x);
            && Lists(CHAIN, [1, 2, 3]) && Lists(CHAIN, [3, 2, 1])
            && Merged(own, CHAIN, [1, 2, 3], 3, 3) == [GRANT]
            && Merged(own, CHAIN, [3, 2, 1], 3, 3) == []
            && EventAndParentAccess(CHAIN, [AccessRow(1, GRANT)], 3) == []
  {
    var own := x => OwnRules([AccessRow(1, GRANT)], x);
    hide OwnRules, Merged;
    OnlyTheTopHasRules(1);
    OnlyTheTopHasRules(2);
    OnlyTheTopHasRules(3);
    assert ParentOf(CHAIN, 3) == Some(2) && ParentOf(CHAIN, 2) == Some(1) && ParentOf(CHAIN, 1) == None;
    MergedAtTurn(own, CHAIN, [1, 2, 3], 3, 2);
    MergedAtTurn(own, CHAIN, [1, 2, 3], 2, 1);
    MergedAtTurn(own, CHAIN, [1, 2, 3], 1, 0);
    MergedAtTurn(own, CHAIN, [3, 2, 1], 0, 1);
    MergedAtTurn(own, CHAIN, [3, 2, 1], 3, 0);
  }
}
