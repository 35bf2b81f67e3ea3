/**
 * Who is on the roster of an Incident or a Visit, and in which role (api/ranger.go).
 *
 * The roster is read with an exact comparison of handles, but the database deletes by its collation, which
 * takes handles that differ in case, accents or trailing blanks for the same. `key` gives a handle's sort
 * key: the database takes two handles for the same when their keys are equal.
 */
module Roster {
  import opened Base
  import Retry

  /** A row of the roster. */
  datatype Member = Member(handle: string, role: NullText)

  /** The rows in the order in which a query lists them. */
  type Rangers = seq<Member>

  /** A generated entry about the roster. */
  datatype Line =
    | Added(handle: string, role: NullText)
    | SetRole(handle: string, newRole: string)
    | RemovedRole(handle: string)
    | Removed(handle: string)

  const MAX_DEADLOCK_ATTEMPTS := Retry.MAX_DEADLOCK_ATTEMPTS

  /** The role in the first row with exactly this handle. */
  function RoleOf(rangers: Rangers, handle: string): Option<NullText> {
    if rangers == [] then None
    else
      var last := rangers[|rangers| - 1];
      match RoleOf(rangers[..|rangers| - 1], handle)
      case Some(role) => Some(role)
      case None => if last.handle == handle then Some(last.role) else None
  }

  lemma {:induction false} FirstRowDecides(rangers: Rangers, handle: string, i: nat)
    requires i <= |rangers| && RoleOf(rangers[..i], handle).Some?
    ensures RoleOf(rangers, handle) == RoleOf(rangers[..i], handle)
  {
    if i == |rangers| {
      assert rangers[..i] == rangers;
    } else {
      assert rangers[..|rangers| - 1][..i] == rangers[..i];
      FirstRowDecides(rangers[..|rangers| - 1], handle, i);
    }
  }

  /** `currentRole`: the loop over the rows. */
  method CurrentRole(rangers: Rangers, handle: string) returns (role: Option<NullText>)
    ensures role == RoleOf(rangers, handle)
  {
    for i := 0 to |rangers|
      invariant RoleOf(rangers[..i], handle) == None
    {
      assert rangers[..i + 1][..i] == rangers[..i];
      if rangers[i].handle == handle {
        FirstRowDecides(rangers, handle, i + 1);
        return Some(rangers[i].role);
      }
    }
    assert rangers[..|rangers|] == rangers;
    role := None;
  }

  /** The rows the database finds for a handle with this key. */
  function Standing(rangers: Rangers, key: string -> string, k: string): Rangers {
    if rangers == [] then []
    else
      var rest, last := Standing(rangers[..|rangers| - 1], key, k), rangers[|rangers| - 1];
      if key(last.handle) == k then rest + [last] else rest
  }

  /** The rows a delete of a handle with this key leaves. */
  function Without(rangers: Rangers, key: string -> string, k: string): Rangers {
    if rangers == [] then []
    else
      var rest, last := Without(rangers[..|rangers| - 1], key, k), rangers[|rangers| - 1];
      if key(last.handle) == k then rest else rest + [last]
  }

  /** A committed roster request. What an attach `saw` may be stale: it read before it locked. */
  datatype Commit = Attach(handle: string, role: NullText, saw: Option<NullText>) | Detach(handle: string)

  /** What a request logs: an attach says what it did from the role it saw. */
  function LineOf(c: Commit): Line {
    match c
    case Attach(handle, role, saw) =>
      if saw.None? then Added(handle, role)
      else if role.Some? then SetRole(handle, role.value)
      else RemovedRole(handle)
    case Detach(handle) => Removed(handle)
  }

  /** Detach first, then attach. */
  function Apply(rangers: Rangers, key: string -> string, c: Commit): Rangers {
    var rest := Without(rangers, key, key(c.handle));
    if c.Attach? then rest + [Member(c.handle, c.role)] else rest
  }

  function Rosters(init: Rangers, key: string -> string, commits: seq<Commit>): Rangers {
    if commits == [] then init
    else Apply(Rosters(init, key, commits[..|commits| - 1]), key, commits[|commits| - 1])
  }

  function Lines(commits: seq<Commit>): seq<Line> {
    if commits == [] then [] else Lines(commits[..|commits| - 1]) + [LineOf(commits[|commits| - 1])]
  }

  /** The rows a line says there are now for its Ranger: one, or none when it says they are off the roster. */
  function Says(line: Line): Rangers {
    match line
    case Added(handle, role) => [Member(handle, role)]
    case SetRole(handle, role) => [Member(handle, Some(role))]
    case RemovedRole(handle) => [Member(handle, None)]
    case Removed(_) => []
  }

  lemma {:induction false} StandingWithout(rangers: Rangers, key: string -> string, gone: string, k: string)
    ensures Standing(Without(rangers, key, gone), key, k) == if k == gone then [] else Standing(rangers, key, k)
  {
    if rangers != [] {
      var rest, last := rangers[..|rangers| - 1], rangers[|rangers| - 1];
      StandingWithout(rest, key, gone, k);
      StandingNext(Without(rest, key, gone), key, last, k);
    }
  }

  lemma StandingNext(rangers: Rangers, key: string -> string, m: Member, k: string)
    ensures Standing(rangers + [m], key, k) ==
        if key(m.handle) == k then Standing(rangers, key, k) + [m] else Standing(rangers, key, k)
  {
    assert (rangers + [m])[..|rangers|] == rangers;
  }

  /** A line never lies about the result, even where a stale read makes it misname the act: afterwards its
      Ranger has exactly the row it says, under no other spelling either, and nobody else's rows changed. */
  lemma LineSaysTheResult(rangers: Rangers, key: string -> string, c: Commit, k: string)
    ensures LineOf(c).handle == c.handle
    ensures Standing(Apply(rangers, key, c), key, k) ==
        if k == key(c.handle) then Says(LineOf(c)) else Standing(rangers, key, k)
  {
    var rest := Without(rangers, key, key(c.handle));
    StandingWithout(rangers, key, key(c.handle), k);
    if c.Attach? {
      StandingNext(rest, key, Member(c.handle, c.role), k);
    }
  }

  /** An exact read finds what stands for the handle's key, if that has the very handle. */
  lemma {:induction false} RoleOfStanding(rangers: Rangers, key: string -> string, handle: string)
    ensures RoleOf(rangers, handle) == RoleOf(Standing(rangers, key, key(handle)), handle)
  {
    if rangers != [] {
      var rest, last := rangers[..|rangers| - 1], rangers[|rangers| - 1];
      RoleOfStanding(rest, key, handle);
      var found := Standing(rest, key, key(handle));
      if key(last.handle) == key(handle) {
        assert Standing(rangers, key, key(handle)) == found + [last] && (found + [last])[..|found|] == found;
      }
    }
  }

  lemma AppliedNext(init: Rangers, key: string -> string, commits: seq<Commit>, c: Commit)
    ensures Rosters(init, key, commits + [c]) == Apply(Rosters(init, key, commits), key, c)
    ensures Lines(commits + [c]) == Lines(commits) + [LineOf(c)]
  {
    var all := commits + [c];
    assert all[..|all| - 1] == commits;
  }

  /** What a line says about exactly its handle. */
  function SaysOfHandle(line: Line): Option<NullText> {
    RoleOf(Says(line), line.handle)
  }

  // ----- The requests alone -----

  /** How a run of the transaction ends, if it gets that far. */
  datatype Fate = ReadFails | Commits | Deadlocks | Fails

  /** The commits of other requests around run number k of a request: before its read of the roster, and
      between that read and its first write. */
  datatype Rivals = Rivals(before: nat -> seq<Commit>, during: nat -> seq<Commit>)

  /** All of them, up to and including run number k - 1. */
  function Past(rivals: Rivals, k: nat): seq<Commit> {
    if k == 0 then [] else Past(rivals, k - 1) + (rivals.before(k - 1) + rivals.during(k - 1))
  }

  /** The roster as run number k reads it. */
  function RosterRead(init: Rangers, key: string -> string, rivals: Rivals, k: nat): Rangers {
    Rosters(init, key, Past(rivals, k) + rivals.before(k))
  }

  class Table {
    var rangers: Rangers
    var lines: seq<Line>
    var notified: nat
    const key: string -> string
    ghost const init: Rangers
    ghost var commits: seq<Commit>

    ghost predicate Valid()
      reads this
    {
      rangers == Rosters(init, key, commits) && lines == Lines(commits)
    }

    /** The roster as a request finds it; the history counts from there. */
    constructor (found: Rangers, collation: string -> string)
      ensures Valid() && rangers == init == found && key == collation && commits == [] && notified == 0
    {
      rangers, lines, notified, key := found, [], 0, collation;
      init, commits := found, [];
    }

    /** One request's writes reach the table. */
    method CommitOne(c: Commit)
      requires Valid()
      modifies this`rangers, this`lines, this`commits
      ensures Valid() && commits == old(commits) + [c]
    {
      AppliedNext(init, key, commits, c);
      ghost var next := Apply(rangers, key, c);
      rangers := Without(rangers, key, key(c.handle));
      if c.Attach? {
        rangers := rangers + [Member(c.handle, c.role)];
      }
      assert rangers == next;
      lines := lines + [LineOf(c)];
      commits := commits + [c];
      hide Rosters, Lines, Apply, LineOf;
    }

    method RivalsCommit(cs: seq<Commit>)
      requires Valid()
      modifies this`rangers, this`lines, this`commits
      ensures Valid() && commits == old(commits) + cs
    {
      hide Rosters, Lines;
      for k := 0 to |cs|
        invariant Valid() && commits == old(commits) + cs[..k]
      {
        CommitOne(cs[k]);
        assert cs[..k + 1] == cs[..k] + [cs[k]];
      }
      assert cs[..|cs|] == cs;
    }

    /** `attachRanger`: fate(k) is how run number k of the transaction ends, if it gets that far. A run that
        does not commit leaves nothing. */
    method AttachRanger(handle: string, role: NullText, fate: nat -> Fate, rivals: Rivals)
      returns (ok: bool, changed: bool, runs: nat)
      requires Valid() && commits == []
      modifies this
      ensures Valid() && 1 <= runs <= MAX_DEADLOCK_ATTEMPTS
      ensures forall k :: 0 <= k < runs - 1 ==>
                fate(k).Deadlocks? && RoleOf(RosterRead(init, key, rivals, k), handle) != Some(role)
      ensures var saw := RoleOf(RosterRead(init, key, rivals, runs - 1), handle);
              && (changed <==> fate(runs - 1).Commits? && saw != Some(role))
              && (ok <==> !fate(runs - 1).ReadFails? && (saw == Some(role) || fate(runs - 1).Commits?))
              && (changed ==> commits == Past(rivals, runs) + [Attach(handle, role, saw)])
              && (!changed && (saw == Some(role) || fate(runs - 1).ReadFails?) ==>
                    commits == Past(rivals, runs - 1) + rivals.before(runs - 1))
              && (!changed && saw != Some(role) && !fate(runs - 1).ReadFails? ==> commits == Past(rivals, runs))
      ensures notified == old(notified) + if changed then 1 else 0
    {
      hide Rosters, Lines;
      changed := false;
      runs := 0;
      while true
        invariant 0 <= runs < MAX_DEADLOCK_ATTEMPTS
        invariant forall k :: 0 <= k < runs ==>
                    fate(k).Deadlocks? && RoleOf(RosterRead(init, key, rivals, k), handle) != Some(role)
        invariant Valid() && !changed && notified == old(notified) && commits == Past(rivals, runs)
        decreases MAX_DEADLOCK_ATTEMPTS - runs
      {
        changed := false;
        RivalsCommit(rivals.before(runs));
        runs := runs + 1;
        if fate(runs - 1).ReadFails? {
          return false, false, runs;
        }
        var saw := CurrentRole(rangers, handle);
        if saw == Some(role) {
          return true, false, runs;
        }
        RivalsCommit(rivals.during(runs - 1));
        assert commits == Past(rivals, runs);
        match fate(runs - 1) {
          case Commits =>
            CommitOne(Attach(handle, role, saw));
            changed := true;
            break;
          case Fails => return false, false, runs;
          case Deadlocks =>
            if runs == MAX_DEADLOCK_ATTEMPTS {
              return false, false, runs;
            }
          case ReadFails =>
        }
      }
      if changed {
        notified := notified + 1;
      }
      ok := true;
    }

    /** `detachRanger` reads nothing first: it logs and notifies whether or not the Ranger was there. */
    method DetachRanger(handle: string, fate: nat -> Fate, rivals: nat -> seq<Commit>) returns (ok: bool, runs: nat)
      requires Valid() && commits == []
      modifies this
      ensures Valid() && 1 <= runs <= MAX_DEADLOCK_ATTEMPTS
      ensures forall k :: 0 <= k < runs - 1 ==> fate(k).Deadlocks?
      ensures ok <==> fate(runs - 1).Commits?
      ensures commits == Past(Rivals(rivals, _ => []), runs) + if ok then [Detach(handle)] else []
      ensures notified == old(notified) + if ok then 1 else 0
    {
      hide Rosters, Lines;
      ghost var all := Rivals(rivals, _ => []);
      runs := 0;
      while true
        invariant 0 <= runs < MAX_DEADLOCK_ATTEMPTS
        invariant forall k :: 0 <= k < runs ==> fate(k).Deadlocks?
        invariant Valid() && notified == old(notified) && commits == Past(all, runs)
        decreases MAX_DEADLOCK_ATTEMPTS - runs
      {
        RivalsCommit(rivals(runs));
        runs := runs + 1;
        assert commits == Past(all, runs);
        if fate(runs - 1).Commits? {
          break;
        }
        if !fate(runs - 1).Deadlocks? || runs == MAX_DEADLOCK_ATTEMPTS {
          return false, runs;
        }
      }
      CommitOne(Detach(handle));
      notified := notified + 1;
      ok := true;
    }
  }
}
