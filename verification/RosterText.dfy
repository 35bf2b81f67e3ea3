/** The texts of the entries about a roster, and when such a text tells its line (api/ranger.go). */
module RosterText {
  import opened Base
  import opened Roster

  const ADDED := "Added Ranger: "
  const SET := "Set role for "
  const UNSET := "Removed role for "
  const REMOVED := "Removed Ranger: "
  const ROLE := " (role: "
  const END := ")"
  const COLON := ": "

  function Text(line: Line): string {
    match line
    case Added(handle, None) => ADDED + handle
    case Added(handle, Some(role)) => ADDED + (handle + ROLE + role + END)
    case SetRole(handle, role) => SET + (handle + COLON + role)
    case RemovedRole(handle) => UNSET + handle
    case Removed(handle) => REMOVED + handle
  }

  // ----- Looking for a mark -----

  predicate MarkAt(s: string, mark: string, i: nat) {
    i + |mark| <= |s| && s[i..i + |mark|] == mark
  }

  ghost predicate HasMark(s: string, mark: string) {
    exists i :: 0 <= i <= |s| && MarkAt(s, mark, i)
  }

  /** The first place of a mark, from place i on. */
  function First(s: string, mark: string, i: nat): (place: Option<nat>)
    requires i <= |s|
    ensures place.Some? ==> i <= place.value && MarkAt(s, mark, place.value)
    ensures forall j :: i <= j < (if place.Some? then place.value else |s| + 1) ==> !MarkAt(s, mark, j)
    decreases |s| - i
  {
    if MarkAt(s, mark, i) then Some(i) else if i == |s| then None else First(s, mark, i + 1)
  }

  lemma FirstIs(s: string, mark: string, i: nat)
    requires MarkAt(s, mark, i) && forall j :: 0 <= j < i ==> !MarkAt(s, mark, j)
    ensures First(s, mark, 0) == Some(i)
  {
  }

  // ----- Reading a text back -----

  /** What follows "Added Ranger: ". A role stands between its first mark and a bracket at the end. */
  function ReadAdded(body: string): Line {
    if body == "" || body[|body| - 1..] != END then Added(body, None)
    else
      match First(body[..|body| - 1], ROLE, 0)
      case None => Added(body, None)
      case Some(i) => Added(body[..i], Some(body[i + |ROLE|..|body| - 1]))
  }

  function ReadSet(body: string): Option<Line> {
    match First(body, COLON, 0)
    case None => None
    case Some(i) => Some(SetRole(body[..i], body[i + |COLON|..]))
  }

  /** Reading a line back, handles as short as possible. */
  function Read(text: string): Option<Line> {
    if ADDED <= text then Some(ReadAdded(text[|ADDED|..]))
    else if SET <= text then ReadSet(text[|SET|..])
    else if UNSET <= text then Some(RemovedRole(text[|UNSET|..]))
    else if REMOVED <= text then Some(Removed(text[|REMOVED|..]))
    else None
  }

  /** The handle has no mark in it that reading takes for the role's. */
  ghost predicate Clear(line: Line) {
    var h := line.handle;
    match line
    case Added(_, None) => !(h != "" && h[|h| - 1..] == END && HasMark(h[..|h| - 1], ROLE))
    case Added(_, Some(_)) => forall i :: 0 <= i < |h| ==> !MarkAt(h + ROLE, ROLE, i)
    case SetRole(_, _) => forall i :: 0 <= i < |h| ==> !MarkAt(h, COLON, i)
    case _ => true
  }

  /** The four kinds of text are told apart. */
  lemma KindsDiffer(prefix: string, body: string)
    requires prefix == ADDED || prefix == SET || prefix == UNSET || prefix == REMOVED
    ensures var t := prefix + body;
            && t[|prefix|..] == body
            && (ADDED <= t <==> prefix == ADDED) && (SET <= t <==> prefix == SET)
            && (UNSET <= t <==> prefix == UNSET) && (REMOVED <= t <==> prefix == REMOVED)
  {
    var t := prefix + body;
    assert t[0] == prefix[0] && t[8] == prefix[8];
  }

  lemma AddedIsReadIff(handle: string, role: NullText)
    ensures var body := Text(Added(handle, role))[|ADDED|..];
            ReadAdded(body) == Added(handle, role) <==> Clear(Added(handle, role))
  {
    var body := Text(Added(handle, role))[|ADDED|..];
    match role
    case None =>
      assert body == handle;
    case Some(r) =>
      assert body == handle + ROLE + r + END;
      AddedRoleIsReadIff(handle, r);
  }

  /** A mark that begins within the handle ends before the role. */
  lemma MarkInHandle(handle: string, mark: string, rest: string, i: nat)
    requires i < |handle| && mark != ""
    ensures MarkAt(handle + mark + rest, mark, i) <==> MarkAt(handle + mark, mark, i)
  {
    assert (handle + mark + rest)[i..i + |mark|] == (handle + mark)[i..i + |mark|];
  }

  lemma AddedRoleIsReadIff(handle: string, role: string)
    ensures ReadAdded(handle + ROLE + role + END) == Added(handle, Some(role)) <==> Clear(Added(handle, Some(role)))
  {
    var body, inner := handle + ROLE + role + END, handle + ROLE + role;
    assert body[|body| - 1..] == END && body[..|body| - 1] == inner;
    assert MarkAt(inner, ROLE, |handle|);
    forall i | 0 <= i < |handle| ensures MarkAt(inner, ROLE, i) <==> MarkAt(handle + ROLE, ROLE, i) {
      MarkInHandle(handle, ROLE, role, i);
    }
    if Clear(Added(handle, Some(role))) {
      FirstIs(inner, ROLE, |handle|);
      assert body[..|handle|] == handle && body[|handle| + |ROLE|..|body| - 1] == role;
    } else {
      var i :| 0 <= i < |handle| && MarkAt(handle + ROLE, ROLE, i);
      var place := First(inner, ROLE, 0);
      assert place.Some? && place.value <= i;
      assert |ReadAdded(body).handle| < |handle|;
    }
  }

  lemma SetIsReadIff(handle: string, role: string)
    ensures ReadSet(handle + COLON + role) == Some(SetRole(handle, role)) <==> Clear(SetRole(handle, role))
  {
    var body := handle + COLON + role;
    assert MarkAt(body, COLON, |handle|);
    forall i | 0 <= i < |handle| ensures MarkAt(body, COLON, i) <==> MarkAt(handle, COLON, i) {
      assert body[|handle|] == ':';
      assert i + 2 <= |handle| ==> body[i..i + 2] == handle[i..i + 2];
      assert MarkAt(body, COLON, i) ==> body[i..i + 2][1] == ' ' && body[i + 1] == ' ';
    }
    if Clear(SetRole(handle, role)) {
      FirstIs(body, COLON, |handle|);
      assert body[..|handle|] == handle && body[|handle| + |COLON|..] == role;
    } else {
      var i :| 0 <= i < |handle| && MarkAt(handle, COLON, i);
      var place := First(body, COLON, 0);
      assert place.Some? && place.value <= i;
    }
  }

  /** A text is read back as its own line if and only if the line's handle is clear. */
  lemma LineIsReadBackIff(line: Line)
    ensures Read(Text(line)) == Some(line) <==> Clear(line)
  {
    match line {
      case Added(handle, role) =>
        AddedIsReadIff(handle, role);
        KindsDiffer(ADDED, Text(line)[|ADDED|..]);
        assert Text(line) == ADDED + Text(line)[|ADDED|..];
      case SetRole(handle, role) =>
        SetIsReadIff(handle, role);
        KindsDiffer(SET, handle + COLON + role);
      case RemovedRole(handle) => KindsDiffer(UNSET, handle);
      case Removed(handle) => KindsDiffer(REMOVED, handle);
    }
  }

  lemma ReadAddedHasTheText(body: string)
    ensures Text(ReadAdded(body)) == ADDED + body
  {
    if body != "" && body[|body| - 1..] == END {
      var inner := body[..|body| - 1];
      match First(inner, ROLE, 0) {
        case None =>
        case Some(i) =>
          assert body == inner + END;
          assert inner == inner[..i] + ROLE + inner[i + |ROLE|..];
          assert body[..i] == inner[..i] && body[i + |ROLE|..|body| - 1] == inner[i + |ROLE|..];
      }
    }
  }

  lemma ReadSetHasTheText(handle: string, role: string)
    ensures var body := handle + COLON + role;
            ReadSet(body).Some? && Text(ReadSet(body).value) == SET + body
  {
    var body := handle + COLON + role;
    assert MarkAt(body, COLON, |handle|);
    var i := First(body, COLON, 0).value;
    assert body == body[..i] + COLON + body[i + |COLON|..];
  }

  /** What is read has the very text. */
  lemma ReadHasTheText(line: Line)
    ensures Read(Text(line)).Some? && Text(Read(Text(line)).value) == Text(line)
  {
    match line {
      case Added(handle, role) =>
        var body := Text(line)[|ADDED|..];
        assert Text(line) == ADDED + body;
        KindsDiffer(ADDED, body);
        ReadAddedHasTheText(body);
      case SetRole(handle, role) =>
        KindsDiffer(SET, handle + COLON + role);
        ReadSetHasTheText(handle, role);
      case RemovedRole(handle) => KindsDiffer(UNSET, handle);
      case Removed(handle) => KindsDiffer(REMOVED, handle);
    }
  }

  /** Each text is that of exactly one clear line. So it tells its line if that is clear, and otherwise it
      is another line's text as well. */
  lemma TextTellsLineIff(line: Line) returns (told: Line)
    ensures Clear(told) && Text(told) == Text(line)
    ensures told == line <==> Clear(line)
    ensures forall other :: Clear(other) && Text(other) == Text(line) ==> other == told
  {
    hide Read, Text, Clear;
    ReadHasTheText(line);
    told := Read(Text(line)).value;
    LineIsReadBackIff(told);
    LineIsReadBackIff(line);
    forall other | Clear(other) && Text(other) == Text(line) ensures other == told {
      LineIsReadBackIff(other);
    }
  }

  /** A handle can hold what looks like a role. */
  lemma HandleReadsAsRole()
    ensures Text(Added("Hub (role: Lead)", None)) == Text(Added("Hub", Some("Lead")))
    ensures Clear(Added("Hub", Some("Lead"))) && !Clear(Added("Hub (role: Lead)", None))
  {
    var h := "Hub (role: Lead)";
    assert h[..|h| - 1] == "Hub (role: Lead" && MarkAt(h[..|h| - 1], ROLE, 3);
    assert Text(Added("Hub", Some("Lead"))) == ADDED + h;
    TextOfHub();
    hide Read;
  }

  lemma TextOfHub()
    ensures Clear(Added("Hub", Some("Lead")))
  {
    var t := "Hub" + ROLE;
    assert t[0] == 'H' && t[1] == 'u' && t[2] == 'b' && ROLE[0] == ' ';
    forall i | 0 <= i < 3 ensures !MarkAt(t, ROLE, i) {
      assert t[i..i + |ROLE|][0] == t[i] != ' ';
    }
  }
}
