/** Writing report entries inside a transaction, and the text of a change-log entry (api/reportentry.go). */
module ReportEntries {
  import opened Base
  import opened EditProtocol

  /** The report entries a transaction sees, and the ids it attached to its record, in order. */
  class EntryTable {
    var nextId: nat
    var rows: map<nat, Entry>
    var attached: seq<nat>

    constructor ()
      ensures nextId == 0 && rows == map[] && attached == []
    {
      nextId, rows, attached := 0, map[], [];
    }

    /** The entries attached to the record, in order. */
    ghost function Contents(): seq<Entry>
      reads this
      requires Valid()
    {
      seq(|attached|, i requires 0 <= i < |attached| reads this requires Valid() => rows[attached[i]])
    }

    ghost predicate Valid()
      reads this
    {
      && (forall id :: id in rows ==> id < nextId)
      && (forall i :: 0 <= i < |attached| ==> attached[i] in rows)
      && (forall i, j :: 0 <= i < j < |attached| ==> attached[i] < attached[j])
    }

    /** `createReportEntry` and the attach that follows it. */
    method Add(entry: Entry) returns (id: nat)
      requires Valid()
      modifies this
      ensures Valid() && Contents() == old(Contents()) + [entry]
      ensures id == old(nextId) && id !in old(rows) && rows == old(rows)[id := entry]
    {
      id := nextId;
      nextId := nextId + 1;
      rows := rows[id := entry];
      attached := attached + [id];
    }

    /** Each nonempty note, in order. */
    method AddNotes(who: ReqId, notes: seq<string>)
      requires Valid()
      modifies this
      ensures Valid() && Contents() == old(Contents()) + NoteEntries(who, notes)
    {
      ghost var before := Contents();
      for k := 0 to |notes|
        invariant Valid() && Contents() == before + NoteEntries(who, notes[..k])
      {
        NoteEntriesSnoc(who, notes[..k], notes[k]);
        assert notes[..k + 1] == notes[..k] + [notes[k]];
        hide NoteEntries, Valid, Contents;
        if notes[k] != "" {
          var _ := Add(Note(who, notes[k]));
        }
      }
      assert notes[..|notes|] == notes;
    }

    /** `addChangeReportEntries`: the change log as one generated entry, then each nonempty note, whether or
        not there was a change log; nothing else. */
    method AddChangeReportEntries(who: ReqId, logs: seq<Change>, notes: seq<string>)
      requires Valid()
      modifies this
      ensures Valid() && Contents() == old(Contents()) + Plan(who, logs, notes)
      ensures |Contents()| == |old(Contents())| + (if logs != [] then 1 else 0) + CountNotes(notes)
      ensures logs != [] ==> Contents()[|old(Contents())|] == ChangeLog(who, logs)
      ensures forall i :: 0 <= i < |notes| && notes[i] != "" ==>
                var k := |old(Contents())| + (if logs != [] then 1 else 0) + CountNotes(notes[..i]);
                k < |Contents()| && Contents()[k] == Note(who, notes[i])
    {
      hide NoteEntries, Valid, Contents;
      ghost var before := Contents();
      if |logs| > 0 {
        var _ := Add(ChangeLog(who, logs));
      }
      AddNotes(who, notes);
      assert Contents() == before + Plan(who, logs, notes);
      forall i | 0 <= i < |notes| && notes[i] != ""
        ensures var k := |before| + (if logs != [] then 1 else 0) + CountNotes(notes[..i]);
                k < |Contents()| && Contents()[k] == Note(who, notes[i])
      {
        PlanHasEachNote(who, logs, notes, i);
      }
    }
  }

  lemma {:induction false} NoteEntriesSnoc(who: ReqId, notes: seq<string>, note: string)
    ensures NoteEntries(who, notes + [note]) == NoteEntries(who, notes) + (if note == "" then [] else [Note(who, note)])
  {
    if notes == [] {
      assert notes + [note] == [note];
    } else {
      assert (notes + [note])[1..] == notes[1..] + [note];
      NoteEntriesSnoc(who, notes[1..], note);
    }
  }

  // ----- The text of a change-log entry: its lines joined by newlines -----

  function Join(lines: seq<string>): string {
    if lines == [] then ""
    else if |lines| == 1 then lines[0]
    else lines[0] + "\n" + Join(lines[1..])
  }

  /** Reading the text back, line by line. */
  function Split(text: string): (lines: seq<string>)
    ensures lines != []
    ensures forall i :: 0 <= i < |lines| ==> '\n' !in lines[i]
  {
    if text == "" then [""]
    else
      var rest := Split(text[1..]);
      if text[0] == '\n' then [""] + rest else [[text[0]] + rest[0]] + rest[1..]
  }

  lemma {:induction false} SplitLine(line: string, rest: string)
    requires '\n' !in line
    ensures Split(line) == [line]
    ensures Split(line + "\n" + rest) == [line] + Split(rest)
  {
    if line == "" {
      assert line + "\n" + rest == "\n" + rest;
      assert ("\n" + rest)[1..] == rest;
    } else {
      SplitLine(line[1..], rest);
      assert (line + "\n" + rest)[1..] == line[1..] + "\n" + rest;
      assert line == [line[0]] + line[1..];
    }
  }

  lemma {:induction false} SplitJoin(lines: seq<string>)
    requires lines != [] && forall i :: 0 <= i < |lines| ==> '\n' !in lines[i]
    ensures Split(Join(lines)) == lines
  {
    if |lines| == 1 {
      SplitLine(lines[0], "");
    } else {
      SplitLine(lines[0], Join(lines[1..]));
      SplitJoin(lines[1..]);
      assert [lines[0]] + lines[1..] == lines;
    }
  }

  /** The stored text of an entry gives its lines back exactly when no line holds a newline itself. */
  lemma EntryTextIsReadableIffNoNewlines(lines: seq<string>)
    ensures Split(Join(lines)) == lines <==> lines != [] && forall i :: 0 <= i < |lines| ==> '\n' !in lines[i]
  {
    if lines != [] && forall i :: 0 <= i < |lines| ==> '\n' !in lines[i] {
      SplitJoin(lines);
    }
  }

  /** A value with a newline in it: one change reads as two, and as the very text of those two. */
  lemma NewlineInAValueReadsAsTwoChanges(first: string, second: string)
    requires '\n' !in first && '\n' !in second
    ensures Split(Join([first + "\n" + second])) == [first, second]
    ensures Join([first + "\n" + second]) == Join([first, second])
  {
    SplitLine(first, second);
    SplitLine(second, "");
  }
}
