/** Applying one field of a request to a row, and logging it (api/helpers.go). */
module Changes {
  import opened Base
  import opened EditProtocol
  import opened EditAudit
  import Normalize

  function NormalizedAddress(address: Option<string>, normalize: bool): Option<string> {
    match address
    case Some(a) => if normalize then Some(Normalize.NormalizeAddress(a)) else address
    case None => None
  }

  /** A stored text column after a request, which may or may not set it. */
  function Overwrite(stored: NullText, patch: Option<string>): NullText {
    match patch
    case Some(s) => StringToSql(s)
    case None => stored
  }

  function AddLine(logs: seq<Change>, line: Option<Change>): seq<Change> {
    match line
    case Some(change) => logs + [change]
    case None => logs
  }

  function TextLine(field: Field, patch: Option<string>): Option<Change> {
    match patch
    case Some(s) => Some(Change(field, Text(s)))
    case None => None
  }

  /** `applyStringChange`: overwrite a column and log it, if the request provides a value. */
  method ApplyStringChange(dst: NullText, newVal: Option<string>, field: Field, logs: seq<Change>)
    returns (dst': NullText, logs': seq<Change>)
    ensures dst' == Overwrite(dst, newVal)
    ensures logs' == AddLine(logs, TextLine(field, newVal))
    ensures newVal.Some? ==> TextOf(dst') == newVal.value && logs' == logs + [Change(field, Text(TextOf(dst')))]
  {
    dst', logs' := dst, logs;
    if newVal == None {
      return;
    }
    dst' := StringToSql(newVal.value);
    logs' := logs' + [Change(field, Text(TextOf(dst')))];
  }

  /** The value a change log leaves a field with, if it started with `stored`. */
  function LoggedValue(logs: seq<Change>, field: Field, stored: Value): Value {
    if Names(logs, field) then LastValue(logs, field) else stored
  }

  lemma LoggedLine(logs: seq<Change>, line: Option<Change>, field: Field, stored: Value)
    ensures LoggedValue(AddLine(logs, line), field, stored)
         == if line.Some? && line.value.field == field then line.value.value else LoggedValue(logs, field, stored)
  {
    if line.Some? {
      NamesOfLonger(logs, line.value, field);
      hide Names;
      var longer := logs + [line.value];
      assert longer[..|longer| - 1] == logs;
    }
  }

  lemma NamesOfLonger(logs: seq<Change>, line: Change, field: Field)
    ensures Names(logs + [line], field) <==> Names(logs, field) || line.field == field
  {
    var longer := logs + [line];
    assert longer[|logs|] == line;
    if Names(logs, field) {
      var k :| 0 <= k < |logs| && logs[k].field == field;
      assert longer[k].field == field;
    }
  }
}
