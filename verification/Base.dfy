/** Small shared datatypes. */
module Base {

  datatype Option<+T> = None | Some(value: T) {
    function GetOr(default: T): T {
      match this
      case Some(v) => v
      case None => default
    }
  }

  /** A request in flight. Every HTTP request gets its own number. */
  type ReqId = nat

  /** A clock reading, in nanoseconds. */
  type Time = int

  const SECOND: int := 1_000_000_000

  /** A text column is nullable, and an empty string is stored as NULL. */
  type NullText = Option<string>

  function StringToSql(s: string): (r: NullText)
    ensures r.None? <==> s == ""
    ensures TextOf(r) == s
  {
    if s == "" then None else Some(s)
  }

  /** The string a nullable column reads back as: NULL and empty are the same. */
  function TextOf(t: NullText): string {
    match t
    case None => ""
    case Some(s) => s
  }

  lemma SomeMember<T>(s: set<T>) returns (x: T)
    requires s != {}
    ensures x in s
  {
    x :| x in s;
  }
}
