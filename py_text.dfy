/** Python values and `str` operations that the host report relies on, as they
    behave on a POSIX host. */
module PyText {

  /** A Python value that may be `None`. */
  datatype Option<+T> = None | Some(value: T)

  /** Truthiness of an optional `str`: `None` and `""` are false. */
  predicate TruthyStr(s: Option<string>) {
    s.Some? && s.value != ""
  }

  /** Truthiness of an optional list: `None` and `[]` are false. */
  predicate TruthyList<T>(l: Option<seq<T>>) {
    l.Some? && l.value != []
  }

  /** `s.startswith(prefix)` */
  predicate StartsWith(s: string, prefix: string) {
    |prefix| <= |s| && s[..|prefix|] == prefix
  }

  /** `os.path.isabs(s)` on POSIX: the path begins with a slash. */
  predicate IsAbs(s: string) {
    StartsWith(s, "/")
  }

  /** How a value is rendered inside an f-string: `None` prints as `None`. */
  function Format(s: Option<string>): string {
    match s
    case Some(v) => v
    case None => "None"
  }

  /** Sum of the lengths of the parts. */
  function TotalLength(parts: seq<string>): nat {
    if parts == [] then 0 else |parts[0]| + TotalLength(parts[1..])
  }

  /** `sep.join(parts)`: the parts, in order, with `sep` between neighbours. */
  function Join(sep: string, parts: seq<string>): (r: string)
    ensures parts == [] ==> r == ""
    ensures parts != [] ==> StartsWith(r, parts[0])
    ensures parts != [] ==> |r| == TotalLength(parts) + (|parts| - 1) * |sep|
  {
    if parts == [] then ""
    else if |parts| == 1 then parts[0]
    else parts[0] + sep + Join(sep, parts[1..])
  }

  /** With a non-empty separator, a join is empty exactly when there is nothing
      to join or the only part is empty. */
  lemma JoinEmpty(sep: string, parts: seq<string>)
    requires sep != ""
    ensures Join(sep, parts) == "" <==> parts == [] || parts == [""]
  {
  }
}
