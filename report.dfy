/** The one rule of the report layout kept in this model: how long process
    paths are shortened for display. */
module Report {

  /** Paths of this many characters or more are shortened. */
  const DisplayLimit: nat := 100
  /** What a shortened path ends in. */
  const Ellipsis: string := "..."

  /** The path as shown in the process table: unchanged when shorter than 100
      characters, otherwise its first 97 characters followed by "...". */
  function DisplayPath(path: string): (shown: string)
    ensures |shown| <= DisplayLimit
    ensures |path| < DisplayLimit ==> shown == path
    ensures |path| >= DisplayLimit ==>
      |shown| == DisplayLimit && shown[..DisplayLimit - |Ellipsis|] == path[..DisplayLimit - |Ellipsis|] &&
      shown[DisplayLimit - |Ellipsis|..] == Ellipsis
  {
    if |path| < DisplayLimit then path else path[..DisplayLimit - |Ellipsis|] + Ellipsis
  }

  /** Shortening a path that is already shown changes nothing. */
  lemma DisplayPathIdempotent(path: string)
    ensures DisplayPath(DisplayPath(path)) == DisplayPath(path)
  {
  }
}
