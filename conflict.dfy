/** The Conflict record: a checked path that an ignore file matches. */
module Conflicts {

  /** The line number that stands for "line not known". */
  const UnknownLine: int := -1

  datatype Conflict = Conflict(
    File: string,        // the offending path
    Pattern: string,     // the text of the matching pattern
    IgnoreFile: string,  // the ignore file, in .gitignore syntax, holding the pattern
    Line: int)           // the pattern's line in that file, or UnknownLine

  /** The default record: every text field empty and the line unknown. */
  function NewConflict(): (c: Conflict)
    ensures c.File == "" && c.Pattern == "" && c.IgnoreFile == ""
    ensures c.Line == UnknownLine
  {
    Conflict("", "", "", -1)
  }
}
