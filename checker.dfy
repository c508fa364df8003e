/**
 * The file checker: one parsed ignore file, asked about one path at a time.
 * The gitignore matcher itself (globs, precedence, negation) is opaque: it
 * is a function from a path to the match it reports.
 */
module Checker {
  import opened Wrappers
  import opened Conflicts

  /** The default name of the ignore file. */
  const File: string := ".ilignore"

  /** Where a pattern stands: its ignore file and its line there. */
  datatype Position = Position(File: string, Line: int)

  /**
   * The matcher's answer for a path: no pattern matches, the last matching
   * pattern ignores the path, or it is a negated pattern that includes it.
   */
  datatype MatchResult =
    | NoMatch
    | Ignore(position: Position, pattern: string)
    | Include(position: Position, pattern: string)

  /** A parsed ignore file, seen only through its matcher. */
  type GitIgnore = string -> MatchResult

  /** The answer of a file checker: an optional conflict and an optional error. */
  datatype CheckResult = CheckResult(conflict: Option<Conflict>, err: Option<string>)

  datatype DenormalFileChecker = DenormalFileChecker(ignore: GitIgnore)

  /**
   * Builds the checker for one ignore file. Loading the file is outside the
   * model: newFromFile gives its outcome, and a load error makes the
   * constructor panic, which is the Failure here.
   */
  function NewFileChecker(ignoreFile: string, newFromFile: string -> Result<GitIgnore>): (r: Result<DenormalFileChecker>)
    ensures r.Failure? <==> newFromFile(ignoreFile).Failure?
    ensures r.Failure? ==> r.error == newFromFile(ignoreFile).error
    ensures r.Success? ==> r.value.ignore == newFromFile(ignoreFile).value
  {
    var ignore :- newFromFile(ignoreFile);
    Success(DenormalFileChecker(ignore))
  }

  /**
   * Checks one path: an Ignore match becomes a conflict that records the
   * path and the match's provenance, any other answer is no conflict.
   */
  function CheckFile(s: DenormalFileChecker, file: string): (r: CheckResult)
    ensures r.err == None
    ensures r.conflict.Some? <==> s.ignore(file).Ignore?
    ensures s.ignore(file).Ignore? ==>
      && r.conflict.value.File == file
      && r.conflict.value.IgnoreFile == s.ignore(file).position.File
      && r.conflict.value.Line == s.ignore(file).position.Line
      && r.conflict.value.Pattern == s.ignore(file).pattern
  {
    var m := s.ignore(file);
    var conflict :=
      if m.Ignore? then
        Some(NewConflict().(File := file, IgnoreFile := m.position.File, Line := m.position.Line, Pattern := m.pattern))
      else
        None;
    CheckResult(conflict, None)
  }
}
