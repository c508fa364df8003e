/**
 * The ignore service: a file checker applied to every path of a finite
 * sequence of paths (the files channel), collecting the conflicts.
 */
module Service {
  import opened Wrappers
  import opened Conflicts
  import opened Checker
  import Source

  /** The command that lists the files staged for the next commit. */
  const GitCommitFilesCommand: string := "git diff --cached --name-only --diff-filter=ACMD"

  /** The default ignore file. */
  const IgnoreFile: string := ".ilignore"

  /** The one operation of the FileChecker interface. */
  type FileChecker = string -> CheckResult

  datatype IgnoreService = IgnoreService(fileChecker: FileChecker, concurrency: bool)

  /**
   * Builds a sequential service around the checker for one ignore file; a
   * checker that cannot be built (its panic) is the Failure.
   */
  function NewService(ignoreFile: string, newFromFile: string -> Result<GitIgnore>): (r: Result<IgnoreService>)
    ensures r.Failure? <==> newFromFile(ignoreFile).Failure?
    ensures r.Success? ==> !r.value.concurrency
    ensures r.Success? ==>
      forall file :: r.value.fileChecker(file) == CheckFile(DenormalFileChecker(newFromFile(ignoreFile).value), file)
  {
    var checker :- NewFileChecker(ignoreFile, newFromFile);
    Success(IgnoreService(file => CheckFile(checker, file), false))
  }

  /** What logError writes for a checker error: one line, or nothing. */
  function LogError(err: Option<string>): (log: seq<string>)
    ensures err.None? <==> log == []
    ensures |log| <= 1
  {
    match err
    case None => []
    case Some(e) => ["Error: " + e]
  }

  /** The service's checkFile: the checker's conflict and the log lines of its error. */
  datatype Checked = Checked(conflict: Option<Conflict>, log: seq<string>)

  /**
   * An error from the checker is only logged: the conflict that came back
   * with it is returned all the same.
   */
  function CheckOne(s: IgnoreService, file: string): (r: Checked)
    ensures r.conflict == s.fileChecker(file).conflict
    ensures r.log == [] <==> s.fileChecker(file).err.None?
  {
    var result := s.fileChecker(file);
    Checked(result.conflict, LogError(result.err))
  }

  /** The non-nil conflicts of the checks of files, in input order. */
  function Collected(s: IgnoreService, files: seq<string>): seq<Conflict> {
    if files == [] then []
    else Collected(s, files[..|files| - 1]) + OptionToSeq(CheckOne(s, files[|files| - 1]).conflict)
  }

  /** The log lines written while checking files, in input order. */
  function ErrorLog(s: IgnoreService, files: seq<string>): seq<string> {
    if files == [] then []
    else ErrorLog(s, files[..|files| - 1]) + CheckOne(s, files[|files| - 1]).log
  }

  /**
   * The sequential branch of checkFiles: checks the paths one after the
   * other and appends each non-nil conflict.
   */
  method CheckEach(s: IgnoreService, filesToCheck: seq<string>) returns (conflicts: seq<Conflict>, log: seq<string>)
    requires !s.concurrency
    ensures conflicts == Collected(s, filesToCheck)
    ensures log == ErrorLog(s, filesToCheck)
  {
    conflicts, log := [], [];
    var i := 0;
    while i < |filesToCheck|
      invariant 0 <= i <= |filesToCheck|
      invariant conflicts == Collected(s, filesToCheck[..i])
      invariant log == ErrorLog(s, filesToCheck[..i])
    {
      var file := filesToCheck[i];
      var checked := CheckOne(s, file);
      log := log + checked.log;
      if checked.conflict.Some? {
        conflicts := conflicts + [checked.conflict.value];
      }
      assert filesToCheck[..i + 1][..i] == filesToCheck[..i];
      i := i + 1;
    }
    assert filesToCheck[..i] == filesToCheck;
  }

  /** CheckFiles: the service's entry point, which is checkFiles on the same paths. */
  method CheckFiles(s: IgnoreService, filesChannel: seq<string>) returns (conflicts: seq<Conflict>, log: seq<string>)
    requires !s.concurrency
    ensures conflicts == Collected(s, filesChannel)
    ensures log == ErrorLog(s, filesChannel)
  {
    conflicts, log := CheckEach(s, filesChannel);
  }

  /** Each path contributes at most one conflict; no paths give no conflicts. */
  lemma {:induction false} CollectedLength(s: IgnoreService, files: seq<string>)
    ensures |Collected(s, files)| <= |files|
    ensures files == [] ==> Collected(s, files) == []
  {
    if files != [] {
      CollectedLength(s, files[..|files| - 1]);
    }
  }

  /** Checking a concatenation collects the conflicts of the first part, then those of the second. */
  lemma {:induction false} CollectedAppend(s: IgnoreService, a: seq<string>, b: seq<string>)
    ensures Collected(s, a + b) == Collected(s, a) + Collected(s, b)
    decreases |b|
  {
    if b != [] {
      var b' := b[..|b| - 1];
      assert (a + b)[..|a + b| - 1] == a + b';
      assert (a + b)[|a + b| - 1] == b[|b| - 1];
      CollectedAppend(s, a, b');
    } else {
      assert a + b == a;
    }
  }

  /** A conflict is collected exactly when the check of some input path returned it. */
  lemma {:induction false} CollectedMembership(s: IgnoreService, files: seq<string>, c: Conflict)
    ensures c in Collected(s, files) <==>
      exists k :: 0 <= k < |files| && s.fileChecker(files[k]).conflict == Some(c)
  {
    if files != [] {
      var init := files[..|files| - 1];
      var last := files[|files| - 1];
      CollectedMembership(s, init, c);
      if c in Collected(s, files) {
        if c !in Collected(s, init) {
          assert s.fileChecker(files[|files| - 1]).conflict == Some(c);
        } else {
          var k :| 0 <= k < |init| && s.fileChecker(init[k]).conflict == Some(c);
          assert files[k] == init[k];
        }
      }
      if exists k :: 0 <= k < |files| && s.fileChecker(files[k]).conflict == Some(c) {
        var k :| 0 <= k < |files| && s.fileChecker(files[k]).conflict == Some(c);
        if k < |init| {
          assert init[k] == files[k];
        } else {
          assert OptionToSeq(CheckOne(s, last).conflict) == [c];
        }
      }
    }
  }

  /** One log line per checker error, so an error-free checker logs nothing. */
  lemma {:induction false} ErrorLogEmpty(s: IgnoreService, files: seq<string>)
    requires forall file :: s.fileChecker(file).err.None?
    ensures ErrorLog(s, files) == []
  {
    if files != [] {
      ErrorLogEmpty(s, files[..|files| - 1]);
    }
  }

  /**
   * For a service built by NewService, the collected conflicts are exactly the
   * records of the paths the ignore file ignores, and nothing is logged.
   */
  lemma NewServiceConflicts(ignoreFile: string, newFromFile: string -> Result<GitIgnore>, files: seq<string>, c: Conflict)
    requires NewService(ignoreFile, newFromFile).Success?
    ensures var s := NewService(ignoreFile, newFromFile).value;
      && ErrorLog(s, files) == []
      && (c in Collected(s, files) <==>
          exists k :: 0 <= k < |files| && newFromFile(ignoreFile).value(files[k]) == Ignore(Position(c.IgnoreFile, c.Line), c.Pattern) && c.File == files[k])
  {
    var s := NewService(ignoreFile, newFromFile).value;
    var m := newFromFile(ignoreFile).value;
    ErrorLogEmpty(s, files);
    CollectedMembership(s, files, c);
    forall k | 0 <= k < |files|
      ensures s.fileChecker(files[k]).conflict == Some(c) <==>
        (m(files[k]) == Ignore(Position(c.IgnoreFile, c.Line), c.Pattern) && c.File == files[k])
    {
      assert s.fileChecker(files[k]) == CheckFile(DenormalFileChecker(m), files[k]);
    }
  }

  /** The staged-files command is the git diff command with --cached and the default filter. */
  lemma GitCommitFilesCommandIsCachedDiff()
    ensures Source.GitDiffCommand(true, "") == GitCommitFilesCommand
  {
    // The constant is compared in three short pieces; one long literal
    // comparison is costly for the solver.
    CachedPrefixLiteral();
    OptionsLiteral();
    FilterLiteral();
  }

  lemma CachedPrefixLiteral()
    ensures "git diff" + " --cached" == "git diff --cached"
  {
  }

  lemma OptionsLiteral()
    ensures "git diff --cached" + " --name-only --diff-filter=" == "git diff --cached --name-only --diff-filter="
  {
  }

  lemma FilterLiteral()
    ensures "git diff --cached --name-only --diff-filter=" + "ACMD" == GitCommitFilesCommand
  {
  }
}
