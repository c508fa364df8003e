/**
 * Path sources: where the paths to check come from (a fixed list, the
 * output of a command, or standard input), and how their lines are
 * cleaned. The output channel of a source is the finite sequence of the
 * paths it sends before closing it.
 */
module Source {
  import opened Wrappers
  import opened Text

  /** The reader a source scans: an in-memory text or the process's standard input. */
  datatype Reader = TextReader(text: string) | Stdin

  datatype FileSource =
    | ReaderFileSource(reader: Reader, continueOnEmpty: bool)
    | CommandFileSource(command: string, continueOnEmpty: bool)

  /** A program and its arguments, as exec.Command receives them. */
  datatype CommandLine = CommandLine(program: string, args: seq<string>)

  /**
   * What lies outside the model: the text on standard input, and the
   * standard output of running a command line (None when the command cannot
   * be started).
   */
  datatype Environment = Environment(stdin: string, run: CommandLine -> Option<string>)

  /** Every line with its surrounding white space removed. */
  function Trimmed(lines: seq<string>): seq<string> {
    seq(|lines|, k requires 0 <= k < |lines| => TrimSpace(lines[k]))
  }

  /** The non-empty strings of xs, in order. */
  function NonBlank(xs: seq<string>): seq<string> {
    if xs == [] then []
    else NonBlank(xs[..|xs| - 1]) + (if xs[|xs| - 1] == "" then [] else [xs[|xs| - 1]])
  }

  /** The strings of xs before the first empty one. */
  function TakeNonBlank(xs: seq<string>): seq<string> {
    if xs == [] || xs[0] == "" then [] else [xs[0]] + TakeNonBlank(xs[1..])
  }

  /**
   * The paths readLinesFromReader sends for the scanned lines: the trimmed
   * lines, where a blank one is skipped when continueOnEmpty holds and ends
   * the reading otherwise.
   */
  function Cleaned(lines: seq<string>, continueOnEmpty: bool): seq<string> {
    if continueOnEmpty then NonBlank(Trimmed(lines)) else TakeNonBlank(Trimmed(lines))
  }

  /**
   * readLinesFromReader: trims each scanned line, skips or stops at a blank
   * one, sends the others and counts them. A line trims to "" exactly when
   * it is all white space (Text.TrimSpaceEmpty), so the test on the trimmed
   * line is the test for a blank line.
   */
  method ReadLines(lines: seq<string>, continueOnEmpty: bool) returns (output: seq<string>, count: nat)
    ensures output == Cleaned(lines, continueOnEmpty)
    ensures count == |output|
  {
    ghost var ts := Trimmed(lines);
    output, count := [], 0;
    var i := 0;
    while i < |lines|
      invariant 0 <= i <= |lines|
      invariant count == |output|
      invariant continueOnEmpty ==> output == NonBlank(ts[..i])
      invariant !continueOnEmpty ==> output == ts[..i]
      invariant !continueOnEmpty ==> forall k :: 0 <= k < i ==> ts[k] != ""
    {
      var line := TrimSpace(lines[i]);
      assert line == ts[i];
      NonBlankStep(ts, i);
      if line == "" {
        if continueOnEmpty {
          i := i + 1;
          continue;
        } else {
          TakeNonBlankPrefix(ts, i);
          break;
        }
      }
      output := output + [line];
      count := count + 1;
      PrefixStep(ts, i);
      i := i + 1;
    }
    if i == |lines| {
      assert ts[..i] == ts;
      if !continueOnEmpty {
        TakeNonBlankPrefix(ts, i);
      }
    }
  }

  lemma PrefixStep<T>(xs: seq<T>, i: nat)
    requires i < |xs|
    ensures xs[..i + 1] == xs[..i] + [xs[i]]
  {
  }

  lemma NonBlankStep(xs: seq<string>, i: nat)
    requires i < |xs|
    ensures NonBlank(xs[..i + 1]) == NonBlank(xs[..i]) + (if xs[i] == "" then [] else [xs[i]])
  {
    assert xs[..i + 1][..i] == xs[..i];
  }

  /** TakeNonBlank is the prefix that ends at the first empty string, or at the end. */
  lemma {:induction false} TakeNonBlankPrefix(xs: seq<string>, i: nat)
    requires i <= |xs|
    requires forall k :: 0 <= k < i ==> xs[k] != ""
    requires i == |xs| || xs[i] == ""
    ensures TakeNonBlank(xs) == xs[..i]
  {
    if i > 0 {
      TakeNonBlankPrefix(xs[1..], i - 1);
      assert [xs[0]] + xs[1..][..i - 1] == xs[..i];
    }
  }

  /** TakeNonBlank(xs) is a prefix of xs, free of empty strings, cut before an empty string or at the end. */
  lemma {:induction false} TakeNonBlankIsPrefix(xs: seq<string>)
    ensures var n := |TakeNonBlank(xs)|;
      && n <= |xs| && TakeNonBlank(xs) == xs[..n]
      && (forall k :: 0 <= k < n ==> xs[k] != "")
      && (n == |xs| || xs[n] == "")
  {
    if xs != [] && xs[0] != "" {
      TakeNonBlankIsPrefix(xs[1..]);
      assert [xs[0]] + xs[1..][..|TakeNonBlank(xs[1..])|] == xs[..|TakeNonBlank(xs)|];
    }
  }

  /** Skipping empty strings distributes over concatenation, so it keeps the input order. */
  lemma {:induction false} NonBlankAppend(a: seq<string>, b: seq<string>)
    ensures NonBlank(a + b) == NonBlank(a) + NonBlank(b)
    decreases |b|
  {
    if b == [] {
      assert a + b == a;
    } else {
      var b' := b[..|b| - 1];
      assert (a + b)[..|a + b| - 1] == a + b';
      assert (a + b)[|a + b| - 1] == b[|b| - 1];
      NonBlankAppend(a, b');
    }
  }

  /** NonBlank keeps exactly the non-empty strings of its input. */
  lemma {:induction false} NonBlankMembers(xs: seq<string>, x: string)
    ensures x in NonBlank(xs) <==> x in xs && x != ""
  {
    if xs != [] {
      var init := xs[..|xs| - 1];
      NonBlankMembers(init, x);
      assert xs == init + [xs[|xs| - 1]];
    }
  }

  /** A sequence without empty strings is kept whole. */
  lemma {:induction false} NonBlankOfNonBlank(xs: seq<string>)
    requires forall k :: 0 <= k < |xs| ==> xs[k] != ""
    ensures NonBlank(xs) == xs
  {
    if xs != [] {
      NonBlankOfNonBlank(xs[..|xs| - 1]);
    }
  }

  /** Every path a reader sends is non-empty and has no surrounding white space. */
  lemma CleanedWellFormed(lines: seq<string>, continueOnEmpty: bool, p: string)
    requires p in Cleaned(lines, continueOnEmpty)
    ensures p != "" && IsTrimmed(p)
  {
    var ts := Trimmed(lines);
    if continueOnEmpty {
      NonBlankMembers(ts, p);
    } else {
      TakeNonBlankIsPrefix(ts);
      var k :| 0 <= k < |TakeNonBlank(ts)| && TakeNonBlank(ts)[k] == p;
      assert p == ts[k];
    }
    var k :| 0 <= k < |ts| && ts[k] == p;
    TrimSpaceSpec(lines[k]);
  }

  /**
   * startCommand: the first white-space separated field is the program and
   * the others are its arguments; a command without fields makes the
   * indexing panic.
   */
  function StartCommand(command: string): (r: Result<CommandLine>)
    ensures r.Failure? <==> AllSpace(command)
    ensures r.Success? ==> [r.value.program] + r.value.args == Fields(command)
  {
    FieldsEmpty(command);
    var fields := Fields(command);
    if fields == [] then Failure("index out of range [0] with length 0")
    else Success(CommandLine(fields[0], fields[1..]))
  }

  /**
   * The paths a started source sends before it closes its channel. A
   * command that cannot be started sends nothing; a command without fields
   * panics (the Failure).
   */
  function Produced(src: FileSource, env: Environment): Result<seq<string>> {
    match src
    case ReaderFileSource(TextReader(text), continueOnEmpty) => Success(Cleaned(ScanLines(text), continueOnEmpty))
    case ReaderFileSource(Stdin, continueOnEmpty) => Success(Cleaned(ScanLines(env.stdin), continueOnEmpty))
    case CommandFileSource(command, continueOnEmpty) =>
      var commandLine :- StartCommand(command);
      match env.run(commandLine)
      case None => Success([])
      case Some(stdout) => Success(Cleaned(ScanLines(stdout), continueOnEmpty))
  }

  /** Every path any source sends is non-empty and has no surrounding white space. */
  lemma ProducedWellFormed(src: FileSource, env: Environment, p: string)
    requires Produced(src, env).Success? && p in Produced(src, env).value
    ensures p != "" && IsTrimmed(p)
  {
    match src
    case ReaderFileSource(TextReader(text), coe) => CleanedWellFormed(ScanLines(text), coe, p);
    case ReaderFileSource(Stdin, coe) => CleanedWellFormed(ScanLines(env.stdin), coe, p);
    case CommandFileSource(command, coe) =>
      var commandLine := StartCommand(command).value;
      if env.run(commandLine).Some? {
        CleanedWellFormed(ScanLines(env.run(commandLine).value), coe, p);
      }
  }

  /**
   * NewFileSource: a non-empty list wins, then a non-empty command; otherwise
   * standard input, read up to its first blank line.
   */
  function NewFileSource(filesToCheck: seq<string>, command: string, continueOnEmpty: bool): (src: FileSource)
    ensures |filesToCheck| > 0 ==> src == ReaderFileSource(TextReader(Join(filesToCheck, "\n")), continueOnEmpty)
    ensures |filesToCheck| == 0 && command != "" ==> src == CommandFileSource(command, continueOnEmpty)
    ensures |filesToCheck| == 0 && command == "" ==> src == ReaderFileSource(Stdin, false)
  {
    if |filesToCheck| > 0 then ReaderFileSource(TextReader(Join(filesToCheck, "\n")), continueOnEmpty)
    else if command != "" then CommandFileSource(command, continueOnEmpty)
    else ReaderFileSource(Stdin, false)
  }

  /**
   * A fixed list of non-empty, trimmed, single-line paths read with
   * continueOnEmpty is sent exactly as given.
   */
  lemma FixedListRoundTrip(filesToCheck: seq<string>, command: string, env: Environment)
    requires |filesToCheck| > 0
    requires forall k :: 0 <= k < |filesToCheck| ==>
      filesToCheck[k] != "" && IsTrimmed(filesToCheck[k]) && '\n' !in filesToCheck[k]
    ensures Produced(NewFileSource(filesToCheck, command, true), env) == Success(filesToCheck)
  {
    ScanLinesOfJoin(filesToCheck);
    forall k | 0 <= k < |filesToCheck| ensures TrimSpace(filesToCheck[k]) == filesToCheck[k] {
      TrimSpaceTrimmed(filesToCheck[k]);
    }
    assert Trimmed(filesToCheck) == filesToCheck;
    NonBlankOfNonBlank(filesToCheck);
  }

  /**
   * With neither paths nor a command, standard input is read up to its first
   * blank line whatever continueOnEmpty asks for.
   */
  lemma StdinStopsAtBlank(continueOnEmpty: bool, env: Environment)
    ensures Produced(NewFileSource([], "", continueOnEmpty), env) ==
      Success(TakeNonBlank(Trimmed(ScanLines(env.stdin))))
    ensures var paths, lines := Produced(NewFileSource([], "", continueOnEmpty), env).value, ScanLines(env.stdin);
      |paths| <= |lines| && forall k :: 0 <= k < |paths| ==> paths[k] == TrimSpace(lines[k]) != ""
  {
    var lines := ScanLines(env.stdin);
    var ts := Trimmed(lines);
    TakeNonBlankIsPrefix(ts);
    var paths := TakeNonBlank(ts);
    forall k | 0 <= k < |paths| ensures paths[k] == TrimSpace(lines[k]) != "" {
      assert paths[k] == ts[k];
    }
  }

  /** A command that is non-empty but all white space is chosen, and then panics. */
  lemma BlankCommandPanics(command: string, continueOnEmpty: bool, env: Environment)
    requires command != "" && AllSpace(command)
    ensures Produced(NewFileSource([], command, continueOnEmpty), env).Failure?
  {
  }

  /** The default diff filter: added, copied, modified and deleted entries. */
  const DefaultDiffFilter: string := "ACMD"

  function EffectiveDiffFilter(diffFilter: string): string {
    if diffFilter == "" then DefaultDiffFilter else diffFilter
  }

  /** The command GIT_DIFF_COMMAND_TEMPLATE renders for the cached flag and the filter. */
  function GitDiffCommand(cached: bool, diffFilter: string): string {
    "git diff" + (if cached then " --cached" else "") + " --name-only --diff-filter=" + EffectiveDiffFilter(diffFilter)
  }

  /** NewGitDiffFileSource: a command source for the git diff command, stopping at a blank line. */
  function NewGitDiffFileSource(cached: bool, diffFilter: string): (src: FileSource)
    ensures src == CommandFileSource(GitDiffCommand(cached, diffFilter), false)
  {
    NewFileSource([], GitDiffCommand(cached, diffFilter), false)
  }

  /** The words of the git diff command, in order. */
  function GitDiffWords(cached: bool, diffFilter: string): seq<string> {
    ["git", "diff"] + (if cached then ["--cached"] else []) +
    ["--name-only", "--diff-filter=" + EffectiveDiffFilter(diffFilter)]
  }

  lemma GitDiffCommandIsJoin(cached: bool, diffFilter: string)
    ensures GitDiffCommand(cached, diffFilter) == Join(GitDiffWords(cached, diffFilter), " ")
  {
    var f := EffectiveDiffFilter(diffFilter);
    var opt := "--diff-filter=" + f;
    if cached {
      assert GitDiffWords(cached, diffFilter) == ["git", "diff", "--cached", "--name-only", opt];
      JoinFive("git", "diff", "--cached", "--name-only", opt, " ");
      var prefix := "git" + " " + "diff" + " " + "--cached" + " " + "--name-only" + " ";
      ConcatAssoc(prefix, "--diff-filter=", f);
      CachedWords();
    } else {
      assert GitDiffWords(cached, diffFilter) == ["git", "diff", "--name-only", opt];
      JoinFour("git", "diff", "--name-only", opt, " ");
      var prefix := "git" + " " + "diff" + " " + "--name-only" + " ";
      ConcatAssoc(prefix, "--diff-filter=", f);
      UncachedWords();
    }
  }

  lemma ConcatAssoc(x: string, y: string, z: string)
    ensures x + (y + z) == x + y + z
  {
  }

  lemma CachedWords()
    ensures "git" + " " + "diff" + " " + "--cached" + " " + "--name-only" + " " + "--diff-filter="
         == "git diff" + " --cached" + " --name-only --diff-filter="
  {
  }

  lemma UncachedWords()
    ensures "git" + " " + "diff" + " " + "--name-only" + " " + "--diff-filter="
         == "git diff" + "" + " --name-only --diff-filter="
  {
  }

  lemma GitDiffWordsNoSpace(cached: bool, diffFilter: string)
    requires NoSpace(diffFilter)
    ensures var words := GitDiffWords(cached, diffFilter);
      forall k :: 0 <= k < |words| ==> words[k] != [] && NoSpace(words[k])
  {
    var f := EffectiveDiffFilter(diffFilter);
    var opt := "--diff-filter=" + f;
    forall k | 0 <= k < |opt| ensures !IsSpace(opt[k]) {
      if k >= 14 { assert opt[k] == f[k - 14]; }
    }
  }

  /**
   * The git diff command runs the program git with the arguments diff, then
   * --cached when asked for, then --name-only and the filter option.
   */
  lemma GitDiffCommandLine(cached: bool, diffFilter: string)
    requires NoSpace(diffFilter)
    ensures StartCommand(GitDiffCommand(cached, diffFilter)) ==
      Success(CommandLine("git", ["diff"] + (if cached then ["--cached"] else []) +
                                 ["--name-only", "--diff-filter=" + EffectiveDiffFilter(diffFilter)]))
  {
    var words := GitDiffWords(cached, diffFilter);
    GitDiffCommandIsJoin(cached, diffFilter);
    GitDiffWordsNoSpace(cached, diffFilter);
    FieldsOfJoin(words);
    assert words[1..] == ["diff"] + (if cached then ["--cached"] else []) +
                         ["--name-only", "--diff-filter=" + EffectiveDiffFilter(diffFilter)];
  }

}
