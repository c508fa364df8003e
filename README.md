# ilignore: a verified model of the check pipeline

ilignore reports the files that an ignore file in `.gitignore` syntax (by
default `.ilignore`) would exclude. The `check` command builds the pipeline.
A path source yields candidate paths. It reads them from the command-line
arguments, the standard output of a list command, or standard input. The
ignore service asks a file checker about each path and keeps the conflicts.
The conflict consumer prints one line per conflict.

This project models that pipeline in Dafny. Every Go channel becomes the
finite sequence of values sent on it before it is closed. The gitignore
matcher is an opaque function from a path to a `MatchResult`: `NoMatch`,
`Ignore` or `Include`, the last two with a position (file, line) and the
pattern text.

Modules, one per source file, plus two helper modules:

- `Wrappers`: `Option` for Go's nil pointers, and `Result` for panics and errors.
- `Text`: the Go library string functions the core uses. These are
  `strings.TrimSpace` with `unicode.IsSpace`, `strings.Fields`,
  `strings.Join`, the `bufio.ScanLines` line split, and `fmt.Sprint` on an int.
- `Conflicts` (`service/conflict.go`): the `Conflict` record and its default value.
- `Checker` (`service/check.go`): the file checker and how it turns a match into a conflict.
- `Service` (`service/ilignore.go`): the ignore service and its sequential check loop.
- `Source` (`service/source.go`): line cleaning, source selection, the git diff
  command and the command split.
- `Consumer` (`service/consumer.go`): conflict formatting and the output loop.
  The output writer and the error channel are classes whose fields the loop updates.
- `Commands` (`cmd/check.go`): configuration keys, field selection and the body of `Run`.

Notes on what the code does:

- A service has one ignore file and checks paths one after the other.
- A conflict's `IgnoreFile` is the file named in the matcher's position
  (`match.Position().File`).
- A list command that is non-empty but all white space panics. In
  `startCommand`, `strings.Fields` returns no fields, so indexing `fields[0]`
  fails. The model returns `Failure` for it (`Source.BlankCommandPanics`).
- `Consumer.Start` follows the code: a formatting error is sent on the error
  channel and the loop moves on. `formatConflict` never returns an error, so
  nothing is ever sent.

The source files do not compile together; they come from different
iterations. The model treats the boundaries between them abstractly:

- `check.go` calls `NewConflict`, while `conflict.go` defines `newConflict`.
  Both are `Conflicts.NewConflict` here.
- `NewService` passes an extra argument to `NewFileChecker`. The model passes
  only the ignore file.
- In `cmd/check.go`, `NewService` receives a slice and an int, and
  `CheckFiles` is expected to return a channel. `Commands.Run` therefore takes
  an already built sequential service and passes the conflict sequence to the
  consumer.

## Model

| member | source | states |
|---|---|---|
| Conflicts.NewConflict | service/conflict.go:3-16 | the default record has empty File, Pattern and IgnoreFile, and Line -1, which means the line is unknown |
| Checker.NewFileChecker | service/check.go:16-22 | fails, standing for the panic, exactly when the ignore file cannot be loaded, and carries the load error; otherwise it returns a checker over the loaded matcher |
| Checker.CheckFile | service/check.go:29-49 | never returns an error; gives a conflict exactly on an Ignore verdict; the conflict's File is the queried path, IgnoreFile and Line are the match position, and Pattern is the matched pattern text; NoMatch and Include give no conflict |
| Service.NewService | service/ilignore.go:12-18 | fails exactly when the checker cannot be built; otherwise the service is not concurrent and its checker is the ignore file's checker on every path |
| Service.LogError | service/ilignore.go:82-86 | a checker error produces exactly one log line; no error produces none |
| Service.CheckOne | service/ilignore.go:67-72 | the conflict the checker returned is passed on even when an error came with it; the error is only logged |
| Service.CheckEach | service/ilignore.go:42-51 | the sequential loop returns exactly the non-nil conflicts of the checks, in input order, together with the log of the errors |
| Service.CheckFiles | service/ilignore.go:26-30 | CheckFiles returns what checkFiles returns for the same paths |
| Service.CollectedLength | service/ilignore.go:44-51 | each path contributes at most one conflict, and empty input gives no conflicts |
| Service.CollectedAppend | service/ilignore.go:46-50 | checking a concatenation of paths collects the first part's conflicts, then the second part's |
| Service.CollectedMembership | service/ilignore.go:46-50 | a conflict is collected exactly when the check of some input path returned it |
| Service.ErrorLogEmpty | service/ilignore.go:69-71 | a checker that never errs leaves the log empty |
| Service.NewServiceConflicts | service/ilignore.go:12-51 | for a service built from an ignore file, nothing is logged, and the conflicts are exactly the records of the input paths the matcher ignores |
| Service.GitCommitFilesCommandIsCachedDiff | service/ilignore.go:9 | GIT_COMMIT_FILES_COMMAND is the git diff command with --cached and the default filter |
| Source.ReadLines | service/source.go:31-50 | sends the cleaned lines (the non-blank trimmed lines with continueOnEmpty, otherwise the trimmed lines before the first blank one), and count is the number sent |
| Source.TakeNonBlankIsPrefix | service/source.go:38-44 | without continueOnEmpty the output is an input prefix free of blanks that ends at the first blank line or at the end |
| Source.NonBlankAppend | service/source.go:38-41 | skipping blank lines distributes over concatenation, so the order is kept and later lines are still sent |
| Source.NonBlankMembers | service/source.go:38-45 | with continueOnEmpty, a string is sent exactly when it is a non-empty trimmed line |
| Source.CleanedWellFormed | service/source.go:37-45 | every path sent is non-empty and has no leading or trailing white space |
| Source.ProducedWellFormed | service/source.go:58-68 | the same holds for every source variant, including a command's output |
| Source.StartCommand | service/source.go:79-81 | the program followed by the arguments is exactly the command's whitespace-separated fields; it panics exactly when the command has no fields |
| Source.NewFileSource | service/source.go:90-107 | a non-empty list is chosen first, then a non-empty command, then standard input with continueOnEmpty false |
| Source.FixedListRoundTrip | service/source.go:94-97 | a fixed list of non-empty, trimmed, newline-free paths read with continueOnEmpty is sent exactly as given |
| Source.StdinStopsAtBlank | service/source.go:101-103 | standard input is read only up to its first blank line, whatever continueOnEmpty the caller passed |
| Source.BlankCommandPanics | service/source.go:98-100 | a command that is non-empty but all white space is chosen and then panics |
| Source.NewGitDiffFileSource | service/source.go:109-121 | the git diff source is a command source with continueOnEmpty false |
| Source.GitDiffCommandLine | service/source.go:109-119 | the git diff command runs git with the arguments diff, --cached when cached, --name-only and --diff-filter=, where the filter defaults to ACMD, for a filter without white space |
| Text.TrimSpaceSpec | service/source.go:37 | a trimmed line is the input minus a white-space prefix and suffix, and it starts and ends with a non-space character |
| Text.TrimSpaceEmpty | service/source.go:37-38 | a line trims to the empty string exactly when it is all white space, so the blank test on the trimmed line detects a blank line |
| Text.FieldsOfJoin | service/source.go:80 | splitting non-empty, space-free words joined by single blanks gives the words back |
| Text.ScanLinesOfJoin | service/source.go:96 | scanning non-empty, newline-free paths joined by newlines gives the paths back |
| Text.IntToStringRoundTrip | service/consumer.go:66 | Line is rendered as a signed decimal integer that reads back as the same int, -1 included |
| Consumer.EffectiveFields | service/consumer.go:50-52 | the effective field selection is never empty |
| Consumer.FormatConflict | service/consumer.go:47-74 | the loop builds the format and arguments that render the conflict's selected fields, and never returns an error |
| Consumer.FormattedJoinsValues | service/consumer.go:54-72 | when every name is one of ALL, the output is the selected values in the caller's order joined by ", ", with no leading or trailing separator |
| Consumer.FormattedLength | service/consumer.go:55-57 | n fields give the n values and exactly n-1 separators |
| Consumer.FormattedDefault | service/consumer.go:45-52 | an empty selection renders File, IgnoreFile, Line and Pattern in that order |
| Consumer.FormattedFileOnly | service/consumer.go:59-60 | a ["File"] selection renders just the path |
| Consumer.FormattedAnyFields | service/consumer.go:54-72 | for any selection, known names or not, each name appends at most one argument; the output is the appended arguments in order, then %!s(MISSING) once per name that appended none, joined by ", " |
| Consumer.SprintfVerbsMissing | service/consumer.go:72 | n %s verbs with at most n arguments render the arguments in order, then %!s(MISSING) for each verb left over, joined by ", " |
| Consumer.FormattedUnknownField | service/consumer.go:54-72 | example: the selection ["Name", "File"] renders as the path followed by ", %!s(MISSING)" |
| Consumer.RenderLines | service/consumer.go:34-41 | when no rendering contains a newline, read back line by line, the output gives exactly one rendering per conflict, in arrival order |
| Consumer.Start | service/consumer.go:33-43 | writes each conflict's rendering plus a newline, in arrival order; sends nothing on the error channel and closes it |
| Consumer.NewConflictConsumer | service/consumer.go:21-31 | panics exactly when the conflicts channel is nil, before writing anything or touching a given error channel; otherwise creates an error channel when none is given, writes every conflict and returns that channel closed |
| Consumer.NewConsoleConflictConsumer | service/consumer.go:17-19 | writes every conflict to standard output and returns a new, closed, empty error channel |
| Commands.ConfigKeyClosedForm | cmd/check.go:86-91 | the key for the command path root, c1..cn is "c1." + ... + "cn." + flag, and it is "" for the root |
| Commands.RootNameNotInKey | cmd/check.go:86-90 | the root command's name never affects a key |
| Commands.ChildKey | cmd/check.go:88 | a direct child of the root has the key name + "." + flag |
| Commands.KeyEndsWithFlag | cmd/check.go:88 | the key of any command below the root ends with "." + flag |
| Commands.CheckCommandKeys | cmd/check.go:56 | the check command's flags have the keys check.input, check.ignore, check.name-only and check.concurrency |
| Commands.SelectFields | cmd/check.go:45-49 | with name-only, every conflict renders as just its path; otherwise it renders as with all fields |
| Commands.Run | cmd/check.go:36-53 | a panicking source writes nothing; otherwise the output is the rendering of the service's conflicts for the chosen paths, and the error channel is closed and empty |
| Commands.NameOnlyListsIgnored | cmd/check.go:36-53 | with name-only, the output lists the ignored input paths one per line, in input order |

## Left out

- Goroutines, channels and WaitGroups. Each channel is the finite sequence
  sent on it, and each producer or consumer runs to completion.
- The concurrent branch of `checkFiles` and `checkFileToChannel`. Their results
  channel has no reader, so the first conflict sent blocks forever.
- Consumer.Start: requires an error channel that is not yet closed. Closing
  a closed channel panics in Go at the end of `start`, after all output is
  written; that double-close panic is not modelled.
- Consumer.NewConflictConsumer: requires that a given error channel is not
  yet closed, for the same reason; the only caller passes none.
- `Service.CheckEach` and `Service.CheckFiles` require a non-concurrent service.
  `NewService` always builds one.
- `CheckFilesFromStdin`, `CheckCommit` and `AddPatterns` are not modelled. The
  first two range over a nil channel and block forever. The third only prints
  a message.
- Process execution: `cmd.Start`, `cmd.Wait`, exit codes and their log lines.
  Running a command line is a parameter (`Environment.run`). It returns the
  command's standard output, or nothing when the command cannot start. A
  non-zero exit code does not change the paths already read.
- The contents of standard input are a parameter (`Environment.stdin`).
- Reader errors part way through input (`scanner.Err`) are not modelled, nor
  the scanner's 64 KB token limit. `bufio.ScanLines` removes a `\r` before a
  newline; that is not modelled either, and `TrimSpace` removes it anyway.
- Text is a sequence of decoded characters, not UTF-8 bytes. White space is
  Unicode's White_Space set, as in `unicode.IsSpace`.
- The gitignore matcher (globs, precedence, negation) and the parsing of the
  ignore file come from `github.com/denormal/go-gitignore`. Each is a function
  parameter.
- `fmt.Sprintf` is modelled only for formats made of `%s` verbs and literal
  text, which is all that `formatConflict` builds.
- All logging: `slog` calls and the `fmt.Fprintf(os.Stderr, …)` diagnostics,
  including the message for an Include verdict. The only log modelled is
  `logError`'s output, because it is how a checker error surfaces.
- CLI, configuration and startup: `cmd/root.go`, flag registration and
  `viper` binding, `main.go`. `Commands.Run` receives the flag values and a
  built service as parameters.
