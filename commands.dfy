/**
 * The check command: the configuration keys of its flags and the pipeline
 * its Run function wires together (path source, service, consumer).
 * A command is the sequence of the names on its path from the root command.
 */
module Commands {
  import opened Wrappers
  import opened Checker
  import opened Service
  import opened Source
  import opened Consumer

  const ListFilesFlag: string := "input"
  const IgnoreFileFlag: string := "ignore"
  const NameOnlyFlag: string := "name-only"
  const ConcurrencyFlag: string := "concurrency"

  /**
   * configKey: the configuration key of a flag of a command. The root
   * command has the empty key; any other command prefixes the key of its
   * parent, taken for the empty flag, to its own name, a dot and the flag.
   */
  function ConfigKey(cmd: seq<string>, flag: string): string
    requires |cmd| > 0
    decreases |cmd|
  {
    if |cmd| > 1 then ConfigKey(cmd[..|cmd| - 1], "") + cmd[|cmd| - 1] + "." + flag else ""
  }

  /** Each name followed by a dot, in order. */
  function Dotted(names: seq<string>): string {
    if names == [] then "" else Dotted(names[..|names| - 1]) + names[|names| - 1] + "."
  }

  /**
   * The key of a flag of the command root, c1, ..., cn is "c1." + ... + "cn."
   * followed by the flag, and the empty string for the root itself.
   */
  lemma {:induction false} ConfigKeyClosedForm(cmd: seq<string>, flag: string)
    requires |cmd| > 0
    ensures ConfigKey(cmd, flag) == if |cmd| == 1 then "" else Dotted(cmd[1..]) + flag
    decreases |cmd|
  {
    if |cmd| > 1 {
      var parent := cmd[..|cmd| - 1];
      ConfigKeyClosedForm(parent, "");
      assert cmd[1..][..|cmd| - 2] == parent[1..];
      if |parent| == 1 {
        assert Dotted(cmd[1..]) == cmd[|cmd| - 1] + "." by {
          assert cmd[1..][..0] == [];
        }
      } else {
        assert ConfigKey(parent, "") == Dotted(parent[1..]);
      }
    }
  }

  /** The name of the root command never takes part in a key. */
  lemma RootNameNotInKey(root1: string, root2: string, names: seq<string>, flag: string)
    ensures ConfigKey([root1] + names, flag) == ConfigKey([root2] + names, flag)
  {
    ConfigKeyClosedForm([root1] + names, flag);
    ConfigKeyClosedForm([root2] + names, flag);
    assert ([root1] + names)[1..] == names == ([root2] + names)[1..];
  }

  /** The key of a direct child of the root is its name, a dot and the flag. */
  lemma ChildKey(root: string, name: string, flag: string)
    ensures ConfigKey([root, name], flag) == name + "." + flag
  {
    assert [root, name][..1] == [root];
  }

  /** The key of any command below the root ends with a dot and the flag. */
  lemma KeyEndsWithFlag(cmd: seq<string>, flag: string)
    requires |cmd| > 1
    ensures var key := ConfigKey(cmd, flag);
      |key| > |flag| && key[|key| - |flag| - 1..] == "." + flag
  {
    ConfigKeyClosedForm(cmd, flag);
    var names := cmd[1..];
    var d := Dotted(names);
    assert d == Dotted(names[..|names| - 1]) + names[|names| - 1] + ".";
    var key := d + flag;
    assert key[|key| - |flag| - 1..] == d[|d| - 1..] + flag;
  }

  /** The keys of the check command's flags. */
  lemma CheckCommandKeys()
    ensures ConfigKey(["ilignore", "check"], ListFilesFlag) == "check.input"
    ensures ConfigKey(["ilignore", "check"], IgnoreFileFlag) == "check.ignore"
    ensures ConfigKey(["ilignore", "check"], NameOnlyFlag) == "check.name-only"
    ensures ConfigKey(["ilignore", "check"], ConcurrencyFlag) == "check.concurrency"
  {
    ChildKey("ilignore", "check", ListFilesFlag);
    ChildKey("ilignore", "check", IgnoreFileFlag);
    ChildKey("ilignore", "check", NameOnlyFlag);
    ChildKey("ilignore", "check", ConcurrencyFlag);
  }

  /** The fields Run selects: only File with the name-only flag, otherwise none, which means all. */
  function SelectFields(nameOnly: bool): (fields: seq<string>)
    ensures nameOnly ==> forall c :: Formatted(fields, c) == c.File
    ensures !nameOnly ==> forall c :: Formatted(fields, c) == Formatted(All, c)
  {
    if nameOnly then
      assert forall c :: Formatted(["File"], c) == c.File by {
        forall c { FormattedFileOnly(c); }
      }
      ["File"]
    else []
  }

  /**
   * The body of the check command's Run: the paths come from the arguments,
   * else from the list command (blank lines skipped), else from standard
   * input; the service checks them and the console consumer prints the
   * conflicts. The service is built by the caller.
   */
  method Run(s: IgnoreService, args: seq<string>, listCommand: string, nameOnly: bool, env: Environment, stdout: Writer)
    returns (r: Result<ErrorChannel>)
    requires !s.concurrency
    modifies stdout
    ensures Produced(NewFileSource(args, listCommand, true), env).Failure? ==> r.Failure? && stdout.written == old(stdout.written)
    ensures Produced(NewFileSource(args, listCommand, true), env).Success? ==>
      && r.Success? && r.value.closed && r.value.sent == []
      && stdout.written == old(stdout.written) +
           Render(SelectFields(nameOnly), Collected(s, Produced(NewFileSource(args, listCommand, true), env).value))
  {
    var produced := Produced(NewFileSource(args, listCommand, true), env);
    if produced.Failure? {
      return Failure(produced.error);
    }
    var conflicts, log := CheckFiles(s, produced.value);
    var fields: seq<string> := [];
    if nameOnly {
      fields := ["File"];
    }
    r := NewConsoleConflictConsumer(Some(conflicts), "", fields, stdout);
  }

  /** The name-only output for a matcher: each ignored path followed by a newline, in input order. */
  function IgnoredListing(ignore: GitIgnore, files: seq<string>): string {
    if files == [] then ""
    else
      IgnoredListing(ignore, files[..|files| - 1]) +
      (if ignore(files[|files| - 1]).Ignore? then files[|files| - 1] + "\n" else "")
  }

  /** The name-only rendering of the conflict one path yields: the path and a newline when ignored, else nothing. */
  lemma NameOnlyStep(s: IgnoreService, m: GitIgnore, file: string)
    requires forall f :: s.fileChecker(f) == CheckFile(DenormalFileChecker(m), f)
    ensures Render(["File"], OptionToSeq(CheckOne(s, file).conflict)) ==
      (if m(file).Ignore? then file + "\n" else "")
  {
    var found := OptionToSeq(CheckOne(s, file).conflict);
    if m(file).Ignore? {
      var c := CheckOne(s, file).conflict.value;
      assert found == [c];
      RenderOne(["File"], c);
      FormattedFileOnly(c);
    } else {
      assert found == [];
      assert Renderings(["File"], found) == [];
    }
  }

  /**
   * With the name-only flag, a service built for an ignore file prints the
   * ignored paths among those checked, one per line, in input order.
   */
  lemma {:induction false} NameOnlyListsIgnored(ignoreFile: string, newFromFile: string -> Result<GitIgnore>, files: seq<string>)
    requires NewService(ignoreFile, newFromFile).Success?
    ensures Render(SelectFields(true), Collected(NewService(ignoreFile, newFromFile).value, files)) ==
      IgnoredListing(newFromFile(ignoreFile).value, files)
  {
    var s := NewService(ignoreFile, newFromFile).value;
    var m := newFromFile(ignoreFile).value;
    if files != [] {
      var init := files[..|files| - 1];
      var last := files[|files| - 1];
      NameOnlyListsIgnored(ignoreFile, newFromFile, init);
      var found := OptionToSeq(CheckOne(s, last).conflict);
      assert Collected(s, files) == Collected(s, init) + found;
      RenderAppend(["File"], Collected(s, init), found);
      NameOnlyStep(s, m, last);
    }
  }
}
