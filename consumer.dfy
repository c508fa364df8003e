/**
 * The conflict consumer: renders every conflict it receives as one line of
 * selected fields and writes it out; its error channel reports formatting
 * failures and is closed when the conflicts are exhausted. The conflicts
 * channel is the finite sequence of conflicts sent on it.
 */
module Consumer {
  import opened Wrappers
  import opened Text
  import opened Conflicts

  /** The names of all the fields of a conflict, in their default output order. */
  const All: seq<string> := ["File", "IgnoreFile", "Line", "Pattern"]

  /** An io.Writer, seen through the text written to it so far. */
  class Writer {
    var written: string

    constructor ()
      ensures written == ""
    {
      written := "";
    }
  }

  /** A channel of error messages: what was sent on it and whether it is closed. */
  class ErrorChannel {
    var sent: seq<string>
    var closed: bool

    constructor ()
      ensures sent == [] && !closed
    {
      sent, closed := [], false;
    }
  }

  datatype DefaultConflictConsumer = DefaultConflictConsumer(
    fields: seq<string>,          // the fields to output; empty means all
    outputWriter: Writer,
    conflictsCh: seq<Conflict>,
    errorCh: ErrorChannel)

  /** An empty selection stands for all the fields. */
  function EffectiveFields(fields: seq<string>): (fs: seq<string>)
    ensures |fs| > 0
  {
    if |fields| == 0 then All else fields
  }

  /** The format the loop of formatConflict builds for n fields: n verbs %s separated by ", ". */
  function Verbs(n: nat): string {
    if n == 0 then "" else if n == 1 then "%s" else "%s, " + Verbs(n - 1)
  }

  /** The arguments formatConflict appends for one field name. */
  function FieldArgs(f: string, c: Conflict): seq<string> {
    (if f == "File" then [c.File] else []) +
    (if f == "IgnoreFile" then [c.IgnoreFile] else []) +
    (if f == "Line" then [IntToString(c.Line)] else []) +
    (if f == "Pattern" then [c.Pattern] else [])
  }

  /** The arguments formatConflict appends for a list of field names. */
  function Args(fields: seq<string>, c: Conflict): seq<string> {
    if fields == [] then []
    else Args(fields[..|fields| - 1], c) + FieldArgs(fields[|fields| - 1], c)
  }

  /**
   * fmt.Sprintf on a format made of %s verbs and literal text: each verb
   * takes the next argument, and a verb left without one renders as
   * %!s(MISSING).
   */
  function Sprintf(format: string, args: seq<string>): string
    decreases |format|
  {
    if format == [] then []
    else if |format| >= 2 && format[0] == '%' && format[1] == 's' then
      (if args == [] then "%!s(MISSING)" else args[0]) + Sprintf(format[2..], if args == [] then [] else args[1..])
    else [format[0]] + Sprintf(format[1..], args)
  }

  /** The text formatConflict renders for a conflict. */
  function Formatted(fields: seq<string>, c: Conflict): string {
    var fs := EffectiveFields(fields);
    Sprintf(Verbs(|fs|), Args(fs, c))
  }

  /**
   * formatConflict: builds the format and the arguments field by field, then
   * renders them; it never reports an error.
   */
  method FormatConflict(fields: seq<string>, c: Conflict) returns (outStr: string, err: Option<string>)
    ensures outStr == Formatted(fields, c)
    ensures err == None
  {
    var args: seq<string> := [];
    var pattern := "";
    var fs := fields;
    if |fs| == 0 {
      fs := All;
    }
    for i := 0 to |fs|
      invariant pattern == Verbs(i)
      invariant args == Args(fs[..i], c)
    {
      if i > 0 {
        pattern := pattern + ", ";
      }
      pattern := pattern + "%s";
      var f := fs[i];
      ghost var before := args;
      if f == "File" {
        args := args + [c.File];
      }
      if f == "IgnoreFile" {
        args := args + [c.IgnoreFile];
      }
      if f == "Line" {
        args := args + [IntToString(c.Line)];
      }
      if f == "Pattern" {
        args := args + [c.Pattern];
      }
      assert args == before + FieldArgs(f, c);
      ArgsStep(fs, i, c);
      VerbsStep(i);
    }
    assert fs[..|fs|] == fs;
    outStr := Sprintf(pattern, args);
    err := None;
  }

  lemma ArgsStep(fs: seq<string>, i: nat, c: Conflict)
    requires i < |fs|
    ensures Args(fs[..i + 1], c) == Args(fs[..i], c) + FieldArgs(fs[i], c)
  {
    assert fs[..i + 1][..i] == fs[..i];
  }

  lemma {:induction false} VerbsStep(n: nat)
    ensures Verbs(n + 1) == Verbs(n) + (if n > 0 then ", " else "") + "%s"
  {
    if n >= 2 {
      VerbsStep(n - 1);
    }
  }

  /** The value a known field name selects. */
  function Value(f: string, c: Conflict): string
    requires f in All
  {
    if f == "File" then c.File
    else if f == "IgnoreFile" then c.IgnoreFile
    else if f == "Line" then IntToString(c.Line)
    else c.Pattern
  }

  /** The values the field names select, in the order of the names. */
  function Values(fields: seq<string>, c: Conflict): seq<string>
    requires forall k :: 0 <= k < |fields| ==> fields[k] in All
  {
    seq(|fields|, k requires 0 <= k < |fields| => Value(fields[k], c))
  }

  lemma {:induction false} ArgsOfKnownFields(fields: seq<string>, c: Conflict)
    requires forall k :: 0 <= k < |fields| ==> fields[k] in All
    ensures Args(fields, c) == Values(fields, c)
  {
    if fields != [] {
      var init := fields[..|fields| - 1];
      ArgsOfKnownFields(init, c);
      FieldArgsKnown(fields[|fields| - 1], c);
      assert Values(fields, c) == Values(init, c) + [Value(fields[|fields| - 1], c)];
    }
  }

  /** A known field name appends exactly its own value. */
  lemma FieldArgsKnown(f: string, c: Conflict)
    requires f in All
    ensures FieldArgs(f, c) == [Value(f, c)]
  {
    assert f == All[0] || f == All[1] || f == All[2] || f == All[3];
    assert |"File"| == 4 && |"IgnoreFile"| == 10 && |"Line"| == 4 && |"Pattern"| == 7;
    assert "File"[0] != "Line"[0];
  }

  /** Rendering n verbs with n arguments joins the arguments with ", ". */
  lemma {:induction false} SprintfVerbs(vs: seq<string>)
    requires |vs| > 0
    ensures Sprintf(Verbs(|vs|), vs) == Join(vs, ", ")
  {
    if |vs| == 1 {
      assert Verbs(1)[2..] == [];
    } else {
      var rest := Verbs(|vs| - 1);
      var format := "%s, " + rest;
      assert format[2..] == ", " + rest;
      assert (", " + rest)[1..] == " " + rest;
      assert (" " + rest)[1..] == rest;
      SprintfVerbs(vs[1..]);
      calc {
        Sprintf(format, vs);
        vs[0] + Sprintf(", " + rest, vs[1..]);
        vs[0] + ([','] + Sprintf(" " + rest, vs[1..]));
        vs[0] + ([','] + ([' '] + Sprintf(rest, vs[1..])));
        { assert [','] + [' '] == ", "; }
        vs[0] + ", " + Join(vs[1..], ", ");
      }
    }
  }

  /** What a verb left without an argument renders as. */
  const MissingArg: string := "%!s(MISSING)"

  /** The renderings of n verbs that have no argument. */
  function Missing(n: nat): (ms: seq<string>)
    ensures |ms| == n && forall k :: 0 <= k < n ==> ms[k] == MissingArg
  {
    seq(n, _ => MissingArg)
  }

  /**
   * Rendering n verbs with at most n arguments: the arguments in order, then
   * %!s(MISSING) for each verb left over, all joined by ", ".
   */
  lemma {:induction false} SprintfVerbsMissing(n: nat, vs: seq<string>)
    requires 0 < n && |vs| <= n
    ensures Sprintf(Verbs(n), vs) == Join(vs + Missing(n - |vs|), ", ")
  {
    var tail := if vs == [] then [] else vs[1..];
    MissingSplit(n, vs);
    if n == 1 {
      assert Verbs(1)[2..] == [];
    } else {
      SprintfFirstVerb(Verbs(n - 1), vs);
      SprintfVerbsMissing(n - 1, tail);
    }
  }

  /** The arguments padded to n: the first one (or %!s(MISSING)), then the rest padded to n - 1. */
  lemma MissingSplit(n: nat, vs: seq<string>)
    requires 0 < n && |vs| <= n
    ensures var all := vs + Missing(n - |vs|);
      var tail := if vs == [] then [] else vs[1..];
      && |all| == n
      && all[0] == (if vs == [] then MissingArg else vs[0])
      && all[1..] == tail + Missing(n - 1 - |tail|)
  {
    var all := vs + Missing(n - |vs|);
    var tail := if vs == [] then [] else vs[1..];
    assert all[1..] == tail + Missing(n - 1 - |tail|);
  }

  /** The first verb of "%s, " + rest takes the first argument, or renders %!s(MISSING) when there is none. */
  lemma SprintfFirstVerb(rest: string, vs: seq<string>)
    ensures Sprintf("%s, " + rest, vs) ==
      (if vs == [] then MissingArg else vs[0]) + ", " + Sprintf(rest, if vs == [] then [] else vs[1..])
  {
    var tail := if vs == [] then [] else vs[1..];
    var head := if vs == [] then MissingArg else vs[0];
    SeparatorFormat(rest);
    SprintfVerb([','] + ([' '] + rest), vs);
    SprintfLiteral(',', [' '] + rest, tail);
    SprintfLiteral(' ', rest, tail);
    SeparatorText(head, Sprintf(rest, tail));
  }

  lemma SeparatorFormat(rest: string)
    ensures "%s, " + rest == "%s" + ([','] + ([' '] + rest))
  {
  }

  lemma SeparatorText(head: string, text: string)
    ensures head + ([','] + ([' '] + text)) == head + ", " + text
  {
  }

  /** A verb at the head of the format takes the next argument, or renders %!s(MISSING). */
  lemma SprintfVerb(rest: string, vs: seq<string>)
    ensures Sprintf("%s" + rest, vs) ==
      (if vs == [] then MissingArg else vs[0]) + Sprintf(rest, if vs == [] then [] else vs[1..])
  {
    assert ("%s" + rest)[2..] == rest;
  }

  /** A character other than % at the head of the format is copied as it is. */
  lemma SprintfLiteral(ch: char, rest: string, vs: seq<string>)
    requires ch != '%'
    ensures Sprintf([ch] + rest, vs) == [ch] + Sprintf(rest, vs)
  {
    assert ([ch] + rest)[1..] == rest;
  }

  /** Each field name appends at most one argument, and an unknown name appends none. */
  lemma FieldArgsAtMostOne(f: string, c: Conflict)
    ensures |FieldArgs(f, c)| <= 1
    ensures f !in All ==> FieldArgs(f, c) == []
  {
    assert |"File"| == 4 && |"IgnoreFile"| == 10 && |"Line"| == 4 && |"Pattern"| == 7;
    assert "File"[0] != "Line"[0];
  }

  lemma {:induction false} ArgsLength(fields: seq<string>, c: Conflict)
    ensures |Args(fields, c)| <= |fields|
  {
    if fields != [] {
      ArgsLength(fields[..|fields| - 1], c);
      FieldArgsAtMostOne(fields[|fields| - 1], c);
    }
  }

  /**
   * For any selection, known names or not: the arguments the known names
   * select, in order, then %!s(MISSING) once per unknown name, joined by ", ".
   * An unknown name thus shifts the later values one place forward.
   */
  lemma FormattedAnyFields(fields: seq<string>, c: Conflict)
    ensures var fs := EffectiveFields(fields);
      var args := Args(fs, c);
      && |args| <= |fs|
      && Formatted(fields, c) == Join(args + Missing(|fs| - |args|), ", ")
  {
    var fs := EffectiveFields(fields);
    ArgsLength(fs, c);
    SprintfVerbsMissing(|fs|, Args(fs, c));
  }

  /**
   * With every selected name one of All, a conflict renders as the selected
   * values in the caller's order, joined by ", ".
   */
  lemma FormattedJoinsValues(fields: seq<string>, c: Conflict)
    requires forall k :: 0 <= k < |fields| ==> fields[k] in All
    ensures Formatted(fields, c) == Join(Values(EffectiveFields(fields), c), ", ")
  {
    var fs := EffectiveFields(fields);
    ArgsOfKnownFields(fs, c);
    SprintfVerbs(Values(fs, c));
  }

  /** n selected fields give the n values and exactly n - 1 separators. */
  lemma FormattedLength(fields: seq<string>, c: Conflict)
    requires forall k :: 0 <= k < |fields| ==> fields[k] in All
    ensures var vs := Values(EffectiveFields(fields), c);
      |Formatted(fields, c)| == TotalLength(vs) + 2 * (|vs| - 1)
  {
    FormattedJoinsValues(fields, c);
    JoinLength(Values(EffectiveFields(fields), c), ", ");
  }

  /** No selection renders all four fields in the order File, IgnoreFile, Line, Pattern. */
  lemma FormattedDefault(c: Conflict)
    ensures Formatted([], c) == c.File + ", " + c.IgnoreFile + ", " + IntToString(c.Line) + ", " + c.Pattern
  {
    FormattedJoinsValues([], c);
    assert Values(All, c) == [c.File, c.IgnoreFile, IntToString(c.Line), c.Pattern];
    JoinFour(c.File, c.IgnoreFile, IntToString(c.Line), c.Pattern, ", ");
  }

  /** Selecting only File renders just the path. */
  lemma FormattedFileOnly(c: Conflict)
    ensures Formatted(["File"], c) == c.File
  {
    FormattedJoinsValues(["File"], c);
    assert Values(["File"], c) == [c.File];
  }

  /** An unknown field name takes no argument: its verb renders as %!s(MISSING) and the later values move forward. */
  lemma FormattedUnknownField(c: Conflict)
    ensures Formatted(["Name", "File"], c) == c.File + ", %!s(MISSING)"
  {
    assert Args(["Name", "File"], c) == [c.File] by {
      assert ["Name", "File"][..1] == ["Name"];
      assert ["Name"][..0] == [];
      assert FieldArgs("Name", c) == [];
      assert FieldArgs("File", c) == [c.File];
      assert Args(["Name"], c) == [];
    }
    SprintfMissing(c.File);
  }

  /** Two verbs with one argument: the second verb has none to take. */
  lemma SprintfMissing(x: string)
    ensures Sprintf(Verbs(2), [x]) == x + ", %!s(MISSING)"
  {
    SprintfVerbsMissing(2, [x]);
    assert [x] + Missing(1) == [x, MissingArg];
    assert Join([x, MissingArg], ", ") == x + ", " + MissingArg;
  }

  /** The rendering of each conflict, in order. */
  function Renderings(fields: seq<string>, conflicts: seq<Conflict>): seq<string> {
    seq(|conflicts|, k requires 0 <= k < |conflicts| => Formatted(fields, conflicts[k]))
  }

  /** The text start writes for a sequence of conflicts: each rendering followed by a newline. */
  function Render(fields: seq<string>, conflicts: seq<Conflict>): string {
    Lines(Renderings(fields, conflicts))
  }

  /** One conflict is written as its rendering and a newline. */
  lemma RenderOne(fields: seq<string>, c: Conflict)
    ensures Render(fields, [c]) == Formatted(fields, c) + "\n"
  {
    var rs := Renderings(fields, [c]);
    assert rs == [Formatted(fields, c)];
    assert rs[..0] == [];
    assert Lines(rs) == Lines(rs[..0]) + rs[0] + "\n";
  }

  /** Rendering a concatenation writes the lines of the first part, then those of the second. */
  lemma RenderAppend(fields: seq<string>, a: seq<Conflict>, b: seq<Conflict>)
    ensures Render(fields, a + b) == Render(fields, a) + Render(fields, b)
  {
    assert Renderings(fields, a + b) == Renderings(fields, a) + Renderings(fields, b);
    LinesAppend(Renderings(fields, a), Renderings(fields, b));
  }

  /**
   * When no rendering holds a newline, scanning the output line by line
   * gives back exactly one rendering per conflict, in arrival order.
   */
  lemma RenderLines(fields: seq<string>, conflicts: seq<Conflict>)
    requires forall k :: 0 <= k < |conflicts| ==> '\n' !in Formatted(fields, conflicts[k])
    ensures ScanLines(Render(fields, conflicts)) == Renderings(fields, conflicts)
  {
    ScanLinesOfLines(Renderings(fields, conflicts));
  }

  /**
   * start: writes one line per conflict, in arrival order; a formatting
   * error would be sent on the error channel instead, and none occurs.
   * Closes the error channel at the end.
   */
  method Start(p: DefaultConflictConsumer)
    requires !p.errorCh.closed
    modifies p.outputWriter, p.errorCh
    ensures p.outputWriter.written == old(p.outputWriter.written) + Render(p.fields, p.conflictsCh)
    ensures p.errorCh.sent == old(p.errorCh.sent)
    ensures p.errorCh.closed
  {
    var errors := p.errorCh.sent;
    var i := 0;
    while i < |p.conflictsCh|
      invariant 0 <= i <= |p.conflictsCh|
      invariant p.outputWriter.written == old(p.outputWriter.written) + Render(p.fields, p.conflictsCh[..i])
      invariant errors == old(p.errorCh.sent)
      invariant p.errorCh.sent == old(p.errorCh.sent) && !p.errorCh.closed
    {
      var c := p.conflictsCh[i];
      ghost var done := p.outputWriter.written;
      assert p.conflictsCh[..i + 1] == p.conflictsCh[..i] + [c];
      RenderAppend(p.fields, p.conflictsCh[..i], [c]);
      RenderOne(p.fields, c);
      assert old(p.outputWriter.written) + Render(p.fields, p.conflictsCh[..i + 1]) == done + Formatted(p.fields, c) + "\n";
      i := i + 1;
      var outStr, err := FormatConflict(p.fields, c);
      match err {
        case Some(e) =>
          errors := errors + ["error formatting conflict: " + e];
          continue;
        case None =>
      }
      p.outputWriter.written := p.outputWriter.written + outStr + "\n";
    }
    assert p.conflictsCh[..i] == p.conflictsCh;
    p.errorCh.sent := errors;
    p.errorCh.closed := true;
  }

  /**
   * NewConflictConsumer: a nil conflicts channel panics; a nil error channel
   * is replaced by a new one. The consumer then runs to completion and the
   * error channel it returns is closed, with nothing sent on it.
   */
  method NewConflictConsumer(format: string, fields: seq<string>, outputWriter: Writer,
                             conflictsChannel: Option<seq<Conflict>>, errorsCh: Option<ErrorChannel>)
    returns (r: Result<ErrorChannel>)
    requires errorsCh.Some? ==> !errorsCh.value.closed
    modifies outputWriter, if errorsCh.Some? then {errorsCh.value} else {}
    ensures r.Failure? <==> conflictsChannel.None?
    ensures r.Failure? ==> outputWriter.written == old(outputWriter.written)
    ensures r.Failure? && errorsCh.Some? ==>
      errorsCh.value.sent == old(errorsCh.value.sent) && errorsCh.value.closed == old(errorsCh.value.closed)
    ensures r.Success? ==>
      && outputWriter.written == old(outputWriter.written) + Render(fields, conflictsChannel.value)
      && r.value.closed
      && (errorsCh.Some? ==> r.value == errorsCh.value && r.value.sent == old(errorsCh.value.sent))
      && (errorsCh.None? ==> fresh(r.value) && r.value.sent == [])
  {
    if conflictsChannel.None? {
      return Failure("nil conflicts Channel");
    }
    var errorCh: ErrorChannel;
    if errorsCh.None? {
      errorCh := new ErrorChannel();
    } else {
      errorCh := errorsCh.value;
    }
    var consumer := DefaultConflictConsumer(fields, outputWriter, conflictsChannel.value, errorCh);
    Start(consumer);
    r := Success(errorCh);
  }

  /** NewConsoleConflictConsumer: a consumer writing to standard output, with a new error channel. */
  method NewConsoleConflictConsumer(conflictsChannel: Option<seq<Conflict>>, format: string, fields: seq<string>, stdout: Writer)
    returns (r: Result<ErrorChannel>)
    modifies stdout
    ensures r.Failure? <==> conflictsChannel.None?
    ensures r.Success? ==>
      && stdout.written == old(stdout.written) + Render(fields, conflictsChannel.value)
      && fresh(r.value) && r.value.closed && r.value.sent == []
  {
    r := NewConflictConsumer(format, fields, stdout, conflictsChannel, None);
  }
}
