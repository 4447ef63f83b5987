/** The entry point `helper` of build_helper.py: global flags, then the
    subcommand name, then the subcommand's own flags and positional arguments.
    The model returns which action would run, with its parsed arguments, or
    the usage error that `fatal` would report; running the action is the
    business of the other modules. */
module Dispatch {

  import opened Flags
  import PyText
  import Help

  /** Where `helper` ends up. */
  datatype Outcome =
    | ShowHelp
    | FindGlob(pattern: string, excludes: seq<string>)
    | FormatJustfile(targets: seq<string>, check: bool)
    | ConvertConfig(check: bool)
    | Fatal(message: string, recommendHelp: bool)

  const HelpSchema: Schema := Schema({"--help"}, {})
  const ExcludeSchema: Schema := Schema({"--exclude"}, {"--exclude"})
  const CheckSchema: Schema := Schema({"--check"}, {})

  lemma SchemasWellFormed()
    ensures WellFormed(HelpSchema) && WellFormed(ExcludeSchema) && WellFormed(CheckSchema)
  {
    assert IsFlagLike("--help") && IsFlagLike("--exclude") && IsFlagLike("--check");
  }

  const FindGlobArity: string :=
    "The `find-glob` command expects exactly one argument: The pattern to use."
  const AlreadyChecked: string := "Already specified `--check` flag."
  const NoTargets: string := "Must specify at least one file to format."
  const NoPositionals: string := "This command takes no positional args"

  /** The names the dispatcher knows. */
  const Subcommands: set<string> := {"help", "find-glob", "format-justfile", "convert-config-file"}

  /** What `fatal` writes to the error stream for a fatal outcome. */
  function ErrorLines(o: Outcome): (lines: seq<string>)
    requires o.Fatal?
    ensures |lines| == if o.recommendHelp then 2 else 1
    ensures lines[0] == o.message
  {
    [o.message] + if o.recommendHelp then ["Run `" + Help.CommandInvokeStart + " help` for more details."] else []
  }

  /** The `--exclude` values of the items, in order. */
  function Values(items: seq<Parsed>): (vs: seq<string>)
    requires forall i :: 0 <= i < |items| ==> items[i].WithValue?
    ensures |vs| == |items|
    ensures forall i :: 0 <= i < |items| ==> vs[i] == items[i].value
  {
    if items == [] then [] else [items[0].value] + Values(items[1..])
  }

  /** The tokens `--exclude v` for each pattern, in order. */
  function ExcludeArgs(excludes: seq<string>): (items: seq<Parsed>)
    ensures |items| == |excludes|
    ensures forall i :: 0 <= i < |items| ==>
      items[i] == WithValue("--exclude", excludes[i]) && ValidItem(ExcludeSchema, items[i])
  {
    if excludes == [] then [] else [WithValue("--exclude", excludes[0])] + ExcludeArgs(excludes[1..])
  }

  /** How reading `--check` flags ends: whether the flag was seen and what is
      left, or the message of a usage error. */
  datatype CheckScan = CheckOk(check: bool, rest: seq<string>) | CheckFatal(message: string)

  /** The `--check` loop of `format-justfile` and `convert-config-file`, one
      flag at a time: a second `--check` is an error as soon as it is read,
      before any later token is examined. */
  function ScanCheck(args: seq<string>, seen: bool): CheckScan
    decreases |args|
  {
    SchemasWellFormed();
    var o := NextStep(CheckSchema, args);
    match o.step
    case Done => CheckOk(seen, o.rest)
    case Fail(e) => CheckFatal(ErrorMessage(e))
    case Yield(_) => if seen then CheckFatal(AlreadyChecked) else ScanCheck(o.rest, true)
  }

  /** The `find-glob` arm after the subcommand name. */
  function RouteFindGlob(args: seq<string>): Outcome {
    SchemasWellFormed();
    var r := Scan(ExcludeSchema, args);
    ScanItemsValid(ExcludeSchema, args);
    match r
    case ScanFailed(_, e, _) => Fatal(ErrorMessage(e), false)
    case Scanned(items, pos) =>
      if |pos| == 1 then FindGlob(pos[0], Values(items)) else Fatal(FindGlobArity, true)
  }

  /** The `format-justfile` arm after the subcommand name. */
  function RouteFormatJustfile(args: seq<string>): Outcome {
    match ScanCheck(args, false)
    case CheckFatal(m) => Fatal(m, false)
    case CheckOk(check, pos) => if pos == [] then Fatal(NoTargets, false) else FormatJustfile(pos, check)
  }

  /** The `convert-config-file` arm after the subcommand name. */
  function RouteConvertConfig(args: seq<string>): Outcome {
    match ScanCheck(args, false)
    case CheckFatal(m) => Fatal(m, false)
    case CheckOk(check, pos) => if pos != [] then Fatal(NoPositionals, false) else ConvertConfig(check)
  }

  /** The `match` on the subcommand name, `args` being what the global flags
      left. */
  function Route(args: seq<string>): Outcome {
    if args == [] then ShowHelp
    else
      var name := args[0];
      if name == "help" then ShowHelp
      else if name == "find-glob" then RouteFindGlob(args[1..])
      else if name == "format-justfile" then RouteFormatJustfile(args[1..])
      else if name == "convert-config-file" then RouteConvertConfig(args[1..])
      else Fatal("Unexpected subcommand " + PyText.Repr(name), true)
  }

  /** `helper(argv)`: the first global flag yielded is `--help` and shows the
      help at once. */
  function Dispatch(argv: seq<string>): Outcome {
    SchemasWellFormed();
    var g := NextStep(HelpSchema, argv);
    match g.step
    case Yield(_) => ShowHelp
    case Fail(e) => Fatal(ErrorMessage(e), false)
    case Done => Route(g.rest)
  }

  /** `helper(args)`. The argument list is a fresh copy of the command line,
      drained as the source drains it. */
  method Helper(argv: seq<string>) returns (o: Outcome)
    ensures o == Dispatch(argv)
  {
    SchemasWellFormed();
    var args := new ArgList(argv);
    var global := args.NextFlag(HelpSchema);
    if global.Yield? {
      return ShowHelp;
    } else if global.Fail? {
      return Fatal(ErrorMessage(global.error), false);
    }
    if args.args == [] {
      return ShowHelp;
    }
    var name := args.Pop();
    if name == "help" {
      o := ShowHelp;
    } else if name == "find-glob" {
      o := FindGlobCommand(args);
    } else if name == "format-justfile" {
      var flags := ReadCheckFlag(args);
      if flags.CheckFatal? {
        o := Fatal(flags.message, false);
      } else if args.args == [] {
        o := Fatal(NoTargets, false);
      } else {
        o := FormatJustfile(args.args, flags.check);
      }
    } else if name == "convert-config-file" {
      var flags := ReadCheckFlag(args);
      if flags.CheckFatal? {
        o := Fatal(flags.message, false);
      } else if args.args != [] {
        o := Fatal(NoPositionals, false);
      } else {
        o := ConvertConfig(flags.check);
      }
    } else {
      o := Fatal("Unexpected subcommand " + PyText.Repr(name), true);
    }
  }

  /** The `find-glob` arm: every `--exclude` value is appended as it is
      read; then exactly one positional argument must be left. */
  method FindGlobCommand(args: ArgList) returns (o: Outcome)
    modifies args
    ensures o == RouteFindGlob(old(args.args))
    ensures o.FindGlob? ==> args.args == [o.pattern]
  {
    SchemasWellFormed();
    ghost var start := args.args;
    ghost var items: seq<Parsed> := [];
    var excludeGlobs: seq<string> := [];
    while true
      invariant Scan(ExcludeSchema, start) == Prefixed(items, Scan(ExcludeSchema, args.args))
      invariant forall i :: 0 <= i < |items| ==> items[i].WithValue?
      invariant excludeGlobs == Values(items)
      decreases |args.args|
    {
      var flag := args.NextFlag(ExcludeSchema);
      match flag {
        case Done =>
          assert Scan(ExcludeSchema, start) == Scanned(items, args.args) by {
            assert items + [] == items;
          }
          break;
        case Fail(e) =>
          assert Scan(ExcludeSchema, start) == ScanFailed(items, e, args.args) by {
            assert items + [] == items;
          }
          return Fatal(ErrorMessage(e), false);
        case Yield(p) =>
          assert p.WithValue?;
          PrefixedAppend(items, [p], Scan(ExcludeSchema, args.args));
          items := items + [p];
          excludeGlobs := excludeGlobs + [p.value];
      }
    }
    ScanItemsValid(ExcludeSchema, start);
    if |args.args| == 1 {
      o := FindGlob(args.args[0], excludeGlobs);
    } else {
      o := Fatal(FindGlobArity, true);
    }
  }

  /** The `--check` loop, with the same early stop as the source. */
  method ReadCheckFlag(args: ArgList) returns (r: CheckScan)
    modifies args
    ensures r == ScanCheck(old(args.args), false)
    ensures r.CheckOk? ==> args.args == r.rest
  {
    SchemasWellFormed();
    ghost var start := args.args;
    var check := false;
    while true
      invariant ScanCheck(start, false) == ScanCheck(args.args, check)
      decreases |args.args|
    {
      var flag := args.NextFlag(CheckSchema);
      match flag {
        case Done =>
          return CheckOk(check, args.args);
        case Fail(e) =>
          return CheckFatal(ErrorMessage(e));
        case Yield(_) =>
          if check {
            return CheckFatal(AlreadyChecked);
          }
          check := true;
      }
    }
  }

  /** The only item each schema lets the scanner yield, so the source's
      `AssertionError` branches for any other item cannot be reached. */
  lemma YieldedItems(args: seq<string>)
    ensures NextStep(HelpSchema, args).step.Yield? ==>
      NextStep(HelpSchema, args).step.item == Bare("--help")
    ensures NextStep(CheckSchema, args).step.Yield? ==>
      NextStep(CheckSchema, args).step.item == Bare("--check")
    ensures NextStep(ExcludeSchema, args).step.Yield? ==>
      NextStep(ExcludeSchema, args).step.item.WithValue?
      && NextStep(ExcludeSchema, args).step.item.flag == "--exclude"
  {
    SchemasWellFormed();
    NextStepShape(HelpSchema, args);
    NextStepShape(CheckSchema, args);
    NextStepShape(ExcludeSchema, args);
  }

  /** A leading `--help` shows the help before any later token is examined,
      so `--help --bogus` shows the help too. */
  lemma HelpFlagFirst(tail: seq<string>)
    ensures Dispatch(["--help"] + tail) == ShowHelp
  {
    SchemasWellFormed();
    assert NextStep(HelpSchema, ["--help"] + tail).step == Yield(Bare("--help"));
  }

  /** No subcommand, or `help`, shows the help, also after `--`. */
  lemma NoSubcommandShowsHelp(tail: seq<string>)
    ensures Dispatch([]) == ShowHelp
    ensures Dispatch([Terminator]) == ShowHelp
    ensures Dispatch(["help"] + tail) == ShowHelp
    ensures Dispatch([Terminator, "help"] + tail) == ShowHelp
  {
    SchemasWellFormed();
    assert ([Terminator, "help"] + tail)[1..] == ["help"] + tail;
  }

  /** A flag-like token before the subcommand other than `--help` and `--` is
      an unsupported flag, without the help hint. */
  lemma UnknownGlobalFlag(token: string, tail: seq<string>)
    requires IsFlagLike(token) && token != "--help" && token != Terminator
    ensures Dispatch([token] + tail) == Fatal("Unsupported flag: " + PyText.Repr(token), false)
  {
    SchemasWellFormed();
  }

  /** Any other subcommand name fails naming it, with the help hint. That
      includes a flag-like name after `--`, such as `-- --x`. */
  lemma UnknownSubcommand(name: string, tail: seq<string>)
    requires name !in Subcommands
    ensures Route([name] + tail) == Fatal("Unexpected subcommand " + PyText.Repr(name), true)
    ensures !IsFlagLike(name) ==>
      Dispatch([name] + tail) == Fatal("Unexpected subcommand " + PyText.Repr(name), true)
    ensures Dispatch([Terminator, name] + tail)
            == Fatal("Unexpected subcommand " + PyText.Repr(name), true)
  {
    SchemasWellFormed();
    assert ([name] + tail)[0] == name;
    assert ([Terminator, name] + tail)[1..] == [name] + tail;
  }

  /** `find-glob` with any number of `--exclude` flags and one pattern finds
      that pattern, excluding the values in the order they were given. */
  lemma {:induction false} FindGlobParsed(excludes: seq<string>, pattern: string)
    requires !IsFlagLike(pattern)
    ensures Dispatch(["find-glob"] + Flatten(ExcludeArgs(excludes)) + [pattern])
            == FindGlob(pattern, excludes)
  {
    SchemasWellFormed();
    var items := ExcludeArgs(excludes);
    var args := Flatten(items) + [pattern];
    ScanFlattened(ExcludeSchema, items, [pattern]);
    assert Values(items) == excludes;
    assert (["find-glob"] + Flatten(items) + [pattern])[1..] == args;
  }

  /** `find-glob` fails, with the help hint, unless exactly one positional
      argument is left after the flags. */
  lemma {:induction false} FindGlobArityChecked(excludes: seq<string>, positional: seq<string>)
    requires |positional| != 1
    requires positional == [] || !IsFlagLike(positional[0])
    ensures Dispatch(["find-glob"] + Flatten(ExcludeArgs(excludes)) + positional)
            == Fatal(FindGlobArity, true)
  {
    SchemasWellFormed();
    var items := ExcludeArgs(excludes);
    ScanFlattened(ExcludeSchema, items, positional);
    assert (["find-glob"] + Flatten(items) + positional)[1..] == Flatten(items) + positional;
  }

  /** Conversely, whenever `find-glob` is chosen, what followed the name was
      the exclude flags in the order of the excludes, possibly `--`, and the
      pattern. */
  lemma {:induction false} FindGlobOnlyFromItsArguments(args: seq<string>)
    requires RouteFindGlob(args).FindGlob?
    ensures var o := RouteFindGlob(args);
      args == Flatten(ExcludeArgs(o.excludes)) + [o.pattern]
      || args == Flatten(ExcludeArgs(o.excludes)) + [Terminator, o.pattern]
  {
    SchemasWellFormed();
    var r := Scan(ExcludeSchema, args);
    ScanItemsValid(ExcludeSchema, args);
    ScanConsumesPrefix(ExcludeSchema, args);
    var o := RouteFindGlob(args);
    assert ExcludeArgs(o.excludes) == r.items;
    assert [o.pattern] == r.rest;
  }

  /** The only ways the `--check` loop succeeds: nothing, `--check`, `--` or
      `--check --`, then the rest; `check` is true exactly when `--check` was
      read. */
  lemma ScanCheckOk(args: seq<string>)
    requires ScanCheck(args, false).CheckOk?
    ensures var r := ScanCheck(args, false);
      var stopped := r.rest == [] || !IsFlagLike(r.rest[0]);
      (args == r.rest && !r.check && stopped)
      || (args == [Terminator] + r.rest && !r.check)
      || (args == ["--check"] + r.rest && r.check && stopped)
      || (args == ["--check", Terminator] + r.rest && r.check)
  {
    SchemasWellFormed();
    var o := NextStep(CheckSchema, args);
    NextStepShape(CheckSchema, args);
    if o.step.Yield? {
      var o2 := NextStep(CheckSchema, o.rest);
      NextStepShape(CheckSchema, o.rest);
      assert Tokens(o.step.item) == ["--check"];
      if o2.rest != o.rest {
        assert args == ["--check"] + ([Terminator] + o2.rest);
      }
    }
  }

  /** Reading `--check` at most once before the positional arguments sets
      `check` exactly when it appeared. */
  lemma ScanCheckReads(check: bool, positional: seq<string>)
    requires positional == [] || !IsFlagLike(positional[0])
    ensures ScanCheck((if check then ["--check"] else []) + positional, false)
            == CheckOk(check, positional)
  {
    SchemasWellFormed();
    if check {
      var args := ["--check"] + positional;
      assert args[1..] == positional;
      assert NextStep(CheckSchema, args) == StepOutcome(Yield(Bare("--check")), positional);
    } else {
      assert [] + positional == positional;
    }
  }

  /** A second `--check` fails at once, whatever follows it. */
  lemma DuplicateCheck(tail: seq<string>)
    ensures ScanCheck(["--check", "--check"] + tail, false) == CheckFatal(AlreadyChecked)
  {
    SchemasWellFormed();
    var args := ["--check", "--check"] + tail;
    assert NextStep(CheckSchema, args) == StepOutcome(Yield(Bare("--check")), ["--check"] + tail);
    assert NextStep(CheckSchema, ["--check"] + tail).step == Yield(Bare("--check"));
  }

  /** `format-justfile`: `check` is true exactly when `--check` appeared, at
      least one target is required, a second `--check` fails before anything
      else is looked at. */
  lemma FormatJustfileParsed(check: bool, targets: seq<string>, tail: seq<string>)
    requires targets == [] || !IsFlagLike(targets[0])
    ensures Dispatch(["format-justfile"] + (if check then ["--check"] else []) + targets)
            == if targets == [] then Fatal(NoTargets, false) else FormatJustfile(targets, check)
    ensures Dispatch(["format-justfile", "--check", "--check"] + tail) == Fatal(AlreadyChecked, false)
  {
    SchemasWellFormed();
    ScanCheckReads(check, targets);
    DuplicateCheck(tail);
    var flags := if check then ["--check"] else [];
    assert (["format-justfile"] + flags + targets)[1..] == flags + targets;
    assert (["format-justfile", "--check", "--check"] + tail)[1..] == ["--check", "--check"] + tail;
  }

  /** `convert-config-file`: `check` is true exactly when `--check` appeared,
      no positional argument is accepted, a second `--check` fails before
      anything else is looked at. */
  lemma ConvertConfigParsed(check: bool, positional: seq<string>, tail: seq<string>)
    requires positional == [] || !IsFlagLike(positional[0])
    ensures Dispatch(["convert-config-file"] + (if check then ["--check"] else []) + positional)
            == if positional == [] then ConvertConfig(check) else Fatal(NoPositionals, false)
    ensures Dispatch(["convert-config-file", "--check", "--check"] + tail)
            == Fatal(AlreadyChecked, false)
  {
    SchemasWellFormed();
    ScanCheckReads(check, positional);
    DuplicateCheck(tail);
    var flags := if check then ["--check"] else [];
    assert (["convert-config-file"] + flags + positional)[1..] == flags + positional;
    assert (["convert-config-file", "--check", "--check"] + tail)[1..]
        == ["--check", "--check"] + tail;
  }
}
