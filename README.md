# build_helper.py, modelled in Dafny

`build_helper.py` is the maintenance helper of a cookiecutter template. It is a
small command-line dispatcher with four subcommands: `help`, `find-glob`,
`format-justfile` and `convert-config-file`. Each subcommand declares the flags
it accepts. One flag scanner, `parse_flags`, drains them from the front of the
argument list.

This project models the following parts:

- **The flag scanner** (`flags.dfy`, module `Flags`). The live argument list is
  a class, `ArgList`, with one field: a `seq<string>`. `NextFlag` resumes the
  generator once. Each iteration of the source's loop ends in a `yield`, a
  `break` (at `--`) or a `fatal` call, so one resumption is one iteration.
  `NextStep` and `Scan` are the functions that specify it. The lemmas show
  what a whole scan consumes and yields, in which order, and where it stops.
  They also prove a round trip: flags written out as tokens are read back as
  the same items.
- **The dispatcher** `helper` (`dispatch.dfy`, module `Dispatch`). `Helper`
  drains a fresh `ArgList` the way the source does. It acts on each flag as
  soon as that flag is read, so `--help --bogus` shows the help, and
  `--check --check --bogus` reports the duplicate rather than the unknown
  flag. It returns an `Outcome`: `ShowHelp` (exit status 0), `FindGlob`,
  `FormatJustfile` or `ConvertConfig` with their parsed arguments, or
  `Fatal(message, recommendHelp)` (exit status 1). `Dispatch` is the function
  that specifies it, and the lemmas about `Dispatch` state the arity and
  duplicate-flag rules.
- **Help rendering** (`help.dfy`, module `Help`). This holds the constant
  registry and `print_generic_help`, which returns the printed lines.
- **Config conversion** (`config.dfy`, module `Config`). Python's
  `GENERATED_WARNING_HEADER | section` is modelled as an ordered update of
  key/value lists. The root-key check and the write and check modes are
  modelled on a `Workspace` object that holds the text of cookiecutter.json.
  The TOML document arrives already parsed. The JSON renderer is a function
  parameter.
- **Formatter invocation** (`format.dfy`, module `Format`). This covers the
  argument vector `just --unstable [--check] --fmt -f <target>` and the
  fail-fast walk over the targets. For each target, "is a regular file" and
  the formatter's exit code are given as functions.
- `pytext.dfy` (module `PyText`) models the Python text conventions that the
  messages use: `repr` of a string, `str` of an integer, and `Path.name`.
  `sequences.dfy` holds one shared lemma about concatenation.

Three behaviours of the code are easy to misread, and the model states them as
the code has them:

- The error message says cookiecutter.toml should have only one top-level
  entry. But the code compares the key set with `{"cookiecutter"}`, so a single
  key with another name fails as well. `RootKeysChecked` states the code's
  rule.
- A section with its own `_WARNING` replaces the warning's value, and the key
  stays first. `GeneratedLayout` states exactly that.
- `json.dumps` raises on values it cannot encode, such as the date and time
  values of TOML. The conversion then stops before cookiecutter.json is read
  or written. The renderer therefore returns an `Option`, and
  `RenderFailureWritesNothing` states the outcome.

## Model

| member | source | states |
|---|---|---|
| `Flags.NextStep` | build_helper.py:149-163 | one scanner iteration never grows the list, and it shrinks the list whenever it yields an item |
| `Flags.NextStepShape` | build_helper.py:149-163 | one iteration removes tokens only from the front; it removes nothing exactly when the list is empty or its first token does not start with `-`; a yielded item is exactly the removed tokens and fits the schema; `--` is consumed and ends the scan; an unknown flag-like token fails naming it; a value flag with nothing after it fails as missing its value |
| `Flags.ScanItemsValid` | build_helper.py:153-161 | every yielded flag is in `valid`; it carries a value exactly when it is in `has_value`; it is never `--` |
| `Flags.ScanConsumesPrefix` | build_helper.py:149-161 | a scan that ends normally removed exactly the tokens of its items, in encounter order, plus `--` if that ended it; otherwise it stopped at the end of the list or at a token that does not start with `-` |
| `Flags.ScanFailedPrefix` | build_helper.py:149-163 | a failing scan has yielded items whose tokens form a proper prefix of the list, in order; it failed on the very next token: an unsupported flag-like token, named by the error and followed by what is left, or a value flag that is the last token |
| `Flags.ScanFlattenedThen` | build_helper.py:149-161 | valid flags at the front of any list are yielded first and in order; then the scan continues on the rest |
| `Flags.ScanFlattened` | build_helper.py:149-161 | round trip: valid items written as tokens and followed by positionals scan back to the same items, and the positionals are left untouched |
| `Flags.TerminatorKeepsRest` | build_helper.py:150-152 | after valid flags, `--` is consumed and every later token is left as a positional, even one starting with `-` |
| `Flags.MissingValueAtEnd` | build_helper.py:153-159 | a value flag as the last token yields the earlier items, then fails with "Expected a value for flag" |
| `Flags.UnsupportedFlag` | build_helper.py:162-163 | a `-` token that is neither `--` nor valid yields the earlier items, then fails naming that token, whatever follows it |
| `Flags.ArgList.Pop` | build_helper.py:150 | `pop(0)` returns the first token and leaves the rest |
| `Flags.ArgList.NextFlag` | build_helper.py:140-163 | one resumption of `parse_flags` on the live list, with the schema preconditions `valid` all start with `-` and `has_value` ⊆ `valid`; returns the step and leaves the list as `NextStep` says |
| `Dispatch.SchemasWellFormed` | build_helper.py:168-205 | the three flag schemas the dispatcher passes meet `parse_flags`'s asserted preconditions |
| `Dispatch.YieldedItems` | build_helper.py:168-206 | under the help, check and exclude schemas, a yielded item is `--help`, `--check`, or `--exclude` with its value, respectively; no other item reaches the `AssertionError` branches |
| `Dispatch.Helper` | build_helper.py:166-214 | `helper` drains its argument list and ends in the outcome `Dispatch` gives |
| `Dispatch.FindGlobCommand` | build_helper.py:177-192 | the `find-glob` arm appends each `--exclude` value as read and requires exactly one positional; on success the live list holds exactly that pattern |
| `Dispatch.ReadCheckFlag` | build_helper.py:194-199 | the `--check` loop stops at the first error or at a second `--check`; on success the live list holds the remaining positionals |
| `Dispatch.ErrorLines` | build_helper.py:19-23 | `fatal` prints the message, then the help hint only when recommended |
| `Dispatch.HelpFlagFirst` | build_helper.py:168-170 | a leading `--help` shows help before any later token is examined |
| `Dispatch.NoSubcommandShowsHelp` | build_helper.py:172-176 | no subcommand, `--` alone, or `help` shows help |
| `Dispatch.UnknownGlobalFlag` | build_helper.py:168 | a flag-like token before the subcommand, other than `--help` and `--`, fails as unsupported without the hint |
| `Dispatch.UnknownSubcommand` | build_helper.py:213-214 | any other name in subcommand position fails with "Unexpected subcommand" and its repr, with the help hint; this includes a flag-like name after `--` |
| `Dispatch.FindGlobParsed` | build_helper.py:177-187 | `find-glob` with `--exclude` flags and one pattern yields that pattern and the exclude values in order |
| `Dispatch.FindGlobArityChecked` | build_helper.py:185-192 | `find-glob` with zero or several positionals fails with the arity message and the hint |
| `Dispatch.FindGlobOnlyFromItsArguments` | build_helper.py:177-187 | conversely, a `find-glob` outcome comes only from the exclude flags in order, optionally `--`, and exactly one pattern |
| `Dispatch.ScanCheckOk` | build_helper.py:194-199 | the `--check` loop succeeds only on nothing, `--check`, `--` or `--check --` before the rest; `check` is true exactly when `--check` was read |
| `Dispatch.ScanCheckReads` | build_helper.py:204-209 | zero or one `--check` before positionals is read back as `check` being false or true |
| `Dispatch.DuplicateCheck` | build_helper.py:195-198 | a second `--check` fails with "Already specified" whatever follows |
| `Dispatch.FormatJustfileParsed` | build_helper.py:193-202 | `format-justfile` needs at least one target, has `check` exactly when `--check` appeared, and rejects a duplicate `--check` |
| `Dispatch.ConvertConfigParsed` | build_helper.py:203-212 | `convert-config-file` takes no positionals, has `check` exactly when `--check` appeared, and rejects a duplicate `--check` |
| `Help.LeftJustify` | build_helper.py:129 | `: <width` pads with spaces to the width and never truncates |
| `Help.PrintGenericHelp` | build_helper.py:121-136 | prints the header, then the blocks in registry order with a blank line before every block but the first |
| `Help.PrintBlock` | build_helper.py:128-136 | a block is the usage line, then one line per flag in order |
| `Help.ListingSeparators` | build_helper.py:125-127 | the listing begins with the first usage line and has one blank line fewer than there are subcommands |
| `Help.UsageColumns` | build_helper.py:128-132 | a subcommand line is two spaces, the whole usage, and the description at column 60 when the usage fits |
| `Help.FlagColumns` | build_helper.py:133-136 | a flag line is four spaces, the whole usage, and the description at column 60 when the usage fits |
| `Help.RegistryAligned` | build_helper.py:91-117 | every usage in the registry fits, so every description starts at column 60 |
| `Config.Lookup` | build_helper.py:44 | `d[k]` is defined exactly for the keys of `d` and returns that key's entry |
| `Config.PutSpec` | build_helper.py:44 | assigning a key keeps an existing key in place with its new value, or appends a new key; other keys are unchanged |
| `Config.UpdateDistinct` | build_helper.py:44 | `d \| more` keeps keys distinct |
| `Config.UpdateKeys` | build_helper.py:44 | `d \| more` has `d`'s keys in order, then `more`'s new keys in order |
| `Config.UpdateLookup` | build_helper.py:44 | in `d \| more`, a key of `more` takes `more`'s value and any other key keeps `d`'s |
| `Config.GeneratedLayout` | build_helper.py:43-44 | the generated mapping has `_WARNING` first, then the section's keys in their original order with their values; it holds the warning text unless the section overrides it |
| `Config.RootKeysChecked` | build_helper.py:38-42 | conversion fails naming the key set exactly when the root key set is not `{"cookiecutter"}`, and then it writes nothing |
| `Config.CheckCompares` | build_helper.py:45-49 | check mode never writes, and succeeds exactly when the mapping renders and the file holds that rendering |
| `Config.RenderFailureWritesNothing` | build_helper.py:45 | a mapping `json.dumps` cannot encode stops the run in either mode, and cookiecutter.json is left as it was |
| `Config.OutOfDateReported` | build_helper.py:46-49 | a check against a file holding other text fails as out of date, leaves the file alone, and the message names cookiecutter.json |
| `Config.WriteThenCheck` | build_helper.py:45-51 | a write followed by a check succeeds, and writing again gives the same file |
| `Config.Workspace.ConvertConfigFile` | build_helper.py:33-51 | the conversion on the file state ends as `Convert` says, writing only in write mode |
| `Format.FlagsFor` | build_helper.py:64-67 | the formatter flags start with `--unstable`, end with `--fmt`, and hold `--check` exactly in check mode |
| `Format.CommandFlags` | build_helper.py:64-67 | the list built step by step is the flag list of the mode |
| `Format.FirstFailure` | build_helper.py:68-75 | the first target that is missing or whose formatter run exits non-zero; every earlier target is fine |
| `Format.FormatJustfile` | build_helper.py:61-75 | one formatter run per target in order, up to the first bad target; a missing file is reported before any run on it; a bad exit code is reported with the file name and the code; nothing after the first bad target is touched |
| `Format.SucceedsIffAllOk` | build_helper.py:68-75 | the run succeeds exactly when every target exists and formats cleanly |
| `PyText.ReprOfPlainText` | build_helper.py:163 | the `!r` of a plain string is that string in single quotes |
| `PyText.DigitsRoundTrip` | build_helper.py:75 | the exit code's decimal text reads back as the same number |
| `PyText.BaseName` | build_helper.py:75 | `target.name` is the longest slash-free suffix of the path after its trailing slashes are dropped; it is empty only for a path of slashes alone |
| `PyText.BaseNameOfChild` | build_helper.py:75 | the name of `dir/name` or `dir/name/` is `name`, for any slash-free `name` other than `.` |

## Left out

- Globbing in `find_glob` (build_helper.py:54-58) is left out. `Path.glob`, `Path.match` and the filesystem's enumeration order are library and OS behaviour. The model stops at the parsed `FindGlob(pattern, excludes)` outcome.
- Running `just` (build_helper.py:73-75) and the `is_file` check (build_helper.py:69-70) are not modelled as effects. For each target, their results are inputs to `Format.FormatJustfile`. The same target therefore always gets the same result.
- The stderr warning that formatting is unstable (build_helper.py:63) and the "Running …" line (build_helper.py:71) are output only, and are not modelled.
- TOML parsing (build_helper.py:34-35) is left out. The parsed document is an input: a TOML string is kept as its string value (`Text`), and every other scalar (number, boolean, date, time) as its literal text (`Scalar`). The `isinstance(toml_data, dict)` assertion holds by construction.
- The JSON rendering `json.dumps(..., indent=2)` (build_helper.py:45) is a function parameter, so its exact text is not modelled. Which values it refuses is up to that parameter: it returns None where `json.dumps` raises.
- `print`, the error stream and `exit` (build_helper.py:19-23, 137) are not modelled as effects. They become returned values: the help lines, `ErrorLines`, and the `Outcome`, whose exit status is 0 for help and 1 for `Fatal`.
- Config.FatalMessage: the model states only that each message names its file (cookiecutter.json or cookiecutter.toml). The bad-root-keys message stops before the key set's display. Python prints the set in hash order, which the model does not fix. The set itself is kept in `BadRootKeys`.
- Format.FormatJustfile: the target is used as given, both in "File does not exist" and in the `-f` argument of the formatter's command. The source passes `str(Path(target))` in both places, which also collapses repeated slashes, drops `.` components and drops trailing slashes.
- PyText.BaseName: drops trailing slashes and takes the last component. It does not model how `Path` treats `.` components.
- PyText.ReprOfPlainText: `repr` picks the quote and escapes backslashes, the quote, `\n`, `\r` and `\t`. The `\x`/`\u` escapes of other non-printable characters are not modelled.
- The `AssertionError` branches of `helper` (build_helper.py:169, 183-184, 196, 206) are not separate outcomes. `Dispatch.YieldedItems` proves them unreachable: each schema lets the scanner yield only the expected flag.
- hooks/pre_gen_project.py is not part of this model. It is glue over template substitution, Unicode `\w` regexes, `shutil.which` and `git init`.
- hooks/post_gen_project.py is not part of this model. It makes one subprocess call and prints a message.
