/** `format_justfile` of build_helper.py: the formatter's argument vector and
    the fail-fast walk over the targets. The filesystem check and the formatter
    itself are outside the model: for each target, whether it is a regular file
    and the exit code `just` returns on it are given as functions. */
module Format {

  import PyText

  /** The formatter flags for a mode: the unstable flag first, the check
      flag only in check mode, the format request last. */
  function FlagsFor(check: bool): (r: seq<string>)
    ensures |r| >= 2 && r[0] == "--unstable" && r[|r| - 1] == "--fmt"
    ensures "--check" in r <==> check
  {
    if check then ["--unstable", "--check", "--fmt"] else ["--unstable", "--fmt"]
  }

  /** `command_flags`, built up as the source builds it. */
  method CommandFlags(check: bool) returns (flags: seq<string>)
    ensures flags == FlagsFor(check)
  {
    flags := ["--unstable"];
    if check {
      flags := flags + ["--check"];
    }
    flags := flags + ["--fmt"];
  }

  /** The argument vector of one formatter run on `target`. */
  function JustCommand(flags: seq<string>, target: string): seq<string> {
    ["just"] + flags + ["-f", target]
  }

  /** The formatter runs for `targets`, one each, in order. */
  function Invocations(flags: seq<string>, targets: seq<string>): (r: seq<seq<string>>)
    ensures |r| == |targets|
    ensures forall k :: 0 <= k < |targets| ==> r[k] == JustCommand(flags, targets[k])
  {
    if targets == [] then []
    else Invocations(flags, targets[..|targets| - 1]) + [JustCommand(flags, targets[|targets| - 1])]
  }

  /** A target that exists and that the formatter accepts. */
  predicate TargetOk(t: string, isFile: string -> bool, exitCode: string -> int) {
    isFile(t) && exitCode(t) == 0
  }

  /** The index of the first target that stops the run, or the number of
      targets when none does. */
  function FirstFailure(targets: seq<string>, isFile: string -> bool, exitCode: string -> int): (i: nat)
    ensures i <= |targets|
    ensures forall j :: 0 <= j < i ==> TargetOk(targets[j], isFile, exitCode)
    ensures i < |targets| ==> !TargetOk(targets[i], isFile, exitCode)
  {
    if targets == [] || !TargetOk(targets[0], isFile, exitCode) then 0
    else 1 + FirstFailure(targets[1..], isFile, exitCode)
  }

  /** The `fatal` message for a target that stops the run: a missing file is
      named as given, a formatter failure by the file's name and exit code. */
  function FailureMessage(t: string, isFile: string -> bool, exitCode: string -> int): string {
    if !isFile(t) then "File does not exist: " + t
    else "Formatting " + PyText.Repr(PyText.BaseName(t)) + " failed with exit code "
         + PyText.IntText(exitCode(t))
  }

  datatype FormatOutcome = Formatted | Fatal(message: string)

  /** The targets the formatter is started on: every target before the first
      bad one, and the bad one itself when it exists as a file. */
  function Attempted(targets: seq<string>, isFile: string -> bool, exitCode: string -> int): seq<string> {
    var i := FirstFailure(targets, isFile, exitCode);
    targets[..i] + (if i < |targets| && isFile(targets[i]) then [targets[i]] else [])
  }

  /** How the run ends: success when no target is bad, otherwise the first
      bad target's message. */
  function Ending(targets: seq<string>, isFile: string -> bool, exitCode: string -> int): FormatOutcome {
    var i := FirstFailure(targets, isFile, exitCode);
    if i == |targets| then Formatted else Fatal(FailureMessage(targets[i], isFile, exitCode))
  }

  /** The first failure is the index before which every target is fine and at
      which a bad target (or the end) stands. */
  lemma FirstFailureAt(targets: seq<string>, isFile: string -> bool, exitCode: string -> int, k: nat)
    requires k <= |targets|
    requires forall j :: 0 <= j < k ==> TargetOk(targets[j], isFile, exitCode)
    requires k < |targets| ==> !TargetOk(targets[k], isFile, exitCode)
    ensures FirstFailure(targets, isFile, exitCode) == k
  {
  }

  /** `format_justfile(targets, check=check)`: returns the formatter runs it
      starts, in order, and how it ends. Every target before the first bad one
      is formatted; a missing target is reported before the formatter runs on
      it; no target after the first bad one is looked at. */
  method FormatJustfile(targets: seq<string>, check: bool, isFile: string -> bool,
                        exitCode: string -> int)
    returns (commands: seq<seq<string>>, outcome: FormatOutcome)
    ensures commands == Invocations(FlagsFor(check), Attempted(targets, isFile, exitCode))
    ensures outcome == Ending(targets, isFile, exitCode)
  {
    var flags := CommandFlags(check);
    commands := [];
    for k := 0 to |targets|
      invariant forall j :: 0 <= j < k ==> TargetOk(targets[j], isFile, exitCode)
      invariant commands == Invocations(flags, targets[..k])
    {
      var target := targets[k];
      if !isFile(target) {
        outcome := Fatal("File does not exist: " + target);
        FirstFailureAt(targets, isFile, exitCode, k);
        assert targets[..k] + [] == targets[..k];
        return;
      }
      assert targets[..k + 1] == targets[..k] + [target];
      commands := commands + [JustCommand(flags, target)];
      if exitCode(target) != 0 {
        outcome := Fatal("Formatting " + PyText.Repr(PyText.BaseName(target))
                         + " failed with exit code " + PyText.IntText(exitCode(target)));
        FirstFailureAt(targets, isFile, exitCode, k);
        return;
      }
    }
    FirstFailureAt(targets, isFile, exitCode, |targets|);
    assert targets[..|targets|] == targets;
    outcome := Formatted;
  }

  /** The run succeeds exactly when every target exists and formats
      cleanly. */
  lemma SucceedsIffAllOk(targets: seq<string>, isFile: string -> bool, exitCode: string -> int)
    ensures FirstFailure(targets, isFile, exitCode) == |targets|
            <==> forall t :: t in targets ==> TargetOk(t, isFile, exitCode)
  {
  }
}
