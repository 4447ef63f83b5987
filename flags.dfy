/** The flag scanner `parse_flags` of build_helper.py: it inspects the front of a
    mutable argument list, removes the flag tokens it recognises and hands them
    out one at a time, and stops at the first positional argument or at `--`. */
module Flags {

  import PyText
  import Sequences

  /** A token that looks like a flag: it starts with `-`. */
  predicate IsFlagLike(t: string) {
    |t| > 0 && t[0] == '-'
  }

  const Terminator: string := "--"

  /** The flags one parsing context accepts, and those of them that take a value. */
  datatype Schema = Schema(valid: set<string>, hasValue: set<string>)

  /** The schema conditions that `parse_flags` asserts before scanning. */
  predicate WellFormed(s: Schema) {
    (forall f :: f in s.valid ==> IsFlagLike(f)) && s.hasValue <= s.valid
  }

  /** One parsed flag: a bare flag, or a flag with the value that followed it. */
  datatype Parsed = Bare(flag: string) | WithValue(flag: string, value: string)

  /** The usage errors of the scanner (each a `fatal` call in the source). */
  datatype FlagError = MissingValue(flag: string) | Unsupported(token: string)

  /** What one resumption of the generator produces: an item, the end of the
      flags, or a usage error. */
  datatype Step = Yield(item: Parsed) | Done | Fail(error: FlagError)

  /** A step together with what is left of the argument list after it. */
  datatype StepOutcome = StepOutcome(step: Step, rest: seq<string>)

  /** The tokens an item was read from. */
  function Tokens(p: Parsed): (r: seq<string>)
    ensures |r| >= 1 && r[0] == p.flag
  {
    match p
    case Bare(f) => [f]
    case WithValue(f, v) => [f, v]
  }

  /** The tokens a sequence of items was read from, in order. */
  function Flatten(items: seq<Parsed>): (r: seq<string>)
    ensures |r| >= |items|
  {
    if items == [] then [] else Tokens(items[0]) + Flatten(items[1..])
  }

  /** An item the scanner can produce under schema `s`. */
  predicate ValidItem(s: Schema, p: Parsed) {
    p.flag in s.valid && p.flag != Terminator && (p.WithValue? <==> p.flag in s.hasValue)
  }

  /** The text of the message `fatal` prints for a scanner error. */
  function ErrorMessage(e: FlagError): (msg: string)
    ensures |msg| > 0
  {
    match e
    case MissingValue(f) => "Expected a value for flag " + PyText.Repr(f)
    case Unsupported(t) => "Unsupported flag: " + PyText.Repr(t)
  }

  /** One iteration of the scanner's loop on the argument list `args`. */
  function NextStep(s: Schema, args: seq<string>): (r: StepOutcome)
    requires WellFormed(s)
    ensures |r.rest| <= |args|
    ensures r.step.Yield? ==> |r.rest| < |args|
  {
    if args == [] || !IsFlagLike(args[0]) then StepOutcome(Done, args)
    else
      var flag := args[0];
      if flag == Terminator then StepOutcome(Done, args[1..])
      else if flag in s.valid then
        if flag in s.hasValue then
          if |args| > 1 then StepOutcome(Yield(WithValue(flag, args[1])), args[2..])
          else StepOutcome(Fail(MissingValue(flag)), args[1..])
        else StepOutcome(Yield(Bare(flag)), args[1..])
      else StepOutcome(Fail(Unsupported(flag)), args[1..])
  }

  /** What one iteration does to the list: tokens are only ever removed from
      the front; nothing is removed exactly when the front is not a flag; an
      item is made of the removed tokens and fits the schema; the end of the
      flags after a removed token is `--`; an unknown flag-like token fails
      naming it, and a value flag with nothing after it fails as missing its
      value. */
  lemma NextStepShape(s: Schema, args: seq<string>)
    requires WellFormed(s)
    ensures var r := NextStep(s, args);
      r.rest == args[|args| - |r.rest|..]
      && (r.rest == args <==> args == [] || !IsFlagLike(args[0]))
      && (r.rest == args ==> r.step == Done)
      && (r.step.Yield? ==> args == Tokens(r.step.item) + r.rest && ValidItem(s, r.step.item))
      && (r.step.Done? && r.rest != args ==> args == [Terminator] + r.rest)
      && (r.step.Fail? ==> IsFlagLike(args[0]) && args[0] != Terminator)
      && (r.step.Fail? && r.step.error.Unsupported? ==>
            r.step.error.token == args[0] && args[0] !in s.valid && r.rest == args[1..])
      && (r.step.Fail? && r.step.error.MissingValue? ==>
            args == [r.step.error.flag] && args[0] in s.hasValue && r.rest == [])
  {
    if args == [] || !IsFlagLike(args[0]) {
    } else if args[0] == Terminator {
      assert args == [Terminator] + args[1..];
    } else if args[0] !in s.valid {
    } else if args[0] !in s.hasValue {
      assert args == [args[0]] + args[1..];
    } else if |args| > 1 {
      assert args == [args[0], args[1]] + args[2..];
    } else {
      assert args == [args[0]];
    }
  }

  /** The whole run of the generator when the caller keeps asking for items:
      every item it yields, in order, then either the remaining arguments or
      the error that ended it. */
  datatype ScanResult =
    | Scanned(items: seq<Parsed>, rest: seq<string>)
    | ScanFailed(items: seq<Parsed>, error: FlagError, rest: seq<string>)

  /** The same run with `items` yielded before it. */
  function Prefixed(items: seq<Parsed>, r: ScanResult): ScanResult {
    match r
    case Scanned(more, rest) => Scanned(items + more, rest)
    case ScanFailed(more, e, rest) => ScanFailed(items + more, e, rest)
  }

  function Scan(s: Schema, args: seq<string>): ScanResult
    requires WellFormed(s)
    decreases |args|
  {
    var o := NextStep(s, args);
    match o.step
    case Done => Scanned([], o.rest)
    case Fail(e) => ScanFailed([], e, o.rest)
    case Yield(p) => Prefixed([p], Scan(s, o.rest))
  }

  /** Every item the scan yields fits the schema. */
  lemma {:induction false} ScanItemsValid(s: Schema, args: seq<string>)
    requires WellFormed(s)
    ensures forall i :: 0 <= i < |Scan(s, args).items| ==> ValidItem(s, Scan(s, args).items[i])
    decreases |args|
  {
    var o := NextStep(s, args);
    if o.step.Yield? {
      NextStepShape(s, args);
      ScanItemsValid(s, o.rest);
      var tail := Scan(s, o.rest);
      var r := Scan(s, args);
      assert r.items == [o.step.item] + tail.items;
      forall i | 0 <= i < |r.items|
        ensures ValidItem(s, r.items[i])
      {
        if i > 0 {
          assert r.items[i] == tail.items[i - 1];
        } else {
          assert r.items[i] == o.step.item;
        }
      }
    }
  }

  /** A scan that ends normally removed exactly the tokens of the items it
      yielded, in encounter order, plus `--` when that is what ended it; when
      it ended without `--`, it stopped at the end of the list or at a token
      that is not a flag. */
  lemma {:induction false} ScanConsumesPrefix(s: Schema, args: seq<string>)
    requires WellFormed(s)
    requires Scan(s, args).Scanned?
    ensures ConsumedPrefix(args, Scan(s, args).items, Scan(s, args).rest)
    decreases |args|
  {
    var o := NextStep(s, args);
    NextStepShape(s, args);
    if o.step.Yield? {
      ScanConsumesPrefix(s, o.rest);
      var tail := Scan(s, o.rest);
      assert Scan(s, args) == Scanned([o.step.item] + tail.items, tail.rest);
      ConsumedPrefixCons(o.step.item, tail.items, o.rest, tail.rest);
    } else {
      assert Flatten([]) == [];
    }
  }

  /** `args` is the tokens of `items`, then possibly `--`, then `rest`; without
      `--`, `rest` does not start with a flag. */
  predicate ConsumedPrefix(args: seq<string>, items: seq<Parsed>, rest: seq<string>) {
    (args == Flatten(items) + rest && (rest == [] || !IsFlagLike(rest[0])))
    || args == Flatten(items) + [Terminator] + rest
  }

  lemma ConsumedPrefixCons(p: Parsed, items: seq<Parsed>, args: seq<string>, rest: seq<string>)
    requires ConsumedPrefix(args, items, rest)
    ensures ConsumedPrefix(Tokens(p) + args, [p] + items, rest)
  {
    FlattenCons(p, items);
    var f := Flatten(items);
    if args == f + rest {
      assert Tokens(p) + args == (Tokens(p) + f) + rest;
    } else {
      assert Tokens(p) + args == (Tokens(p) + f) + [Terminator] + rest;
    }
  }

  /** A scan that fails has removed at least the tokens of the items it
      yielded before the error, in encounter order, and failed on the token
      right after them: an unsupported flag-like token, named by the error and
      followed by what is left, or a value flag that is the last token. */
  lemma {:induction false} ScanFailedPrefix(s: Schema, args: seq<string>)
    requires WellFormed(s)
    requires Scan(s, args).ScanFailed?
    ensures StrictPrefix(Flatten(Scan(s, args).items), args)
    ensures FailedAfter(s, args, Scan(s, args).items, Scan(s, args).error, Scan(s, args).rest)
    decreases |args|
  {
    var o := NextStep(s, args);
    NextStepShape(s, args);
    if o.step.Yield? {
      ScanFailedPrefix(s, o.rest);
      var tail := Scan(s, o.rest);
      assert Scan(s, args).items == [o.step.item] + tail.items;
      FlattenCons(o.step.item, tail.items);
      StrictPrefixCons(Tokens(o.step.item), Flatten(tail.items), o.rest);
      FailedAfterCons(s, o.step.item, o.rest, tail.items, tail.error, tail.rest);
    } else {
      assert Flatten([]) == [];
      if o.step.error.Unsupported? {
        assert args == [] + [args[0]] + args[1..];
      } else {
        assert args == [] + [args[0]];
      }
    }
  }

  /** `args` is the tokens of `items`, then the token the error `e` names:
      either a flag-like token outside the schema followed by `rest`, or a
      value flag with nothing after it. */
  predicate FailedAfter(s: Schema, args: seq<string>, items: seq<Parsed>, e: FlagError,
                        rest: seq<string>) {
    match e
    case Unsupported(t) =>
      args == Flatten(items) + [t] + rest && IsFlagLike(t) && t != Terminator && t !in s.valid
    case MissingValue(f) =>
      args == Flatten(items) + [f] && rest == [] && f in s.hasValue
  }

  lemma FailedAfterCons(s: Schema, p: Parsed, args: seq<string>, items: seq<Parsed>,
                        e: FlagError, rest: seq<string>)
    requires FailedAfter(s, args, items, e, rest)
    ensures FailedAfter(s, Tokens(p) + args, [p] + items, e, rest)
  {
    FlattenCons(p, items);
    var f := Flatten(items);
    match e
    case Unsupported(t) =>
      assert Tokens(p) + args == (Tokens(p) + f) + [t] + rest;
    case MissingValue(v) =>
      assert Tokens(p) + args == (Tokens(p) + f) + [v];
  }

  /** `a` is a proper prefix of `b`. */
  predicate StrictPrefix<T(==)>(a: seq<T>, b: seq<T>) {
    |a| < |b| && b[..|a|] == a
  }

  lemma StrictPrefixCons<T>(t: seq<T>, a: seq<T>, b: seq<T>)
    requires StrictPrefix(a, b)
    ensures StrictPrefix(t + a, t + b)
  {
    assert (t + b)[..|t| + |a|] == t + b[..|a|];
  }

  lemma FlattenCons(p: Parsed, items: seq<Parsed>)
    ensures Flatten([p] + items) == Tokens(p) + Flatten(items)
  {
    assert ([p] + items)[0] == p;
    assert ([p] + items)[1..] == items;
  }

  /** Round trip: flags rendered as tokens and followed by positional
      arguments are read back as the same items, and the positionals are left
      in place. */
  lemma {:induction false} ScanFlattened(s: Schema, items: seq<Parsed>, positional: seq<string>)
    requires WellFormed(s)
    requires forall i :: 0 <= i < |items| ==> ValidItem(s, items[i])
    requires positional == [] || !IsFlagLike(positional[0])
    ensures Scan(s, Flatten(items) + positional) == Scanned(items, positional)
  {
    ScanFlattenedThen(s, items, positional);
  }

  /** Reading a run of valid items from the front of any list yields those
      items first, and then whatever the rest of the list gives. */
  lemma {:induction false} ScanFlattenedThen(s: Schema, items: seq<Parsed>, tail: seq<string>)
    requires WellFormed(s)
    requires forall i :: 0 <= i < |items| ==> ValidItem(s, items[i])
    ensures Scan(s, Flatten(items) + tail) == Prefixed(items, Scan(s, tail))
  {
    if items == [] {
      assert Flatten(items) + tail == tail;
      match Scan(s, tail)
      case Scanned(more, rest) => assert [] + more == more;
      case ScanFailed(more, e, rest) => assert [] + more == more;
    } else {
      var p := items[0];
      var more := items[1..];
      assert items == [p] + more;
      FlattenCons(p, more);
      Sequences.Assoc(Tokens(p), Flatten(more), tail);
      ScanOfItem(s, p, Flatten(more) + tail);
      ScanFlattenedThen(s, more, tail);
      PrefixedAppend([p], more, Scan(s, tail));
    }
  }

  /** A valid item at the front is the scan's first item. */
  lemma ScanOfItem(s: Schema, p: Parsed, after: seq<string>)
    requires WellFormed(s) && ValidItem(s, p)
    ensures Scan(s, Tokens(p) + after) == Prefixed([p], Scan(s, after))
  {
    NextStepOfItem(s, p, after);
  }

  lemma PrefixedAppend(a: seq<Parsed>, b: seq<Parsed>, r: ScanResult)
    ensures Prefixed(a, Prefixed(b, r)) == Prefixed(a + b, r)
  {
    assert forall more: seq<Parsed> :: a + (b + more) == (a + b) + more;
  }

  /** A valid item at the front of the list is yielded and its tokens removed. */
  lemma NextStepOfItem(s: Schema, p: Parsed, after: seq<string>)
    requires WellFormed(s) && ValidItem(s, p)
    ensures NextStep(s, Tokens(p) + after) == StepOutcome(Yield(p), after)
  {
    var args := Tokens(p) + after;
    assert args[0] == p.flag && IsFlagLike(p.flag);
    if p.WithValue? {
      assert args[1] == p.value && args[2..] == after;
    } else {
      assert args[1..] == after;
    }
  }

  /** After valid flags, `--` ends the scan and every later token is left as
      a positional argument, even one that starts with `-`. */
  lemma TerminatorKeepsRest(s: Schema, items: seq<Parsed>, tail: seq<string>)
    requires WellFormed(s)
    requires forall i :: 0 <= i < |items| ==> ValidItem(s, items[i])
    ensures Scan(s, Flatten(items) + [Terminator] + tail) == Scanned(items, tail)
  {
    assert Flatten(items) + [Terminator] + tail == Flatten(items) + ([Terminator] + tail);
    ScanFlattenedThen(s, items, [Terminator] + tail);
    assert NextStep(s, [Terminator] + tail).rest == tail;
  }

  /** A value flag as the last token: the items before it are yielded, then
      the scan fails with a missing-value error. */
  lemma MissingValueAtEnd(s: Schema, items: seq<Parsed>, flag: string)
    requires WellFormed(s)
    requires forall i :: 0 <= i < |items| ==> ValidItem(s, items[i])
    requires flag in s.hasValue && flag != Terminator
    ensures Scan(s, Flatten(items) + [flag]) == ScanFailed(items, MissingValue(flag), [])
  {
    ScanFlattenedThen(s, items, [flag]);
    assert IsFlagLike(flag);
  }

  /** A flag-like token outside the schema: the items before it are yielded,
      then the scan fails naming that token, whatever follows it. */
  lemma UnsupportedFlag(s: Schema, items: seq<Parsed>, token: string, tail: seq<string>)
    requires WellFormed(s)
    requires forall i :: 0 <= i < |items| ==> ValidItem(s, items[i])
    requires IsFlagLike(token) && token != Terminator && token !in s.valid
    ensures Scan(s, Flatten(items) + [token] + tail) == ScanFailed(items, Unsupported(token), tail)
  {
    assert Flatten(items) + [token] + tail == Flatten(items) + ([token] + tail);
    ScanFlattenedThen(s, items, [token] + tail);
    assert ([token] + tail)[1..] == tail;
  }

  /** The live argument list that `parse_flags` drains. */
  class ArgList {
    var args: seq<string>

    constructor (argv: seq<string>)
      ensures args == argv
    {
      args := argv;
    }

    /** `args.pop(0)` */
    method Pop() returns (t: string)
      requires args != []
      modifies this
      ensures t == old(args)[0] && args == old(args)[1..]
    {
      t := args[0];
      args := args[1..];
    }

    /** Resumes the scanner once: the loop body of `parse_flags` up to its next
        `yield`, `break` or `fatal`. */
    method NextFlag(s: Schema) returns (step: Step)
      requires WellFormed(s)
      modifies this
      ensures NextStep(s, old(args)) == StepOutcome(step, args)
    {
      if args == [] || !IsFlagLike(args[0]) {
        return Done;
      }
      var flag := Pop();
      if flag == Terminator {
        return Done;
      }
      if flag in s.valid {
        if flag in s.hasValue {
          if args != [] {
            var value := Pop();
            return Yield(WithValue(flag, value));
          }
          return Fail(MissingValue(flag));
        }
        return Yield(Bare(flag));
      }
      return Fail(Unsupported(flag));
    }
  }
}
