/** `convert_config_file` of build_helper.py: the single `cookiecutter` section
    of cookiecutter.toml, with the generated-file warning put first, rendered as
    JSON and either written to cookiecutter.json or compared with it. The TOML
    parser and the JSON renderer are outside the model: the parsed document is
    an input, the renderer a function parameter. */
module Config {

  import opened Sequences

  const SrcConfig: string := "cookiecutter.toml"
  const GeneratedConfigFile: string := "cookiecutter.json"
  const SectionKey: string := "cookiecutter"
  const WarningKey: string := "_WARNING"
  const WarningText: string :=
    "THIS FILE HAS BEEN AUTOMATICALLY GENERATED FROM `" + SrcConfig + "`. DO NOT MODIFY!!"

  /** A parsed TOML value. `Text` is a Python string (a TOML string, or the
      warning this script adds); `Scalar` is any other TOML scalar (number,
      boolean, date or time), kept as its literal text. */
  datatype Value =
    | Text(s: string)
    | Scalar(literal: string)
    | List(items: seq<Value>)
    | Table(entries: seq<Entry>)

  /** One key of a table, in insertion order. */
  datatype Entry = Entry(key: string, value: Value)

  datatype Option<T> = None | Some(value: T)

  /** `GENERATED_WARNING_HEADER` */
  const WarningHeader: seq<Entry> := [Entry(WarningKey, Text(WarningText))]

  /** The keys of a table, in insertion order. */
  function Keys(d: seq<Entry>): (ks: seq<string>)
    ensures |ks| == |d|
    ensures forall i :: 0 <= i < |d| ==> ks[i] == d[i].key
  {
    if d == [] then [] else [d[0].key] + Keys(d[1..])
  }

  /** No key occurs twice (true of every parsed TOML table and every dict). */
  predicate DistinctKeys(d: seq<Entry>) {
    forall i, j :: 0 <= i < j < |d| ==> d[i].key != d[j].key
  }

  /** `d[k]`, or None when `k` is not a key of `d`. */
  function Lookup(d: seq<Entry>, k: string): (r: Option<Value>)
    ensures r.Some? <==> k in Keys(d)
    ensures r.Some? ==> Entry(k, r.value) in d
  {
    if d == [] then None
    else if d[0].key == k then Some(d[0].value)
    else Lookup(d[1..], k)
  }

  /** `d[e.key] = e.value`: an existing key keeps its place and takes the new
      value, a new key goes last. */
  function Put(d: seq<Entry>, e: Entry): seq<Entry> {
    if d == [] then [e]
    else if d[0].key == e.key then [e] + d[1..]
    else [d[0]] + Put(d[1..], e)
  }

  /** `d | more`: `d`'s entries, updated by `more`'s entries in order. */
  function Update(d: seq<Entry>, more: seq<Entry>): seq<Entry>
    decreases |more|
  {
    if more == [] then d else Update(Put(d, more[0]), more[1..])
  }

  /** The keys of `ks` that are not in `excluded`, in order. */
  function Without(ks: seq<string>, excluded: set<string>): (r: seq<string>)
    ensures forall k :: k in r <==> k in ks && k !in excluded
  {
    if ks == [] then []
    else if ks[0] in excluded then Without(ks[1..], excluded)
    else [ks[0]] + Without(ks[1..], excluded)
  }

  /** What a put does: the key order grows by the new key only when it is
      new, the new key maps to the new value and every other key keeps its
      value. */
  lemma {:induction false} PutSpec(d: seq<Entry>, e: Entry)
    ensures Keys(Put(d, e)) == if e.key in Keys(d) then Keys(d) else Keys(d) + [e.key]
    ensures forall k :: Lookup(Put(d, e), k) == if k == e.key then Some(e.value) else Lookup(d, k)
  {
    if d != [] && d[0].key != e.key {
      PutSpec(d[1..], e);
      var r := Put(d, e);
      assert r[1..] == Put(d[1..], e);
      assert Keys(r) == [d[0].key] + Keys(Put(d[1..], e));
      assert Keys(d) == [d[0].key] + Keys(d[1..]);
      if e.key !in Keys(d[1..]) {
        assert Keys(d) + [e.key] == [d[0].key] + (Keys(d[1..]) + [e.key]);
      }
    } else if d != [] {
      var r := Put(d, e);
      assert r[1..] == d[1..];
    }
  }

  /** Putting a key keeps a table's keys distinct. */
  lemma PutDistinct(d: seq<Entry>, e: Entry)
    requires DistinctKeys(d)
    ensures DistinctKeys(Put(d, e))
  {
    PutSpec(d, e);
    var ks := Keys(Put(d, e));
    assert forall i, j :: 0 <= i < j < |ks| ==> ks[i] != ks[j];
  }

  /** Merging a table with distinct keys into another keeps the keys
      distinct. */
  lemma {:induction false} UpdateDistinct(d: seq<Entry>, more: seq<Entry>)
    requires DistinctKeys(d)
    ensures DistinctKeys(Update(d, more))
    decreases |more|
  {
    if more != [] {
      PutDistinct(d, more[0]);
      UpdateDistinct(Put(d, more[0]), more[1..]);
    }
  }

  /** Merging a table with distinct keys into another keeps `d`'s keys in
      their order and appends `more`'s new keys in their order. */
  lemma {:induction false} UpdateKeys(d: seq<Entry>, more: seq<Entry>)
    requires DistinctKeys(more)
    ensures Keys(Update(d, more)) == Keys(d) + Without(Keys(more), KeysOf(d))
    decreases |more|
  {
    if more != [] {
      var e := more[0];
      var d' := Put(d, e);
      PutSpec(d, e);
      assert DistinctKeys(more[1..]);
      UpdateKeys(d', more[1..]);
      assert Keys(more) == [e.key] + Keys(more[1..]);
      assert e.key !in Keys(more[1..]);
      var rest := Keys(more[1..]);
      if e.key in Keys(d) {
        assert KeysOf(d') == KeysOf(d);
      } else {
        assert KeysOf(d') == KeysOf(d) + {e.key};
        WithoutOneMore(rest, KeysOf(d), e.key);
        Assoc(Keys(d), [e.key], Without(rest, KeysOf(d)));
      }
    } else {
      assert Keys(d) + [] == Keys(d);
    }
  }

  /** After the merge a key of `more` takes its value from `more`, any other
      key keeps its value from `d`. */
  lemma {:induction false} UpdateLookup(d: seq<Entry>, more: seq<Entry>, k: string)
    requires DistinctKeys(more)
    ensures Lookup(Update(d, more), k) == if k in Keys(more) then Lookup(more, k) else Lookup(d, k)
    decreases |more|
  {
    if more != [] {
      var e := more[0];
      var tail := more[1..];
      assert DistinctKeys(tail);
      UpdateLookup(Put(d, e), tail, k);
      PutSpec(d, e);
      assert Lookup(Put(d, e), k) == if k == e.key then Some(e.value) else Lookup(d, k);
      assert Keys(more) == [e.key] + Keys(tail);
      if k == e.key {
        assert k !in Keys(tail);
      } else {
        assert Lookup(more, k) == Lookup(tail, k);
      }
    }
  }

  /** The key set of a table. */
  function KeysOf(d: seq<Entry>): (s: set<string>)
    ensures forall k :: k in s <==> k in Keys(d)
  {
    set i | 0 <= i < |d| :: d[i].key
  }

  lemma WithoutOneMore(ks: seq<string>, excluded: set<string>, k: string)
    requires k !in ks
    ensures Without(ks, excluded + {k}) == Without(ks, excluded)
  {
    if ks != [] {
      WithoutOneMore(ks[1..], excluded, k);
    }
  }

  /** `GENERATED_WARNING_HEADER | toml_data["cookiecutter"]` */
  function Generated(section: seq<Entry>): seq<Entry> {
    Update(WarningHeader, section)
  }

  /** The generated mapping has `_WARNING` as its first key, then the
      section's keys in their original order; every section key keeps its
      value, and `_WARNING` holds the warning unless the section overrides
      it (in which case its value is replaced but it stays first). */
  lemma {:induction false} GeneratedLayout(section: seq<Entry>)
    requires DistinctKeys(section)
    ensures Keys(Generated(section)) == [WarningKey] + Without(Keys(section), {WarningKey})
    ensures forall k :: k in Keys(section) ==> Lookup(Generated(section), k) == Lookup(section, k)
    ensures WarningKey !in Keys(section) ==>
      Lookup(Generated(section), WarningKey) == Some(Text(WarningText))
    ensures DistinctKeys(Generated(section))
  {
    UpdateKeys(WarningHeader, section);
    UpdateDistinct(WarningHeader, section);
    forall k | true
      ensures Lookup(Generated(section), k)
              == if k in Keys(section) then Lookup(section, k) else Lookup(WarningHeader, k)
    {
      UpdateLookup(WarningHeader, section, k);
    }
    assert KeysOf(WarningHeader) == {WarningKey};
    assert Keys(WarningHeader) == [WarningKey];
  }

  /** The ways `convert_config_file` ends badly: the two `fatal` calls, and
      three exceptions it leaves uncaught (a section that is not a table cannot
      be merged into a dict; `json.dumps` refuses a value it cannot encode,
      such as a TOML date; reading a missing cookiecutter.json fails). */
  datatype ConvertError =
    | BadRootKeys(found: set<string>)
    | OutOfDate
    | SectionNotTable
    | RenderFailed
    | GeneratedMissing

  datatype Outcome = Done | Failed(error: ConvertError)

  /** The message of a `fatal` error. For the wrong root keys the message ends
      with Python's display of the key set, whose order is the set's hash order
      and is left out. */
  function FatalMessage(e: ConvertError): (msg: string)
    requires e.BadRootKeys? || e.OutOfDate?
    ensures e.OutOfDate? ==> Mentions(msg, GeneratedConfigFile)
    ensures e.BadRootKeys? ==> Mentions(msg, SrcConfig)
  {
    if e.OutOfDate? then
      var lead := "Generated config `";
      var m := lead + GeneratedConfigFile + "` is out of date.";
      assert m[|lead|..|lead| + |GeneratedConfigFile|] == GeneratedConfigFile;
      m
    else
      var lead := "The config file `";
      var m := lead + SrcConfig
               + "` should only have one top level entry (cookiecutter), but instead got ";
      assert m[|lead|..|lead| + |SrcConfig|] == SrcConfig;
      m
  }

  /** `w` occurs in `m`. */
  predicate Mentions(m: string, w: string) {
    exists i, j :: 0 <= i <= j <= |m| && m[i..j] == w
  }

  /** The outcome of a run and the contents of cookiecutter.json after it. */
  datatype Conversion = Conversion(outcome: Outcome, file: Option<string>)

  /** One run of `convert_config_file` on the parsed document `root`, with
      cookiecutter.json holding `existing` (None when it does not exist).
      `render` is `json.dumps(..., indent=2)`, None where it raises. */
  function Convert(root: seq<Entry>, check: bool, render: seq<Entry> -> Option<string>,
                   existing: Option<string>): Conversion
  {
    if KeysOf(root) != {SectionKey} then Conversion(Failed(BadRootKeys(KeysOf(root))), existing)
    else
      var section := Lookup(root, SectionKey).value;
      if !section.Table? then Conversion(Failed(SectionNotTable), existing)
      else
        var expected := render(Generated(section.entries));
        if expected.None? then Conversion(Failed(RenderFailed), existing)
        else if !check then Conversion(Done, expected)
        else if existing.None? then Conversion(Failed(GeneratedMissing), existing)
        else if expected.value != existing.value then Conversion(Failed(OutOfDate), existing)
        else Conversion(Done, existing)
  }

  /** The root key set must be exactly {"cookiecutter"}; otherwise the run
      fails naming the keys found and the generated file is not touched. */
  lemma RootKeysChecked(root: seq<Entry>, check: bool, render: seq<Entry> -> Option<string>,
                        existing: Option<string>)
    ensures var c := Convert(root, check, render, existing);
      (c.outcome == Failed(BadRootKeys(KeysOf(root))) <==> KeysOf(root) != {SectionKey})
      && (KeysOf(root) != {SectionKey} ==> c.file == existing)
  {
  }

  /** Check mode never writes, and succeeds exactly when the generated
      mapping renders and the file holds that rendering. */
  lemma CheckCompares(root: seq<Entry>, render: seq<Entry> -> Option<string>,
                      existing: Option<string>)
    requires KeysOf(root) == {SectionKey}
    requires Lookup(root, SectionKey).value.Table?
    ensures var c := Convert(root, true, render, existing);
      var expected := render(Generated(Lookup(root, SectionKey).value.entries));
      c.file == existing
      && (c.outcome == Done <==> expected.Some? && existing == expected)
  {
  }

  /** A mapping the renderer cannot encode stops the run in either mode
      before cookiecutter.json is read or written. */
  lemma RenderFailureWritesNothing(root: seq<Entry>, check: bool,
                                   render: seq<Entry> -> Option<string>, existing: Option<string>)
    requires KeysOf(root) == {SectionKey}
    requires Lookup(root, SectionKey).value.Table?
    requires render(Generated(Lookup(root, SectionKey).value.entries)).None?
    ensures Convert(root, check, render, existing) == Conversion(Failed(RenderFailed), existing)
  {
  }

  /** A check against a file that holds some other text fails as out of
      date, leaves the file alone and names cookiecutter.json. */
  lemma OutOfDateReported(root: seq<Entry>, render: seq<Entry> -> Option<string>,
                          existing: Option<string>)
    requires KeysOf(root) == {SectionKey}
    requires Lookup(root, SectionKey).value.Table?
    requires render(Generated(Lookup(root, SectionKey).value.entries)).Some?
    requires existing.Some?
    requires existing != render(Generated(Lookup(root, SectionKey).value.entries))
    ensures Convert(root, true, render, existing) == Conversion(Failed(OutOfDate), existing)
    ensures Mentions(FatalMessage(OutOfDate), GeneratedConfigFile)
  {
  }

  /** A write followed by a check succeeds, and a second write produces the
      same file as the first. */
  lemma WriteThenCheck(root: seq<Entry>, render: seq<Entry> -> Option<string>,
                       existing: Option<string>)
    ensures var w := Convert(root, false, render, existing);
      w.outcome == Done ==>
        Convert(root, true, render, w.file) == Conversion(Done, w.file)
        && Convert(root, false, render, w.file) == w
  {
  }

  /** The file cookiecutter.json, the only state the conversion changes. */
  class Workspace {
    var generated: Option<string>

    constructor (existing: Option<string>)
      ensures generated == existing
    {
      generated := existing;
    }

    /** `convert_config_file(check=check)`, with `root` the parsed
        cookiecutter.toml. */
    method ConvertConfigFile(root: seq<Entry>, check: bool, render: seq<Entry> -> Option<string>)
      returns (outcome: Outcome)
      modifies this
      ensures Convert(root, check, render, old(generated)) == Conversion(outcome, generated)
    {
      var rootKeys := KeysOf(root);
      if rootKeys != {SectionKey} {
        return Failed(BadRootKeys(rootKeys));
      }
      var section := Lookup(root, SectionKey).value;
      if !section.Table? {
        return Failed(SectionNotTable);
      }
      var expected := render(Update(WarningHeader, section.entries));
      if expected.None? {
        return Failed(RenderFailed);
      }
      if check {
        if generated.None? {
          return Failed(GeneratedMissing);
        }
        if expected.value != generated.value {
          return Failed(OutOfDate);
        }
      } else {
        generated := expected;
      }
      return Done;
    }
  }
}
