/** The help registry of build_helper.py and `print_generic_help`, which lists
    every subcommand's usage and description in two aligned columns, with the
    subcommand's flags indented one level deeper. The printed lines are
    returned instead of written to standard output. */
module Help {

  import opened Sequences

  /** How the script is invoked; `Path(__file__).name` is taken to be the
      script's own file name. */
  const CommandInvokeStart: string := "python ./build_helper.py"

  /** The column at which descriptions start. */
  const HelpDescIndent: nat := 60

  datatype FlagHelp = FlagHelp(usage: string, desc: string)

  datatype SubcommandHelp = SubcommandHelp(usage: string, desc: string, flags: seq<FlagHelp>)

  /** One entry of the registry, in the registry's order. */
  datatype Registered = Registered(name: string, help: SubcommandHelp)

  /** `SUBCOMMAND_HELP`: populated once, read-only afterwards. */
  const Registry: seq<Registered> := [
    Registered("help", SubcommandHelp("help", "Shows this help message", [])),
    Registered("find-glob", SubcommandHelp(
      "find-glob [flags] <pattern>",
      "Finds all paths matching the specified glob pattern",
      [FlagHelp("--exclude <pattern>", "Specifies a glob pattern of paths to exclude")])),
    Registered("format-justfile", SubcommandHelp(
      "format-justfile [flags] <targets+>",
      "Formats the specified justfiles",
      [FlagHelp("--check", "Check for formatting issues without modifying the source.")])),
    Registered("convert-config-file", SubcommandHelp(
      "convert-config-file [flags]",
      "Converts the main config (cookiecutter.toml) into JSON that cookiecutter understands",
      [FlagHelp("--check", "Checks that the generated file is up to date")]))
  ]

  function Spaces(n: nat): (r: string)
    ensures |r| == n && forall i :: 0 <= i < n ==> r[i] == ' '
  {
    if n == 0 then "" else Spaces(n - 1) + " "
  }

  /** The format spec `: <width`: the text followed by spaces up to `width`
      characters; a longer text is kept whole, never truncated. */
  function LeftJustify(s: string, width: nat): (r: string)
    ensures |r| == if |s| < width then width else |s|
    ensures r[..|s|] == s
    ensures forall i :: |s| <= i < |r| ==> r[i] == ' '
  {
    if |s| < width then s + Spaces(width - |s|) else s
  }

  /** A subcommand's line: two spaces, the usage padded to the description
      column, the description. */
  function UsageLine(c: SubcommandHelp): string {
    Spaces(2) + LeftJustify(c.usage, HelpDescIndent - 2) + c.desc
  }

  /** A flag's line: four spaces, the usage padded to the description
      column, the description. */
  function FlagLine(f: FlagHelp): string {
    Spaces(4) + LeftJustify(f.usage, HelpDescIndent - 4) + f.desc
  }

  function FlagLines(flags: seq<FlagHelp>): (r: seq<string>)
    ensures |r| == |flags|
    ensures forall i :: 0 <= i < |flags| ==> r[i] == FlagLine(flags[i])
  {
    if flags == [] then [] else FlagLines(flags[..|flags| - 1]) + [FlagLine(flags[|flags| - 1])]
  }

  /** The lines of one subcommand. */
  function Block(c: SubcommandHelp): seq<string> {
    [UsageLine(c)] + FlagLines(c.flags)
  }

  /** The subcommand listing: the blocks in registry order, a blank line
      between two consecutive blocks. */
  function Listing(reg: seq<Registered>): seq<string> {
    if |reg| == 0 then []
    else if |reg| == 1 then Block(reg[0].help)
    else Listing(reg[..|reg| - 1]) + [""] + Block(reg[|reg| - 1].help)
  }

  const Header: seq<string> := ["Usage: " + CommandInvokeStart + " <subcommand> ", "", "Available subcommands:"]

  function HelpLines(reg: seq<Registered>): seq<string> {
    Header + Listing(reg)
  }

  /** `print_generic_help`: the header, then the registry walked with its
      index, a blank line printed before every block but the first. */
  method PrintGenericHelp(reg: seq<Registered>) returns (lines: seq<string>)
    ensures lines == HelpLines(reg)
  {
    lines := Header;
    for idx := 0 to |reg|
      invariant lines == Header + Listing(reg[..idx])
    {
      ghost var separated := if idx == 0 then [] else Listing(reg[..idx]) + [""];
      if idx != 0 {
        Assoc(Header, Listing(reg[..idx]), [""]);
        lines := lines + [""];
      }
      assert lines == Header + separated;
      lines := PrintBlock(lines, reg[idx].help);
      Assoc(Header, separated, Block(reg[idx].help));
      ListingStep(reg, idx);
    }
    assert reg[..|reg|] == reg;
  }

  /** One subcommand's usage line, then its flag lines in order. */
  method PrintBlock(before: seq<string>, c: SubcommandHelp) returns (lines: seq<string>)
    ensures lines == before + Block(c)
  {
    lines := before + [UsageLine(c)];
    for k := 0 to |c.flags|
      invariant lines == before + ([UsageLine(c)] + FlagLines(c.flags[..k]))
    {
      assert c.flags[..k + 1][..k] == c.flags[..k];
      var next := FlagLine(c.flags[k]);
      assert FlagLines(c.flags[..k + 1]) == FlagLines(c.flags[..k]) + [next];
      Assoc([UsageLine(c)], FlagLines(c.flags[..k]), [next]);
      Assoc(before, [UsageLine(c)] + FlagLines(c.flags[..k]), [next]);
      lines := lines + [next];
    }
    assert c.flags[..|c.flags|] == c.flags;
  }

  /** The listing of one more entry: a separator unless it is the first, then
      that entry's block. */
  lemma ListingStep(reg: seq<Registered>, idx: nat)
    requires idx < |reg|
    ensures Listing(reg[..idx + 1])
      == (if idx == 0 then [] else Listing(reg[..idx]) + [""]) + Block(reg[idx].help)
  {
    assert reg[..idx + 1][..idx] == reg[..idx];
    assert reg[..idx + 1][idx] == reg[idx];
  }

  /** The number of blank lines. */
  function CountBlank(lines: seq<string>): (n: nat)
    ensures n <= |lines|
  {
    if lines == [] then 0
    else CountBlank(lines[..|lines| - 1]) + (if lines[|lines| - 1] == "" then 1 else 0)
  }

  lemma {:induction false} CountBlankAppend(a: seq<string>, b: seq<string>)
    ensures CountBlank(a + b) == CountBlank(a) + CountBlank(b)
    decreases |b|
  {
    if b == [] {
      assert a + b == a;
    } else {
      assert (a + b)[..|a + b| - 1] == a + b[..|b| - 1];
      CountBlankAppend(a, b[..|b| - 1]);
    }
  }

  /** No line of a block is blank: each starts with its indentation. */
  lemma BlockHasNoBlank(c: SubcommandHelp)
    ensures CountBlank(Block(c)) == 0
  {
    var fl := FlagLines(c.flags);
    NoBlankLines(fl);
    CountBlankAppend([UsageLine(c)], fl);
    assert CountBlank([UsageLine(c)]) == 0 by {
      assert UsageLine(c)[0] == ' ';
      assert [UsageLine(c)][..0] == [];
    }
  }

  lemma {:induction false} NoBlankLines(fl: seq<string>)
    requires forall i :: 0 <= i < |fl| ==> |fl[i]| > 0
    ensures CountBlank(fl) == 0
  {
    if fl != [] {
      NoBlankLines(fl[..|fl| - 1]);
    }
  }

  /** A blank line separates consecutive subcommand blocks and none precedes
      the first: the listing starts with the first subcommand's usage line and
      holds exactly one blank line fewer than there are subcommands. */
  lemma {:induction false} ListingSeparators(reg: seq<Registered>)
    requires reg != []
    ensures Listing(reg)[0] == UsageLine(reg[0].help)
    ensures CountBlank(Listing(reg)) == |reg| - 1
  {
    if |reg| == 1 {
      BlockHasNoBlank(reg[0].help);
    } else {
      var init := reg[..|reg| - 1];
      ListingSeparators(init);
      assert init[0] == reg[0];
      var last := reg[|reg| - 1].help;
      BlockHasNoBlank(last);
      CountBlankAppend(Listing(init), [""]);
      CountBlankAppend(Listing(init) + [""], Block(last));
      assert CountBlank([""]) == 1 by {
        assert [""][..0] == [];
      }
    }
  }

  /** The description of a subcommand starts at column 60 whenever the usage
      fits in front of it; a longer usage is printed whole and the
      description follows it directly. */
  lemma UsageColumns(c: SubcommandHelp)
    ensures var line := UsageLine(c);
      line[..2] == "  " && line[2..2 + |c.usage|] == c.usage
    ensures |c.usage| <= HelpDescIndent - 2 ==> UsageLine(c)[HelpDescIndent..] == c.desc
    ensures |c.usage| > HelpDescIndent - 2 ==> UsageLine(c) == "  " + c.usage + c.desc
  {
    var j := LeftJustify(c.usage, HelpDescIndent - 2);
    assert UsageLine(c) == "  " + j + c.desc;
    assert (Spaces(2) + j + c.desc)[2..2 + |c.usage|] == j[..|c.usage|];
  }

  /** The same alignment for a flag line, indented four spaces. */
  lemma FlagColumns(f: FlagHelp)
    ensures var line := FlagLine(f);
      line[..4] == "    " && line[4..4 + |f.usage|] == f.usage
    ensures |f.usage| <= HelpDescIndent - 4 ==> FlagLine(f)[HelpDescIndent..] == f.desc
    ensures |f.usage| > HelpDescIndent - 4 ==> FlagLine(f) == "    " + f.usage + f.desc
  {
    var j := LeftJustify(f.usage, HelpDescIndent - 4);
    assert FlagLine(f) == "    " + j + f.desc;
    assert (Spaces(4) + j + f.desc)[4..4 + |f.usage|] == j[..|f.usage|];
  }

  /** Every usage in the registry fits its column, so every description of
      the printed help starts at column 60. */
  lemma RegistryAligned()
    ensures forall e :: e in Registry ==>
      UsageLine(e.help)[HelpDescIndent..] == e.help.desc
      && forall f :: f in e.help.flags ==> FlagLine(f)[HelpDescIndent..] == f.desc
  {
    forall e | e in Registry
      ensures UsageLine(e.help)[HelpDescIndent..] == e.help.desc
      ensures forall f :: f in e.help.flags ==> FlagLine(f)[HelpDescIndent..] == f.desc
    {
      assert |e.help.usage| <= HelpDescIndent - 2;
      UsageColumns(e.help);
      forall f | f in e.help.flags
        ensures FlagLine(f)[HelpDescIndent..] == f.desc
      {
        assert |f.usage| <= HelpDescIndent - 4;
        FlagColumns(f);
      }
    }
  }
}
