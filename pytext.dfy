/** Text conventions of the Python runtime that the helper's messages rely on:
    `repr` of a string (the `!r` conversion in f-strings), `str` of an integer,
    and the last path component (`Path.name`). */
module PyText {

  /** True when `s` contains the character `c`. */
  predicate Has(s: string, c: char) {
    exists i :: 0 <= i < |s| && s[i] == c
  }

  /** The quote `repr` picks: a double quote only when the text holds a single
      quote and no double quote, a single quote otherwise. */
  function QuoteFor(s: string): (q: char)
    ensures q == '\'' || q == '"'
    ensures q == '"' <==> Has(s, '\'') && !Has(s, '"')
  {
    if Has(s, '\'') && !Has(s, '"') then '"' else '\''
  }

  /** The escaped form of one character inside a literal quoted with `q`. */
  function EscapeChar(c: char, q: char): (r: string)
    ensures |r| == 1 || |r| == 2
    ensures |r| == 1 <==> r == [c]
  {
    if c == '\\' then "\\\\"
    else if c == q then ['\\', q]
    else if c == '\n' then "\\n"
    else if c == '\r' then "\\r"
    else if c == '\t' then "\\t"
    else [c]
  }

  /** True when `c` is written as itself inside a literal quoted with `q`. */
  predicate Plain(c: char, q: char) {
    c != '\\' && c != q && c != '\n' && c != '\r' && c != '\t'
  }

  /** The body of the literal: every character escaped in turn. */
  function Escape(s: string, q: char): (r: string)
    ensures |r| >= |s|
  {
    if s == [] then [] else EscapeChar(s[0], q) + Escape(s[1..], q)
  }

  lemma {:induction false} EscapePlain(s: string, q: char)
    requires forall i :: 0 <= i < |s| ==> Plain(s[i], q)
    ensures Escape(s, q) == s
  {
    if s != [] {
      EscapePlain(s[1..], q);
    }
  }

  /** Python's `repr` of a string. */
  function Repr(s: string): (r: string)
    ensures |r| >= |s| + 2
    ensures r[0] == r[|r| - 1] == QuoteFor(s)
  {
    [QuoteFor(s)] + Escape(s, QuoteFor(s)) + [QuoteFor(s)]
  }

  /** A string without quotes, backslashes or line breaks is shown between
      single quotes, unchanged. */
  lemma ReprOfPlainText(s: string)
    requires forall i :: 0 <= i < |s| ==> Plain(s[i], '\'') && s[i] != '"'
    ensures Repr(s) == "'" + s + "'"
  {
    assert !Has(s, '\'');
    EscapePlain(s, '\'');
  }

  /** The decimal digits of a natural number, most significant first. */
  function Digits(n: nat): (r: string)
    ensures |r| >= 1
    ensures forall i :: 0 <= i < |r| ==> '0' <= r[i] <= '9'
  {
    if n < 10 then [DigitChar(n)] else Digits(n / 10) + [DigitChar(n % 10)]
  }

  function DigitChar(d: nat): (c: char)
    requires d < 10
    ensures '0' <= c <= '9'
  {
    "0123456789"[d]
  }

  /** Reads back a string of decimal digits. */
  function ValueOf(s: string): int
    requires forall i :: 0 <= i < |s| ==> '0' <= s[i] <= '9'
  {
    if s == [] then 0 else 10 * ValueOf(s[..|s| - 1]) + (s[|s| - 1] as int - '0' as int)
  }

  lemma {:induction false} DigitsRoundTrip(n: nat)
    ensures ValueOf(Digits(n)) == n
  {
    var r := Digits(n);
    if n < 10 {
      assert r == [DigitChar(n)];
    } else {
      DigitsRoundTrip(n / 10);
      assert r[..|r| - 1] == Digits(n / 10);
    }
  }

  /** Python's `str` of an integer (an exit code may be negative). */
  function IntText(n: int): (r: string)
    ensures |r| >= 1
    ensures r[0] == '-' <==> n < 0
  {
    if n < 0 then "-" + Digits(-n) else Digits(n)
  }

  /** `Path(p).name` for a path written with `/`: the last component, after
      trailing slashes are dropped. It is empty only for a path made of
      slashes alone. */
  function BaseName(p: string): (r: string)
    ensures |r| <= |p|
    ensures !Has(r, '/')
    ensures var t := TrimTrailingSlashes(p);
      |r| <= |t| && r == t[|t| - |r|..] && (|r| == |t| || t[|t| - |r| - 1] == '/')
    ensures r == [] <==> forall i :: 0 <= i < |p| ==> p[i] == '/'
  {
    LastComponent(TrimTrailingSlashes(p))
  }

  /** `p` without the slashes at its end. */
  function TrimTrailingSlashes(p: string): (r: string)
    ensures |r| <= |p| && r == p[..|r|]
    ensures forall i :: |r| <= i < |p| ==> p[i] == '/'
    ensures r == [] || r[|r| - 1] != '/'
  {
    if p != [] && p[|p| - 1] == '/' then TrimTrailingSlashes(p[..|p| - 1]) else p
  }

  /** The text after the last slash: the longest suffix without a slash. */
  function LastComponent(p: string): (r: string)
    ensures |r| <= |p| && r == p[|p| - |r|..]
    ensures !Has(r, '/')
    ensures |r| == |p| || p[|p| - |r| - 1] == '/'
    ensures !Has(p, '/') ==> r == p
  {
    if p == [] || p[|p| - 1] == '/' then []
    else LastComponent(p[..|p| - 1]) + [p[|p| - 1]]
  }

  /** The name of a child path is the child's own name, with or without a
      slash after it. `.` is excluded: `Path` drops that component, and
      `BaseName` does not model that. */
  lemma BaseNameOfChild(dir: string, name: string)
    requires name != [] && name != "." && !Has(name, '/')
    ensures BaseName(dir + "/" + name) == name
    ensures BaseName(dir + "/" + name + "/") == name
  {
    var p := dir + "/" + name;
    assert p[|p| - 1] == name[|name| - 1];
    assert TrimTrailingSlashes(p) == p;
    var q := p + "/";
    assert q[..|q| - 1] == p;
    assert TrimTrailingSlashes(q) == p;
    LastComponentOfChild(dir, name);
  }

  lemma LastComponentOfChild(dir: string, name: string)
    requires !Has(name, '/')
    ensures LastComponent(dir + "/" + name) == name
  {
    LastComponentAfterSlash(dir + "/", name);
  }

  lemma {:induction false} LastComponentAfterSlash(d: string, name: string)
    requires d != [] && d[|d| - 1] == '/'
    requires !Has(name, '/')
    ensures LastComponent(d + name) == name
    decreases |name|
  {
    if name == [] {
      assert d + name == d;
    } else {
      var last := name[|name| - 1];
      var init := name[..|name| - 1];
      assert !Has(init, '/') by {
        assert forall i :: 0 <= i < |init| ==> init[i] == name[i];
      }
      var p := d + name;
      assert p[..|p| - 1] == d + init;
      assert p[|p| - 1] == last;
      LastComponentAfterSlash(d, init);
      assert init + [last] == name;
    }
  }
}
