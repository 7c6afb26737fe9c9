/**
 * End-user options of the failure report: the expansion format and colour,
 * read from the `ASSERT2` variable (a comma-separated list of tokens) and
 * from the clicolors variables `NO_COLOR`, `CLICOLOR` and `CLICOLOR_FORCE`.
 */
module Options {
  import opened Common

  datatype ExpansionFormat = Auto | Pretty | Compact

  datatype AssertOptions = AssertOptions(expand: ExpansionFormat, color: bool)

  /** The environment as the options see it: each variable unset or set to a value, and whether stderr is a terminal. */
  datatype Env = Env(
    assert2: Option<string>,
    noColor: Option<string>,
    clicolor: Option<string>,
    clicolorForce: Option<string>,
    stderrIsTerminal: bool)

  // ---------------------------------------------------------------------
  // Expansion format

  /** `force_pretty`. */
  predicate ForcePretty(f: ExpansionFormat) {
    f == Pretty
  }

  /** `force_compact`. */
  predicate ForceCompact(f: ExpansionFormat) {
    f == Compact
  }

  /** The compact and the pretty Debug rendering of one value. */
  datatype Debugged = Debugged(compact: string, pretty: string)

  function Compacts(values: seq<Debugged>): (r: seq<string>)
    ensures |r| == |values| && forall i :: 0 <= i < |values| ==> r[i] == values[i].compact
  {
    if values == [] then [] else Compacts(values[..|values| - 1]) + [values[|values| - 1].compact]
  }

  function Pretties(values: seq<Debugged>): (r: seq<string>)
    ensures |r| == |values| && forall i :: 0 <= i < |values| ==> r[i] == values[i].pretty
  {
    if values == [] then [] else Pretties(values[..|values| - 1]) + [values[|values| - 1].pretty]
  }

  /** The heuristic of `is_compact_good`: every text is at most 40 bytes long and none spans lines. */
  predicate CompactGood(expanded: seq<string>) {
    && (forall i :: 0 <= i < |expanded| ==> ByteLen(expanded[i]) <= 40)
    && (forall i :: 0 <= i < |expanded| ==> '\n' !in expanded[i])
  }

  /** `is_compact_good`: first every length, then every line break, returning early on a failure. */
  method IsCompactGood(expanded: seq<string>) returns (good: bool)
    ensures good == CompactGood(expanded)
  {
    for i := 0 to |expanded|
      invariant forall j :: 0 <= j < i ==> ByteLen(expanded[j]) <= 40
    {
      if ByteLen(expanded[i]) > 40 {
        return false;
      }
    }
    for i := 0 to |expanded|
      invariant forall j :: 0 <= j < i ==> '\n' !in expanded[j]
    {
      if '\n' in expanded[i] {
        return false;
      }
    }
    return true;
  }

  /** Whether the compact forms are used: not forced pretty, and either forced compact or compact enough. */
  predicate UseCompact(f: ExpansionFormat, compacts: seq<string>) {
    !ForcePretty(f) && (ForceCompact(f) || CompactGood(compacts))
  }

  /** `expand_all`: all values in the compact form or all in the pretty form. */
  function ExpandAll(f: ExpansionFormat, values: seq<Debugged>): (r: seq<string>)
    ensures |r| == |values|
    ensures UseCompact(f, Compacts(values)) ==> r == Compacts(values)
    ensures !UseCompact(f, Compacts(values)) ==> r == Pretties(values)
  {
    if UseCompact(f, Compacts(values)) then Compacts(values) else Pretties(values)
  }

  /** Pretty always gives the pretty forms, Compact always the compact ones, and Auto the compact ones exactly when they are good. */
  lemma ExpandAllModes(values: seq<Debugged>)
    ensures ExpandAll(Pretty, values) == Pretties(values)
    ensures ExpandAll(Compact, values) == Compacts(values)
    ensures ExpandAll(Auto, values) == if CompactGood(Compacts(values)) then Compacts(values) else Pretties(values)
  {
  }

  /** ASCII text takes one byte per character. */
  lemma {:induction false} AsciiByteLen(s: string)
    requires forall i :: 0 <= i < |s| ==> s[i] as int < 0x80
    ensures ByteLen(s) == |s|
  {
    if s != [] {
      AsciiByteLen(s[..|s| - 1]);
    }
  }

  /** The 40-byte bound is inclusive: 40 ASCII characters are compact enough, 41 are not, and nothing at all is. */
  lemma CompactGoodBound()
    ensures CompactGood([])
    ensures CompactGood([Repeat('x', 40)])
    ensures !CompactGood([Repeat('x', 41)])
    ensures !CompactGood(["a\nb"])
  {
    AsciiByteLen(Repeat('x', 40));
    AsciiByteLen(Repeat('x', 41));
    assert ByteLen([Repeat('x', 41)][0]) > 40;
    assert '\n' in ["a\nb"][0] by {
      assert "a\nb"[1] == '\n';
    }
  }

  // ---------------------------------------------------------------------
  // Colour

  /** `is_true`: "1", or "true" or "yes" in any ASCII case. */
  predicate IsTrue(value: string) {
    value == "1" || EqIgnoreAsciiCase(value, "true") || EqIgnoreAsciiCase(value, "yes")
  }

  /** `is_false`: "0", or "false" or "no" in any ASCII case. */
  predicate IsFalse(value: string) {
    value == "0" || EqIgnoreAsciiCase(value, "false") || EqIgnoreAsciiCase(value, "no")
  }

  /** No value is both true-like and false-like; other values, such as "2" or the empty string, are neither. */
  lemma TrueFalseExclusive(value: string)
    ensures !(IsTrue(value) && IsFalse(value))
    ensures !IsTrue("2") && !IsFalse("2") && !IsTrue("") && !IsFalse("")
    ensures IsTrue("YES") && IsFalse("No")
  {
    assert !EqIgnoreAsciiCase("2", "true") && !EqIgnoreAsciiCase("2", "yes");
    assert !EqIgnoreAsciiCase("2", "false") && !EqIgnoreAsciiCase("2", "no");
    assert AsciiLower('Y') == 'y' && AsciiLower('E') == 'e' && AsciiLower('S') == 's' && AsciiLower('N') == 'n';
  }

  /** A variable that is set to a value satisfying `p`. */
  predicate SetTo(v: Option<string>, p: string -> bool) {
    v.Some? && p(v.value)
  }

  /** `should_color`: the clicolors rules, in their order of precedence. */
  function ShouldColor(env: Env): bool {
    if SetTo(env.noColor, IsTrue) then false
    else if SetTo(env.clicolor, IsFalse) then false
    else if SetTo(env.clicolorForce, IsTrue) then true
    else env.stderrIsTerminal
  }

  /**
   * Colour is on exactly when `NO_COLOR` does not ask to turn it off,
   * `CLICOLOR` does not turn it off, and either `CLICOLOR_FORCE` forces it or
   * stderr is a terminal; without any of the variables the terminal decides.
   */
  lemma ShouldColorRule(env: Env)
    ensures ShouldColor(env) <==>
      !SetTo(env.noColor, IsTrue) && !SetTo(env.clicolor, IsFalse)
      && (SetTo(env.clicolorForce, IsTrue) || env.stderrIsTerminal)
    ensures env.noColor == None && env.clicolor == None && env.clicolorForce == None ==>
      ShouldColor(env) == env.stderrIsTerminal
  {
  }

  // ---------------------------------------------------------------------
  // The ASSERT2 variable

  /** `str::split`: the pieces between the separators; the empty string is one empty piece. */
  function SplitOn(s: string, sep: char): (parts: seq<string>)
    ensures |parts| >= 1
    ensures forall i :: 0 <= i < |parts| ==> sep !in parts[i]
    decreases |s|
  {
    var i := IndexOf(s, sep);
    if i == |s| then [s] else [s[..i]] + SplitOn(s[i + 1..], sep)
  }

  /** Joining the pieces with the separator gives back the text. */
  lemma {:induction false} SplitJoin(s: string, sep: char)
    ensures JoinWith(SplitOn(s, sep), [sep]) == s
    decreases |s|
  {
    var i := IndexOf(s, sep);
    if i == |s| {
      assert s[..i] == s;
    } else {
      SplitJoin(s[i + 1..], sep);
      JoinCons(s[..i], SplitOn(s[i + 1..], sep), [sep]);
      assert s == s[..i] + [sep] + s[i + 1..];
    }
  }

  /** A first part followed by at least one more is joined by one separator to the join of the others. */
  lemma JoinCons(head: string, rest: seq<string>, sep: string)
    requires rest != []
    ensures JoinWith([head] + rest, sep) == head + sep + JoinWith(rest, sep)
  {
    assert ([head] + rest)[1..] == rest;
  }

  /** There is one piece more than there are separators. */
  lemma {:induction false} SplitCount(s: string, sep: char)
    ensures |SplitOn(s, sep)| == CountFrom(sep, s) + 1
    decreases |s|
  {
    var i := IndexOf(s, sep);
    if i == |s| {
      assert s[..i] == s;
      CountFromAbsent(sep, s);
    } else {
      SplitCount(s[i + 1..], sep);
      CountFromSplit(sep, s, i);
      assert SplitOn(s, sep) == [s[..i]] + SplitOn(s[i + 1..], sep);
    }
  }

  /** The number of `x` in `s`, counted from the front. */
  function CountFrom(x: char, s: string): nat {
    if s == [] then 0 else (if s[0] == x then 1 else 0) + CountFrom(x, s[1..])
  }

  lemma {:induction false} CountFromAbsent(x: char, s: string)
    requires x !in s
    ensures CountFrom(x, s) == 0
  {
    if s != [] {
      assert forall c :: c in s[1..] ==> c in s;
      CountFromAbsent(x, s[1..]);
    }
  }

  lemma {:induction false} CountFromSplit(x: char, s: string, i: nat)
    requires i < |s| && s[i] == x && x !in s[..i]
    ensures CountFrom(x, s) == 1 + CountFrom(x, s[i + 1..])
    decreases i
  {
    if i > 0 {
      assert s[1..][..i - 1] == s[1..i];
      assert forall c :: c in s[1..i] ==> c in s[..i];
      CountFromSplit(x, s[1..], i - 1);
      assert s[1..][i..] == s[i + 1..];
    }
  }

  /** `str::trim_start`: drop leading whitespace. */
  function TrimStart(t: CharTable, s: string): (r: string)
    ensures |r| <= |s| && r == s[|s| - |r|..]
    ensures r == [] || !t.isWhitespace(r[0])
    ensures forall i :: 0 <= i < |s| - |r| ==> t.isWhitespace(s[i])
  {
    if s != [] && t.isWhitespace(s[0]) then
      var r := TrimStart(t, s[1..]);
      assert s[1..][|s| - 1 - |r|..] == s[|s| - |r|..];
      r
    else s
  }

  /** `str::trim_end`: drop trailing whitespace. */
  function TrimEnd(t: CharTable, s: string): (r: string)
    ensures |r| <= |s| && r == s[..|r|]
    ensures r == [] || !t.isWhitespace(r[|r| - 1])
    ensures forall i :: |r| <= i < |s| ==> t.isWhitespace(s[i])
  {
    if s != [] && t.isWhitespace(s[|s| - 1]) then
      var r := TrimEnd(t, s[..|s| - 1]);
      assert s[..|s| - 1][..|r|] == s[..|r|];
      r
    else s
  }

  /** `str::trim`. */
  function Trim(t: CharTable, s: string): string {
    TrimEnd(t, TrimStart(t, s))
  }

  /** The trimmed tokens of the variable's value. */
  function Tokens(t: CharTable, value: string): seq<string> {
    TrimAll(t, SplitOn(value, ','))
  }

  /** Each word of the loop in `from_env`, trimmed, in order. */
  function TrimAll(t: CharTable, parts: seq<string>): (r: seq<string>)
    ensures |r| == |parts| && forall i {:trigger r[i]} :: 0 <= i < |parts| ==> r[i] == Trim(t, parts[i])
  {
    Map(w => Trim(t, w), parts)
  }

  /** One token of the loop in `from_env`: the four known tokens in any ASCII case, anything else ignored. */
  function ApplyToken(o: AssertOptions, word: string): AssertOptions {
    if EqIgnoreAsciiCase(word, "pretty") then o.(expand := Pretty)
    else if EqIgnoreAsciiCase(word, "compact") then o.(expand := Compact)
    else if EqIgnoreAsciiCase(word, "color") then o.(color := true)
    else if EqIgnoreAsciiCase(word, "no-color") then o.(color := false)
    else o
  }

  /** The tokens applied in order. */
  function ApplyTokens(o: AssertOptions, words: seq<string>): AssertOptions {
    if words == [] then o else ApplyToken(ApplyTokens(o, words[..|words| - 1]), words[|words| - 1])
  }

  /** The defaults: automatic expansion and the clicolors decision. */
  function Defaults(env: Env): AssertOptions {
    AssertOptions(Auto, ShouldColor(env))
  }

  /** `from_env`; an unset variable reads as the empty string. */
  function FromEnvF(t: CharTable, env: Env): AssertOptions {
    ApplyTokens(Defaults(env), Tokens(t, if env.assert2.Some? then env.assert2.value else ""))
  }

  /** `from_env`: the defaults, then each token of the variable in turn. */
  method FromEnv(t: CharTable, env: Env) returns (output: AssertOptions)
    ensures output == FromEnvF(t, env)
  {
    var format := if env.assert2.Some? then env.assert2.value else "";
    output := Defaults(env);
    var words := SplitOn(format, ',');
    for i := 0 to |words|
      invariant output == ApplyTokens(Defaults(env), TrimAll(t, words[..i]))
    {
      var word := Trim(t, words[i]);
      TokensSnoc(t, Defaults(env), words, i);
      output := ReadToken(output, word);
    }
    assert words[..|words|] == words;
  }

  /** The body of the loop in `from_env`: one token changes the format or the colour, or nothing. */
  method ReadToken(o: AssertOptions, word: string) returns (output: AssertOptions)
    ensures output == ApplyToken(o, word)
  {
    output := o;
    if EqIgnoreAsciiCase(word, "pretty") {
      output := output.(expand := Pretty);
    } else if EqIgnoreAsciiCase(word, "compact") {
      output := output.(expand := Compact);
    } else if EqIgnoreAsciiCase(word, "color") {
      output := output.(color := true);
    } else if EqIgnoreAsciiCase(word, "no-color") {
      output := output.(color := false);
    }
  }

  /** One more token of the loop is applied after the ones before it. */
  lemma TokensSnoc(t: CharTable, o: AssertOptions, words: seq<string>, i: nat)
    requires i < |words|
    ensures ApplyTokens(o, TrimAll(t, words[..i + 1])) == ApplyToken(ApplyTokens(o, TrimAll(t, words[..i])), Trim(t, words[i]))
  {
    MapTakeSnoc(w => Trim(t, w), words, i);
  }

  /** The format the last format token asks for, if there is one. */
  function LastFormat(words: seq<string>): Option<ExpansionFormat> {
    if words == [] then None
    else
      var w := words[|words| - 1];
      if EqIgnoreAsciiCase(w, "pretty") then Some(Pretty)
      else if EqIgnoreAsciiCase(w, "compact") then Some(Compact)
      else LastFormat(words[..|words| - 1])
  }

  /** The colour the last colour token asks for, if there is one. */
  function LastColor(words: seq<string>): Option<bool> {
    if words == [] then None
    else
      var w := words[|words| - 1];
      if EqIgnoreAsciiCase(w, "color") then Some(true)
      else if EqIgnoreAsciiCase(w, "no-color") then Some(false)
      else LastColor(words[..|words| - 1])
  }

  /** The four token spellings are distinct even ignoring case, so a token sets at most one option. */
  lemma TokensDistinct(w: string)
    ensures EqIgnoreAsciiCase(w, "pretty") ==> !EqIgnoreAsciiCase(w, "compact")
    ensures EqIgnoreAsciiCase(w, "color") ==> !EqIgnoreAsciiCase(w, "no-color")
  {
  }

  /** Later tokens win: each option is set by the last token that names it, and otherwise keeps its default. */
  lemma {:induction false} LastTokenWins(o: AssertOptions, words: seq<string>)
    ensures ApplyTokens(o, words).expand == if LastFormat(words).Some? then LastFormat(words).value else o.expand
    ensures ApplyTokens(o, words).color == if LastColor(words).Some? then LastColor(words).value else o.color
  {
    if words != [] {
      LastTokenWins(o, words[..|words| - 1]);
      TokensDistinct(words[|words| - 1]);
    }
  }

  /** Tokens that name no option, such as the documented `auto`, change nothing. */
  lemma UnknownTokensIgnored(o: AssertOptions, words: seq<string>)
    requires LastFormat(words) == None && LastColor(words) == None
    ensures ApplyTokens(o, words) == o
  {
    LastTokenWins(o, words);
  }

  /** An unset or empty variable gives the defaults. */
  lemma EmptyVariable(t: CharTable, env: Env)
    requires env.assert2 == None || env.assert2 == Some("")
    ensures FromEnvF(t, env) == AssertOptions(Auto, ShouldColor(env))
  {
    assert SplitOn("", ',') == [""];
    assert Tokens(t, "") == [""];
    assert [""][..0] == [];
    assert ApplyTokens(Defaults(env), [""]) == ApplyToken(Defaults(env), "");
  }

  /** The variable `color, Pretty` splits into two pieces at the comma. */
  lemma SplitExample()
    ensures SplitOn("color, Pretty", ',') == ["color", " Pretty"]
  {
    assert "color, Pretty" == "color" + [','] + " Pretty";
    SplitTwo("color", " Pretty", ',');
  }

  /** A text with one separator splits into the two sides of it. */
  lemma SplitTwo(a: string, b: string, sep: char)
    requires sep !in a && sep !in b
    ensures SplitOn(a + [sep] + b, sep) == [a, b]
  {
    var s := a + [sep] + b;
    assert s[..|a|] == a && s[|a| + 1..] == b;
    IndexOfAt(s, sep, |a|);
    assert b[..|b|] == b;
    IndexOfAt(b, sep, |b|);
  }

  /** The first `c` is at `k` when `c` is at `k` (or `k` is the end) and not before it. */
  lemma IndexOfAt(s: string, c: char, k: nat)
    requires k <= |s| && c !in s[..k] && (k < |s| ==> s[k] == c)
    ensures IndexOf(s, c) == k
  {
  }

  /** Trimming drops the space before the second token. */
  lemma TrimExample(t: CharTable)
    requires t.isWhitespace(' ') && !t.isWhitespace('c') && !t.isWhitespace('r') && !t.isWhitespace('P') && !t.isWhitespace('y')
    ensures Trim(t, "color") == "color" && Trim(t, " Pretty") == "Pretty"
  {
    assert " Pretty"[1..] == "Pretty";
    assert TrimStart(t, " Pretty") == "Pretty";
  }

  /** The tokens `color` and `Pretty`, in that order, set both options whatever they were. */
  lemma ColorPrettyExample(o: AssertOptions)
    ensures ApplyTokens(o, ["color", "Pretty"]) == AssertOptions(Pretty, true)
  {
    var words := ["color", "Pretty"];
    assert words[..1] == ["color"] && words[..1][..0] == [];
    assert EqIgnoreAsciiCase("Pretty", "pretty") by {
      assert AsciiLower('P') == 'p';
    }
    assert EqIgnoreAsciiCase("color", "color");
  }
}
