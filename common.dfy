/**
 * Shared vocabulary of the model: optional values, terminal styles, the
 * Unicode character tables the renderer consults, and a few sequence helpers
 * (repetition, concatenation, counting, splitting into lines).
 */
module Common {

  datatype Option<+T> = None | Some(value: T)

  /** A terminal style, reduced to the escape text it writes before and after styled text. */
  datatype Style = Style(prefix: string, suffix: string)

  /** `yansi::Style::new()`: the style that writes no escape codes at all. */
  const PlainStyle: Style := Style("", "")

  /** Text in a style: wrapped in the style's escape codes only when styling is enabled. */
  function Paint(text: string, style: Style, enabled: bool): (r: string)
    ensures !enabled ==> r == text
    ensures enabled ==> |r| == |style.prefix| + |text| + |style.suffix|
  {
    if enabled then style.prefix + text + style.suffix else text
  }

  /** A piece of text together with the style it is to be shown in. */
  datatype Styled = Styled(text: string, style: Style)

  /** The characters of a list of styled pieces, with all styling removed. */
  function PlainText(pieces: seq<Styled>): (r: string)
  {
    if pieces == [] then "" else PlainText(pieces[..|pieces| - 1]) + pieces[|pieces| - 1].text
  }

  /** What a `&mut String` sink holds after the pieces are written to it one by one. */
  function PaintAll(pieces: seq<Styled>, enabled: bool): (r: string)
  {
    if pieces == [] then "" else PaintAll(pieces[..|pieces| - 1], enabled) + Paint(pieces[|pieces| - 1].text, pieces[|pieces| - 1].style, enabled)
  }

  lemma {:induction false} PaintAllPlain(pieces: seq<Styled>)
    ensures PaintAll(pieces, false) == PlainText(pieces)
  {
    if pieces != [] {
      PaintAllPlain(pieces[..|pieces| - 1]);
    }
  }

  lemma {:induction false} PlainTextAppend(a: seq<Styled>, b: seq<Styled>)
    ensures PlainText(a + b) == PlainText(a) + PlainText(b)
  {
    if b == [] {
      assert a + b == a;
    } else {
      assert (a + b)[..|a + b| - 1] == a + b[..|b| - 1];
      PlainTextAppend(a, b[..|b| - 1]);
    }
  }

  lemma {:induction false} PaintAllAppend(a: seq<Styled>, b: seq<Styled>, enabled: bool)
    ensures PaintAll(a + b, enabled) == PaintAll(a, enabled) + PaintAll(b, enabled)
  {
    if b == [] {
      assert a + b == a;
    } else {
      assert (a + b)[..|a + b| - 1] == a + b[..|b| - 1];
      PaintAllAppend(a, b[..|b| - 1], enabled);
    }
  }

  lemma SeqAssoc<T>(a: seq<T>, b: seq<T>, c: seq<T>)
    ensures (a + b) + c == a + (b + c)
  {
  }

  lemma TakeSnoc<T>(s: seq<T>, i: nat)
    requires i < |s|
    ensures s[..i + 1] == s[..i] + [s[i]]
  {
  }

  /** `f` applied to every item, in order. */
  function Map<A, B>(f: A -> B, s: seq<A>): (r: seq<B>)
    ensures |r| == |s| && forall i :: 0 <= i < |s| ==> r[i] == f(s[i])
  {
    seq(|s|, i requires 0 <= i < |s| => f(s[i]))
  }

  lemma MapTakeSnoc<A, B>(f: A -> B, s: seq<A>, i: nat)
    requires i < |s|
    ensures Map(f, s[..i + 1]) == Map(f, s[..i]) + [f(s[i])]
  {
  }

  /** `n` copies of `x`. */
  function Repeat<T>(x: T, n: nat): (r: seq<T>)
    ensures |r| == n
    ensures forall i :: 0 <= i < n ==> r[i] == x
  {
    if n == 0 then [] else Repeat(x, n - 1) + [x]
  }

  /** The concatenation of a list of sequences, in order. */
  function Concat<T>(parts: seq<seq<T>>): (r: seq<T>)
  {
    if parts == [] then [] else Concat(parts[..|parts| - 1]) + parts[|parts| - 1]
  }

  lemma {:induction false} ConcatAppend<T>(a: seq<seq<T>>, b: seq<seq<T>>)
    ensures Concat(a + b) == Concat(a) + Concat(b)
  {
    if b == [] {
      assert a + b == a;
    } else {
      var init, last := b[..|b| - 1], b[|b| - 1];
      assert (a + b)[..|a + b| - 1] == a + init;
      assert (a + b)[|a + b| - 1] == last;
      calc {
        Concat(a + b);
        Concat(a + init) + last;
        { ConcatAppend(a, init); }
        Concat(a) + Concat(init) + last;
        Concat(a) + (Concat(init) + last);
        Concat(a) + Concat(b);
      }
    }
  }

  lemma ConcatCons<T>(x: seq<T>, rest: seq<seq<T>>)
    ensures Concat([x] + rest) == x + Concat(rest)
  {
    ConcatAppend([x], rest);
    assert Concat([x]) == Concat([]) + x;
  }

  /** The number of occurrences of `x` in `s`. */
  function Count<T(==)>(x: T, s: seq<T>): (n: nat)
    ensures n <= |s|
  {
    if s == [] then 0 else Count(x, s[..|s| - 1]) + (if s[|s| - 1] == x then 1 else 0)
  }

  lemma {:induction false} CountAppend<T>(x: T, a: seq<T>, b: seq<T>)
    ensures Count(x, a + b) == Count(x, a) + Count(x, b)
  {
    if b == [] {
      assert a + b == a;
    } else {
      assert (a + b)[..|a + b| - 1] == a + b[..|b| - 1];
      CountAppend(x, a, b[..|b| - 1]);
    }
  }

  lemma {:induction false} CountAbsent<T>(x: T, s: seq<T>)
    requires x !in s
    ensures Count(x, s) == 0
  {
    if s != [] {
      CountAbsent(x, s[..|s| - 1]);
    }
  }

  /** The Unicode properties the renderer asks of a character; the tables themselves are not part of the model. */
  datatype CharTable = CharTable(
    isAlphabetic: char -> bool,
    isLowercase: char -> bool,
    isWhitespace: char -> bool,
    // `UnicodeWidthChar::width`: the display width in terminal cells, `None` for control characters.
    width: char -> Option<nat>)

  predicate IsAsciiDigit(c: char) {
    '0' <= c <= '9'
  }

  /** `char::to_ascii_lowercase`. */
  function AsciiLower(c: char): (r: char)
    ensures 'A' <= c <= 'Z' ==> r as int == c as int + 32
    ensures !('A' <= c <= 'Z') ==> r == c
  {
    if 'A' <= c <= 'Z' then (c as int + 32) as char else c
  }

  /** `eq_ignore_ascii_case`: equal after lower-casing ASCII letters only. */
  predicate EqIgnoreAsciiCase(a: string, b: string) {
    |a| == |b| && forall i :: 0 <= i < |a| ==> AsciiLower(a[i]) == AsciiLower(b[i])
  }

  /** The number of bytes `c` takes in UTF-8. */
  function Utf8Len(c: char): (n: nat)
    ensures 1 <= n <= 4
  {
    if c as int < 0x80 then 1 else if c as int < 0x800 then 2 else if c as int < 0x1_0000 then 3 else 4
  }

  /** `str::len`: the length of a string in UTF-8 bytes. */
  function ByteLen(s: string): (n: nat)
    ensures n >= |s|
  {
    if s == [] then 0 else ByteLen(s[..|s| - 1]) + Utf8Len(s[|s| - 1])
  }

  lemma {:induction false} ByteLenAppend(a: string, b: string)
    ensures ByteLen(a + b) == ByteLen(a) + ByteLen(b)
  {
    if b != [] {
      var init := b[..|b| - 1];
      assert (a + b)[..|a + b| - 1] == a + init;
      assert (a + b)[|a + b| - 1] == b[|b| - 1];
      ByteLenAppend(a, init);
    } else {
      assert a + b == a;
    }
  }

  /** A prefix takes no more bytes than the whole text. */
  lemma ByteLenPrefix(s: string, k: nat)
    requires k <= |s|
    ensures ByteLen(s[..k]) <= ByteLen(s)
  {
    assert s == s[..k] + s[k..];
    ByteLenAppend(s[..k], s[k..]);
  }

  /** The index of the first `c` in `s`, or `|s|` when there is none. */
  function IndexOf(s: string, c: char): (i: nat)
    ensures i <= |s|
    ensures c !in s[..i]
    ensures i < |s| ==> s[i] == c
  {
    if s == [] then 0 else if s[0] == c then 0 else 1 + IndexOf(s[1..], c)
  }

  /**
   * `str::lines`: the pieces between `'\n'`s, each without its line ending
   * (a `'\r'` just before the `'\n'` belongs to the ending); a final line
   * ending does not start another line, and the empty string has no lines.
   */
  function Lines(s: string): (r: seq<string>)
    ensures forall i :: 0 <= i < |r| ==> '\n' !in r[i]
    decreases |s|
  {
    if s == [] then []
    else
      var i := IndexOf(s, '\n');
      if i == |s| then [s]
      else
        var line := if i > 0 && s[i - 1] == '\r' then s[..i - 1] else s[..i];
        assert '\n' !in line by {
          assert forall k :: 0 <= k < |line| ==> line[k] == s[..i][k];
        }
        [line] + Lines(s[i + 1..])
  }

  /** `String::pop`: the string without its last character; the empty string stays empty. */
  function DropLast(s: string): (r: string)
    ensures s != [] ==> r + [s[|s| - 1]] == s
    ensures s == [] ==> r == []
  {
    if s == [] then s else s[..|s| - 1]
  }

  /** The lines, each followed by a line break. */
  function Terminated(lines: seq<string>): string {
    if lines == [] then "" else Terminated(lines[..|lines| - 1]) + lines[|lines| - 1] + "\n"
  }

  /** The lines with a line break between each two of them. */
  function Join(lines: seq<string>): string {
    if lines == [] then ""
    else if |lines| == 1 then lines[0]
    else Join(lines[..|lines| - 1]) + "\n" + lines[|lines| - 1]
  }

  /** Writing every line with a line break and then dropping the last character joins the lines. */
  lemma {:induction false} TerminatedDropLast(lines: seq<string>)
    requires lines != []
    ensures DropLast(Terminated(lines)) == Join(lines)
    ensures Terminated(lines) == Join(lines) + "\n"
  {
    var init := lines[..|lines| - 1];
    if |lines| > 1 {
      TerminatedDropLast(init);
    } else {
      assert init == [];
    }
    var t := Terminated(lines);
    assert t[..|t| - 1] == Terminated(init) + lines[|lines| - 1];
  }

  lemma {:induction false} TerminatedAppend(a: seq<string>, b: seq<string>)
    ensures Terminated(a + b) == Terminated(a) + Terminated(b)
  {
    if b == [] {
      assert a + b == a;
    } else {
      assert (a + b)[..|a + b| - 1] == a + b[..|b| - 1];
      TerminatedAppend(a, b[..|b| - 1]);
    }
  }

  /** The parts with `sep` between each two of them. */
  function JoinWith(parts: seq<string>, sep: string): string {
    if parts == [] then ""
    else if |parts| == 1 then parts[0]
    else parts[0] + sep + JoinWith(parts[1..], sep)
  }
}
