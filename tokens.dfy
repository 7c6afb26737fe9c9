/**
 * The procedural-macro token trees the macro side works on: identifiers,
 * punctuation, literals and delimited groups, each with the source span it
 * came from. Positions follow the compiler's convention: lines and columns
 * both count from 1.
 */
module Tokens {
  import opened Common

  /** A position in a source file. */
  datatype Loc = Loc(file: string, line: nat, column: nat)

  /** The source range a token covers: where it starts and where it ends. */
  datatype Span = Span(start: Loc, end: Loc)

  datatype Delimiter = Parenthesis | Brace | Bracket | NoDelimiter

  /** Whether a punctuation character is glued to the next one (`&&` is `&` joint, then `&` alone). */
  datatype Spacing = Joint | Alone

  datatype Token =
    | Group(delimiter: Delimiter, stream: seq<Token>, span: Span)
    | Ident(name: string, span: Span)
    | Punct(ch: char, spacing: Spacing, span: Span)
    | Literal(text: string, span: Span)

  /** The position after `c` is written at `l`: a line break starts the next line at column 1. */
  function Step(l: Loc, c: char): (r: Loc)
    ensures r.file == l.file
  {
    if c == '\n' then Loc(l.file, l.line + 1, 1) else Loc(l.file, l.line, l.column + 1)
  }

  /** The position after `s` is written at `l`. */
  function Advance(l: Loc, s: string): (r: Loc)
    ensures r.file == l.file
  {
    if s == [] then l else Step(Advance(l, s[..|s| - 1]), s[|s| - 1])
  }

  lemma {:induction false} AdvanceAppend(l: Loc, a: string, b: string)
    ensures Advance(l, a + b) == Advance(Advance(l, a), b)
  {
    if b == [] {
      assert a + b == a;
    } else {
      assert (a + b)[..|a + b| - 1] == a + b[..|b| - 1];
      AdvanceAppend(l, a, b[..|b| - 1]);
    }
  }

  /** Line breaks move down that many lines, to column 1. */
  lemma {:induction false} AdvanceNewlines(l: Loc, n: nat)
    ensures n > 0 ==> Advance(l, Repeat('\n', n)) == Loc(l.file, l.line + n, 1)
    ensures n == 0 ==> Advance(l, Repeat('\n', n)) == l
  {
    if n > 0 {
      var s := Repeat('\n', n);
      assert s[..n - 1] == Repeat('\n', n - 1);
      assert Advance(l, s) == Step(Advance(l, Repeat('\n', n - 1)), '\n');
      AdvanceNewlines(l, n - 1);
    }
  }

  /** Spaces move right by that many columns. */
  lemma {:induction false} AdvanceSpaces(l: Loc, n: nat)
    ensures Advance(l, Repeat(' ', n)) == Loc(l.file, l.line, l.column + n)
  {
    if n > 0 {
      AdvanceSpaces(l, n - 1);
      assert Repeat(' ', n)[..n - 1] == Repeat(' ', n - 1);
    }
  }
}
