/**
 * The whitespace between tokens, as the macro side reconstructs it from
 * spans: a number of line breaks followed by a number of spaces. It is used
 * to reproduce the spacing around an `&&` operator and inside a group.
 */
module Spacing {
  import opened Common
  import opened Tokens

  /** `2^64`: the number of `usize` (and `isize`) values on a 64-bit target. */
  const WORD: int := 0x1_0000_0000_0000_0000
  /** `2^63`: one past the largest `isize`. */
  const HALF: int := 0x8000_0000_0000_0000

  datatype Whitespace = Whitespace(lines: nat, spaces: nat)

  /** `Whitespace::new`. */
  function NewWhitespace(): (ws: Whitespace)
    ensures ws.lines == 0 && ws.spaces == 0
  {
    Whitespace(0, 0)
  }

  /** `with_lines`: only the line count changes. */
  function WithLines(ws: Whitespace, lines: nat): (r: Whitespace)
    ensures r.lines == lines && r.spaces == ws.spaces
  {
    ws.(lines := lines)
  }

  /** `with_spaces`: only the space count changes. */
  function WithSpaces(ws: Whitespace, spaces: nat): (r: Whitespace)
    ensures r.lines == ws.lines && r.spaces == spaces
  {
    ws.(spaces := spaces)
  }

  /** `indentation`: the spaces count as indentation only after a line break. */
  function Indentation(ws: Whitespace): (r: Option<nat>)
    ensures r.None? <==> ws.lines == 0
    ensures r.Some? ==> r.value == ws.spaces
  {
    if ws.lines == 0 then None else Some(ws.spaces)
  }

  /** `n as isize` for a `usize` `n`: values from `2^63` on wrap to negative. */
  function AsIsize(n: nat): (r: int)
    requires n < WORD
    ensures -HALF <= r < HALF
    ensures r % WORD == n
  {
    if n < HALF then n else n - WORD
  }

  /** `i as usize` for an `isize` `i`: negative values wrap to `2^64 + i`. */
  function AsUsize(i: int): (r: nat)
    requires -HALF <= i < HALF
    ensures r < WORD
    ensures r % WORD == i % WORD
  {
    if i >= 0 then i else i + WORD
  }

  /**
   * `adjust_indent`: with at least one line break, the spaces become
   * `(spaces as isize + adjust) as usize`; without one, nothing changes.
   * The addition itself must not overflow `isize`.
   */
  function AdjustIndent(ws: Whitespace, adjust: int): (r: Whitespace)
    requires ws.spaces < WORD && -HALF <= adjust < HALF
    requires ws.lines > 0 ==> -HALF <= AsIsize(ws.spaces) + adjust < HALF
    ensures ws.lines == 0 ==> r == ws
    ensures r.lines == ws.lines
    ensures ws.lines > 0 ==> r.spaces % WORD == (ws.spaces + adjust) % WORD && r.spaces < WORD
  {
    if ws.lines > 0 then ws.(spaces := AsUsize(AsIsize(ws.spaces) + adjust)) else ws
  }

  /**
   * Shifting the indentation of whitespace that has a line break by an
   * amount that keeps it non-negative gives exactly the shifted indentation;
   * an amount that would make it negative wraps around to a huge one.
   */
  lemma AdjustIndentExact(ws: Whitespace, adjust: int)
    requires ws.lines > 0 && ws.spaces < HALF && -HALF <= adjust < HALF && ws.spaces + adjust < HALF
    ensures ws.spaces + adjust >= 0 ==> AdjustIndent(ws, adjust) == Whitespace(ws.lines, ws.spaces + adjust)
    ensures ws.spaces + adjust < 0 ==> AdjustIndent(ws, adjust).spaces == WORD + ws.spaces + adjust
    ensures ws.spaces + adjust < 0 ==> AdjustIndent(ws, adjust).spaces >= HALF
  {
    assert AsIsize(ws.spaces) == ws.spaces;
  }

  /** The text of whitespace: its line breaks, then its spaces. */
  function Text(ws: Whitespace): string {
    Repeat('\n', ws.lines) + Repeat(' ', ws.spaces)
  }

  /** Reading whitespace back from its text: leading line breaks, then spaces. */
  function Read(s: string): Whitespace {
    var lines := LeadingCount(s, '\n');
    Whitespace(lines, LeadingCount(s[lines..], ' '))
  }

  /** The number of leading `c`s of `s`. */
  function LeadingCount(s: string, c: char): (n: nat)
    ensures n <= |s|
    ensures forall i :: 0 <= i < n ==> s[i] == c
    ensures n < |s| ==> s[n] != c
  {
    if s == [] || s[0] != c then 0 else 1 + LeadingCount(s[1..], c)
  }

  lemma {:induction false} LeadingCountOf(c: char, n: nat, rest: string)
    requires rest == [] || rest[0] != c
    ensures LeadingCount(Repeat(c, n) + rest, c) == n
  {
    var s := Repeat(c, n) + rest;
    var k := LeadingCount(s, c);
    assert forall i :: 0 <= i < n ==> s[i] == c;
    if n < |s| {
      assert s[n] == rest[0];
    }
  }

  /** The text of whitespace determines it: reading it back gives the same line and space counts. */
  lemma ReadText(ws: Whitespace)
    ensures Read(Text(ws)) == ws
    ensures |Text(ws)| == ws.lines + ws.spaces
  {
    var t := Text(ws);
    var sp := Repeat(' ', ws.spaces);
    LeadingCountOf('\n', ws.lines, sp);
    assert t[ws.lines..] == sp;
    LeadingCountOf(' ', ws.spaces, []);
    assert sp + [] == sp;
  }

  /** `From<Whitespace> for String`: the line breaks, then the spaces, one character at a time. */
  method ToText(ws: Whitespace) returns (output: string)
    ensures output == Text(ws)
  {
    output := [];
    for i := 0 to ws.lines
      invariant output == Repeat('\n', i)
    {
      output := output + ['\n'];
    }
    for i := 0 to ws.spaces
      invariant output == Repeat('\n', ws.lines) + Repeat(' ', i)
    {
      output := output + [' '];
    }
  }

  /** `Display for Whitespace`: the same text, written after what the formatter holds. */
  method Display(ws: Whitespace, f: string) returns (out: string)
    ensures out == f + Text(ws)
  {
    out := f;
    for i := 0 to ws.lines
      invariant out == f + Repeat('\n', i)
    {
      out := out + "\n";
    }
    for i := 0 to ws.spaces
      invariant out == f + Repeat('\n', ws.lines) + Repeat(' ', i)
    {
      out := out + " ";
    }
    SeqAssoc(f, Repeat('\n', ws.lines), Repeat(' ', ws.spaces));
  }

  /** Writing whitespace at `l` moves down its line count and ends `spaces` columns after column 1 (or after `l`, on the same line). */
  lemma AdvanceText(l: Loc, ws: Whitespace)
    ensures ws.lines == 0 ==> Advance(l, Text(ws)) == Loc(l.file, l.line, l.column + ws.spaces)
    ensures ws.lines > 0 ==> Advance(l, Text(ws)) == Loc(l.file, l.line + ws.lines, 1 + ws.spaces)
  {
    AdvanceAppend(l, Repeat('\n', ws.lines), Repeat(' ', ws.spaces));
    AdvanceNewlines(l, ws.lines);
    AdvanceSpaces(Advance(l, Repeat('\n', ws.lines)), ws.spaces);
  }

  // ---------------------------------------------------------------------
  // Whitespace from spans

  /** `saturating_sub`. */
  function SaturatingSub(a: nat, b: nat): (r: nat)
    ensures a >= b ==> r == a - b
    ensures a < b ==> r == 0
  {
    if a >= b then a - b else 0
  }

  /**
   * `whitespace_between`: the whitespace from the end of `a` to the start of
   * `b`, when both are in one file and `b` does not come before `a`.
   */
  function WhitespaceBetween(a: Span, b: Span): Option<Whitespace> {
    var x := a.end;
    var y := b.start;
    if x.file != y.file then None
    else if x.line == y.line then
      if y.column >= x.column then Some(Whitespace(0, y.column - x.column)) else None
    else if y.line >= x.line then Some(Whitespace(y.line - x.line, SaturatingSub(y.column, 1)))
    else None
  }

  /**
   * There is whitespace between two spans exactly when they are in the same
   * file and the second starts at or after the end of the first; and then
   * writing that whitespace at the end of the first lands on the start of
   * the second (columns count from 1).
   */
  lemma WhitespaceBetweenSpec(a: Span, b: Span)
    requires b.start.column >= 1
    ensures WhitespaceBetween(a, b).Some? <==>
      a.end.file == b.start.file
      && (a.end.line < b.start.line || (a.end.line == b.start.line && a.end.column <= b.start.column))
    ensures WhitespaceBetween(a, b).Some? ==> Advance(a.end, Text(WhitespaceBetween(a, b).value)) == b.start
  {
    if WhitespaceBetween(a, b).Some? {
      AdvanceText(a.end, WhitespaceBetween(a, b).value);
    }
  }

  /** `stream_start_end_spans`: the spans of the first and the last token, unless the stream is empty. */
  function StreamSpans(stream: seq<Token>): (r: Option<(Span, Span)>)
    ensures r.None? <==> stream == []
    ensures r.Some? ==> r.value.0 == stream[0].span && r.value.1 == stream[|stream| - 1].span
  {
    if stream == [] then None else Some((stream[0].span, stream[|stream| - 1].span))
  }

  /** The loop of `stream_start_end_spans`: the end span is the span of every token in turn. */
  method StartEndSpans(stream: seq<Token>) returns (r: Option<(Span, Span)>)
    ensures r == StreamSpans(stream)
  {
    if stream == [] {
      return None;
    }
    var startSpan := stream[0].span;
    var endSpan := startSpan;
    for i := 1 to |stream|
      invariant endSpan == stream[i - 1].span
    {
      endSpan := stream[i].span;
    }
    r := Some((startSpan, endSpan));
  }

  /** `usize::checked_sub`. */
  function CheckedSub(a: nat, b: nat): (r: Option<nat>)
    ensures r.Some? <==> a >= b
    ensures r.Some? ==> r.value + b == a
  {
    if a >= b then Some(a - b) else None
  }

  /** The columns of the tokens count from 1, as the compiler reports them. */
  ghost predicate OneBased(stream: seq<Token>) {
    forall i :: 0 <= i < |stream| ==> stream[i].span.start.column >= 1
  }

  /**
   * `whitespace_inside`: the whitespace after the opening delimiter and
   * before the closing one of a group spanning `group`. An empty group has
   * all its whitespace on the opening side.
   */
  function WhitespaceInside(group: Span, stream: seq<Token>): (r: Option<(Whitespace, Whitespace)>)
    requires OneBased(stream)
  {
    var gs := group.start;
    var ge := group.end;
    if stream == [] then
      if ge.line == gs.line then
        var spaces := CheckedSub(ge.column, gs.column + 2);
        if spaces.None? then None else Some((Whitespace(0, spaces.value), NewWhitespace()))
      else
        var lines := CheckedSub(ge.line, gs.line);
        var spaces := CheckedSub(ge.column, 2);
        if lines.None? || spaces.None? then None else Some((Whitespace(lines.value, spaces.value), NewWhitespace()))
    else
      var (first, last) := StreamSpans(stream).value;
      var cs := first.start;
      var ce := last.end;
      if gs.file != cs.file || ge.file != ce.file then None
      else
        var opening := OpeningSpace(gs, cs);
        var closing := ClosingSpace(ce, ge);
        if opening.None? || closing.None? then None else Some((opening.value, closing.value))
  }

  /** The whitespace between the opening delimiter at `gs` and the first token at `cs`. */
  function OpeningSpace(gs: Loc, cs: Loc): Option<Whitespace>
    requires cs.column >= 1
  {
    if gs.line == cs.line then
      var spaces := CheckedSub(cs.column, gs.column + 1);
      if spaces.None? then None else Some(Whitespace(0, spaces.value))
    else
      var lines := CheckedSub(cs.line, gs.line);
      if lines.None? then None else Some(Whitespace(lines.value, cs.column - 1))
  }

  /** The whitespace between the last token ending at `ce` and the end `ge` of the closing delimiter. */
  function ClosingSpace(ce: Loc, ge: Loc): Option<Whitespace> {
    if ce.line == ge.line then
      var spaces := CheckedSub(ge.column, ce.column + 1);
      if spaces.None? then None else Some(Whitespace(0, spaces.value))
    else
      var lines := CheckedSub(ge.line, ce.line);
      var spaces := CheckedSub(ge.column, 2);
      if lines.None? || spaces.None? then None else Some(Whitespace(lines.value, spaces.value))
  }

  /** The same line and column. */
  predicate SamePlace(a: Loc, b: Loc) {
    a.line == b.line && a.column == b.column
  }

  /**
   * For a group with contents, whitespace inside reproduces the layout:
   * after the opening delimiter and the opening whitespace comes the first
   * token; after the last token, the closing whitespace and the closing
   * delimiter comes the end of the group.
   */
  lemma WhitespaceInsideSpec(group: Span, stream: seq<Token>, open: char, close: char)
    requires OneBased(stream) && stream != [] && open != '\n' && close != '\n'
    requires WhitespaceInside(group, stream).Some?
    ensures var (opening, closing) := WhitespaceInside(group, stream).value;
      && SamePlace(Advance(group.start, [open] + Text(opening)), stream[0].span.start)
      && SamePlace(Advance(stream[|stream| - 1].span.end, Text(closing) + [close]), group.end)
  {
    var (opening, closing) := WhitespaceInside(group, stream).value;
    AdvanceAppend(group.start, [open], Text(opening));
    assert [open][..0] == [];
    AdvanceText(Step(group.start, open), opening);
    var ce := stream[|stream| - 1].span.end;
    AdvanceAppend(ce, Text(closing), [close]);
    assert [close][..0] == [];
    AdvanceText(ce, closing);
  }

  /**
   * For an empty group, the whitespace between the delimiters is on the
   * opening side: after the opening delimiter, that whitespace and the
   * closing delimiter comes the end of the group. On one line it is
   * `end - (start + 2)` spaces, and there is none when that is negative.
   */
  lemma WhitespaceInsideEmpty(group: Span, open: char, close: char)
    requires open != '\n' && close != '\n'
    ensures group.start.line == group.end.line ==>
      (WhitespaceInside(group, []).Some? <==> group.end.column >= group.start.column + 2)
    ensures group.start.line == group.end.line && group.end.column >= group.start.column + 2 ==>
      WhitespaceInside(group, []) == Some((Whitespace(0, group.end.column - (group.start.column + 2)), NewWhitespace()))
    ensures WhitespaceInside(group, []).Some? ==>
      var (opening, closing) := WhitespaceInside(group, []).value;
      && closing == NewWhitespace()
      && SamePlace(Advance(group.start, [open] + Text(opening) + [close]), group.end)
  {
    if WhitespaceInside(group, []).Some? {
      var (opening, closing) := WhitespaceInside(group, []).value;
      AdvanceAppend(group.start, [open] + Text(opening), [close]);
      AdvanceAppend(group.start, [open], Text(opening));
      assert [open][..0] == [] && [close][..0] == [];
      AdvanceText(Step(group.start, open), opening);
    }
  }

  // ---------------------------------------------------------------------
  // The spacing around an operator

  datatype OperatorWithSpacing = OperatorWithSpacing(before: Whitespace, operator: string, after: Whitespace)

  /** `OperatorWithSpacing::new`: one space on each side, no line breaks. */
  function NewOperator(operator: string): (o: OperatorWithSpacing)
    ensures o.operator == operator
    ensures o.before == o.after == Whitespace(0, 1)
  {
    OperatorWithSpacing(WithSpaces(NewWhitespace(), 1), operator, WithSpaces(NewWhitespace(), 1))
  }

  /** `new_logical_and`. */
  function NewLogicalAnd(): (o: OperatorWithSpacing)
    ensures o.operator == "&&"
  {
    NewOperator("&&")
  }

  /** `Display for OperatorWithSpacing`: the whitespace before, the operator, the whitespace after. */
  function OperatorText(o: OperatorWithSpacing): string {
    Text(o.before) + o.operator + Text(o.after)
  }

  /** `total_newlines`. */
  function TotalNewlines(o: OperatorWithSpacing): nat {
    o.before.lines + o.after.lines
  }

  lemma {:induction false} CountRepeat(x: char, y: char, n: nat)
    ensures Count(x, Repeat(y, n)) == if x == y then n else 0
  {
    if n > 0 {
      CountRepeat(x, y, n - 1);
      assert Repeat(y, n)[..n - 1] == Repeat(y, n - 1);
    }
  }

  /** The line breaks `total_newlines` counts are exactly those of the displayed operator. */
  lemma TotalNewlinesCounts(o: OperatorWithSpacing)
    requires '\n' !in o.operator
    ensures TotalNewlines(o) == Count('\n', OperatorText(o))
  {
    CountAbsent('\n', o.operator);
    CountRepeat('\n', '\n', o.before.lines);
    CountRepeat('\n', ' ', o.before.spaces);
    CountRepeat('\n', '\n', o.after.lines);
    CountRepeat('\n', ' ', o.after.spaces);
    CountAppend('\n', Repeat('\n', o.before.lines), Repeat(' ', o.before.spaces));
    CountAppend('\n', Repeat('\n', o.after.lines), Repeat(' ', o.after.spaces));
    CountAppend('\n', Text(o.before), o.operator);
    CountAppend('\n', Text(o.before) + o.operator, Text(o.after));
  }

  /** A new `&&` is displayed as `" && "`, the glue used when the spacing is unknown. */
  lemma LogicalAndText()
    ensures OperatorText(NewLogicalAnd()) == " && "
  {
    var o := NewLogicalAnd();
    assert Repeat('\n', 0) == [];
    assert Repeat(' ', 1) == [' '];
    assert Text(o.before) == " ";
  }

  /** `min_indent`: the smaller of the indentations that exist, `None` when neither side has a line break. */
  function MinIndent(o: OperatorWithSpacing): (r: Option<nat>)
    ensures r.None? <==> o.before.lines == 0 && o.after.lines == 0
    ensures r.Some? ==> forall x :: x in [Indentation(o.before), Indentation(o.after)] && x.Some? ==> r.value <= x.value
    ensures r.Some? ==> Some(r.value) in [Indentation(o.before), Indentation(o.after)]
  {
    match (Indentation(o.before), Indentation(o.after))
    case (None, None) => None
    case (Some(a), None) => Some(a)
    case (None, Some(b)) => Some(b)
    case (Some(a), Some(b)) => Some(if a <= b then a else b)
  }

  /** `OperatorWithSpacing::adjust_indent`: both sides shift by the same amount. */
  function AdjustOperatorIndent(o: OperatorWithSpacing, adjust: int): (r: OperatorWithSpacing)
    requires o.before.spaces < WORD && o.after.spaces < WORD && -HALF <= adjust < HALF
    requires o.before.lines > 0 ==> -HALF <= AsIsize(o.before.spaces) + adjust < HALF
    requires o.after.lines > 0 ==> -HALF <= AsIsize(o.after.spaces) + adjust < HALF
    ensures r.operator == o.operator
    ensures r.before == AdjustIndent(o.before, adjust) && r.after == AdjustIndent(o.after, adjust)
  {
    OperatorWithSpacing(AdjustIndent(o.before, adjust), o.operator, AdjustIndent(o.after, adjust))
  }

  /** Shifting the indentation keeps the line breaks, and shifts the minimum indentation with it. */
  lemma AdjustShiftsMinIndent(o: OperatorWithSpacing, adjust: int)
    requires o.before.spaces < HALF && o.after.spaces < HALF && -HALF <= adjust < HALF
    requires o.before.lines > 0 ==> 0 <= o.before.spaces + adjust < HALF
    requires o.after.lines > 0 ==> 0 <= o.after.spaces + adjust < HALF
    ensures TotalNewlines(AdjustOperatorIndent(o, adjust)) == TotalNewlines(o)
    ensures MinIndent(o).Some? ==> MinIndent(AdjustOperatorIndent(o, adjust)) == Some(MinIndent(o).value + adjust)
    ensures MinIndent(o).None? ==> MinIndent(AdjustOperatorIndent(o, adjust)).None?
  {
    if o.before.lines > 0 {
      AdjustIndentExact(o.before, adjust);
    }
    if o.after.lines > 0 {
      AdjustIndentExact(o.after, adjust);
    }
  }

  /**
   * `operator_with_whitespace`: the operator with the whitespace between
   * the last token of the left operand and the operator, and between the
   * operator and the first token of the right operand.
   */
  function OperatorWithWhitespace(left: seq<Token>, operator: string, opTokens: seq<Token>, right: seq<Token>): Option<OperatorWithSpacing> {
    if left == [] || opTokens == [] || right == [] then None
    else
      var leftEnd := StreamSpans(left).value.1;
      var (opStart, opEnd) := StreamSpans(opTokens).value;
      var rightStart := StreamSpans(right).value.0;
      var before := WhitespaceBetween(leftEnd, opStart);
      var after := WhitespaceBetween(opEnd, rightStart);
      if before.None? || after.None? then None else Some(OperatorWithSpacing(before.value, operator, after.value))
  }

  /**
   * When the spacing is known, it reproduces the source: from the end of
   * the left operand, the whitespace before leads to the operator, and from
   * the end of the operator the whitespace after leads to the right operand.
   */
  lemma OperatorWithWhitespaceSpec(left: seq<Token>, operator: string, opTokens: seq<Token>, right: seq<Token>)
    requires opTokens != [] && right != [] && opTokens[0].span.start.column >= 1 && right[0].span.start.column >= 1
    ensures OperatorWithWhitespace(left, operator, opTokens, right).Some? ==>
      left != []
      && Advance(left[|left| - 1].span.end, Text(OperatorWithWhitespace(left, operator, opTokens, right).value.before))
           == opTokens[0].span.start
      && Advance(opTokens[|opTokens| - 1].span.end, Text(OperatorWithWhitespace(left, operator, opTokens, right).value.after))
           == right[0].span.start
    ensures left == [] ==> OperatorWithWhitespace(left, operator, opTokens, right).None?
  {
    if left != [] {
      WhitespaceBetweenSpec(left[|left| - 1].span, opTokens[0].span);
      WhitespaceBetweenSpec(opTokens[|opTokens| - 1].span, right[0].span);
    }
  }
}
