/**
 * The wrapping writer of the failure report: text goes into a growing
 * buffer, lines wrap at a display width, and pieces marked for underlining
 * get a row of `^` under them when the line is flushed.
 *
 * The writer's state is the value `WriterState`; every operation is first a
 * function on that value (`WritePieceF`, `FlushLineF`, `WriteSnippetF`,
 * `Drop`), and the class `WrappingWriter` updates its fields step by step
 * and is proved to reach the state the function computes.
 */
module Writer {
  import opened Common

  // ---------------------------------------------------------------------
  // Snippets

  /** A piece of text to write, its style, and the style of its underline if it is to be underlined. */
  datatype Snippet = Snippet(content: string, style: Style, undercurl: Option<Style>)

  /** `Snippet::new`: plain text, not underlined. */
  function NewSnippet(content: string): (s: Snippet)
    ensures s.content == content && s.style == PlainStyle && s.undercurl == None
  {
    Snippet(content, PlainStyle, None)
  }

  /** `Snippet::style`: the same snippet in another style. */
  function WithStyle(s: Snippet, style: Style): (r: Snippet)
    ensures r.content == s.content && r.style == style && r.undercurl == s.undercurl
  {
    s.(style := style)
  }

  /** `Snippet::undercurl`: the same snippet, underlined in `style`. */
  function WithUndercurl(s: Snippet, style: Style): (r: Snippet)
    ensures r.content == s.content && r.style == s.style && r.undercurl == Some(style)
  {
    s.(undercurl := Some(style))
  }

  // ---------------------------------------------------------------------
  // Display widths

  /** The cells a character takes: a tab counts as 4, a character without a width (a control character) as 0. */
  function CharWidth(t: CharTable, c: char): nat {
    if c == '\t' then 4
    else match t.width(c)
      case None => 0
      case Some(w) => w
  }

  /** The cells a text takes. */
  function TextWidth(t: CharTable, s: string): nat {
    if s == [] then 0 else TextWidth(t, s[..|s| - 1]) + CharWidth(t, s[|s| - 1])
  }

  lemma {:induction false} TextWidthAppend(t: CharTable, a: string, b: string)
    ensures TextWidth(t, a + b) == TextWidth(t, a) + TextWidth(t, b)
  {
    if b == [] {
      assert a + b == a;
    } else {
      assert (a + b)[..|a + b| - 1] == a + b[..|b| - 1];
      TextWidthAppend(t, a, b[..|b| - 1]);
    }
  }

  // ---------------------------------------------------------------------
  // Writer state

  /** An underline request: the cells `start..end` of the current line, in `style`. */
  datatype Mark = Mark(start: nat, end: nat, style: Style)

  datatype WriterState = WriterState(
    buffer: string,
    width: nat,
    stylingEnabled: bool,
    // display cells already used on the current line
    lineWidth: nat,
    // underline requests of the current line, in order
    marks: seq<Mark>,
    // the current line holds content that has not been flushed yet
    needFlush: bool,
    indent: nat)

  /** The marks are increasing and disjoint and end within `limit`. */
  ghost predicate MarksOrdered(marks: seq<Mark>, limit: nat) {
    && (forall i :: 0 <= i < |marks| ==> marks[i].start <= marks[i].end)
    && (forall i :: 0 < i < |marks| ==> marks[i - 1].end <= marks[i].start)
    && (marks != [] ==> marks[|marks| - 1].end <= limit)
  }

  /**
   * The writer's invariant: a line without pending content is empty and has
   * no marks, and the marks are ordered within the line.
   */
  ghost predicate Inv(st: WriterState) {
    && (!st.needFlush ==> st.lineWidth == 0 && st.marks == [])
    && MarksOrdered(st.marks, st.lineWidth)
  }

  /** `WrappingWriter::new`: an empty line, no marks, no indentation. */
  function NewWriter(buffer: string, width: nat, stylingEnabled: bool): (st: WriterState)
    ensures Inv(st)
    ensures st.buffer == buffer && st.lineWidth == 0 && st.marks == [] && !st.needFlush && st.indent == 0
  {
    WriterState(buffer, width, stylingEnabled, 0, [], false, 0)
  }

  // ---------------------------------------------------------------------
  // write_piece

  /**
   * `write_piece`: nothing for empty content. Otherwise the indentation if
   * the line has no content yet, then the content in its style, a mark for
   * the content's cells (after the indentation) if it is underlined, and the
   * line now needs a flush.
   */
  function WritePieceF(st: WriterState, content: string, width: nat, style: Style, undercurl: Option<Style>): WriterState {
    if content == [] then st
    else
      var indentText := if st.needFlush then "" else Repeat(' ', st.indent);
      var start := if st.needFlush then st.lineWidth else st.lineWidth + st.indent;
      st.(buffer := st.buffer + indentText + Paint(content, style, st.stylingEnabled),
          marks := if undercurl.Some? then st.marks + [Mark(start, start + width, undercurl.value)] else st.marks,
          needFlush := true,
          lineWidth := start + width)
  }

  /** A non-empty piece, field by field. */
  lemma WritePieceFields(st: WriterState, content: string, width: nat, style: Style, undercurl: Option<Style>)
    requires content != []
    ensures var start := st.lineWidth + (if st.needFlush then 0 else st.indent);
      WritePieceF(st, content, width, style, undercurl)
      == WriterState(st.buffer + (if st.needFlush then "" else Repeat(' ', st.indent)) + Paint(content, style, st.stylingEnabled),
                     st.width, st.stylingEnabled, start + width,
                     if undercurl.Some? then st.marks + [Mark(start, start + width, undercurl.value)] else st.marks,
                     true, st.indent)
  {
  }

  /** Writing an empty piece changes nothing at all. */
  lemma WritePieceEmpty(st: WriterState, width: nat, style: Style, undercurl: Option<Style>)
    ensures WritePieceF(st, "", width, style, undercurl) == st
  {
  }

  /**
   * Writing a non-empty piece keeps the invariant, leaves the line pending,
   * and grows the line by the piece's cells (plus the indentation on a new
   * line).
   */
  lemma WritePieceInv(st: WriterState, content: string, width: nat, style: Style, undercurl: Option<Style>)
    requires Inv(st) && content != []
    ensures var next := WritePieceF(st, content, width, style, undercurl);
      && Inv(next)
      && next.needFlush
      && next.lineWidth == st.lineWidth + width + (if st.needFlush then 0 else st.indent)
      && |next.marks| == |st.marks| + (if undercurl.Some? then 1 else 0)
  {
  }

  /** Indentation is only written at the start of a line: changing it mid-line affects later lines only. */
  lemma IndentOnlyAtLineStart(st: WriterState, content: string, width: nat, style: Style, undercurl: Option<Style>, indent: nat)
    requires st.needFlush
    ensures WritePieceF(st.(indent := indent), content, width, style, undercurl)
         == WritePieceF(st, content, width, style, undercurl).(indent := indent)
  {
  }

  // ---------------------------------------------------------------------
  // flush_line

  /** Where the previous mark ends: 0 before the first mark. */
  function PrevEnd(marks: seq<Mark>): nat {
    if marks == [] then 0 else marks[|marks| - 1].end
  }

  lemma MarksOrderedPrefix(marks: seq<Mark>, n: nat)
    requires MarksOrdered(marks, PrevEnd(marks)) && n <= |marks|
    ensures MarksOrdered(marks[..n], PrevEnd(marks[..n]))
  {
    if 0 < n < |marks| {
      assert marks[n - 1].end <= marks[n].start;
    }
  }

  /** The underline row of the first `i + 1` marks extends that of the first `i` by the spaces and carets of mark `i`. */
  lemma UndercurlRowStep(ms: seq<Mark>, i: nat, enabled: bool)
    requires MarksOrdered(ms, PrevEnd(ms)) && i < |ms|
    ensures MarksOrdered(ms[..i], PrevEnd(ms[..i])) && MarksOrdered(ms[..i + 1], PrevEnd(ms[..i + 1]))
    ensures PrevEnd(ms[..i]) <= ms[i].start <= ms[i].end && PrevEnd(ms[..i + 1]) == ms[i].end
    ensures UndercurlRow(ms[..i + 1], enabled)
      == UndercurlRow(ms[..i], enabled) + Repeat(' ', ms[i].start - PrevEnd(ms[..i]))
         + Paint(Repeat('^', ms[i].end - ms[i].start), ms[i].style, enabled)
  {
    MarksOrderedPrefix(ms, i);
    MarksOrderedPrefix(ms, i + 1);
    assert ms[..i + 1][..i] == ms[..i];
    if i > 0 {
      assert ms[i - 1].end <= ms[i].start;
    }
  }

  /** The underline row: for each mark, spaces up to its start and then a `^` per cell, in the mark's style. */
  function UndercurlRow(marks: seq<Mark>, enabled: bool): string
    requires MarksOrdered(marks, PrevEnd(marks))
  {
    if marks == [] then ""
    else
      var init := marks[..|marks| - 1];
      var last := marks[|marks| - 1];
      assert MarksOrdered(init, PrevEnd(init));
      UndercurlRow(init, enabled)
        + Repeat(' ', last.start - PrevEnd(init))
        + Paint(Repeat('^', last.end - last.start), last.style, enabled)
  }

  /**
   * `flush_line`: a line break, then the underline row, then another line
   * break unless the buffer already ends in one; the next line starts
   * empty, without marks.
   */
  function FlushLineF(st: WriterState): WriterState
    requires Inv(st)
  {
    var withRow := st.buffer + "\n" + UndercurlRow(st.marks, st.stylingEnabled);
    st.(buffer := if withRow[|withRow| - 1] == '\n' then withRow else withRow + "\n",
        needFlush := false,
        lineWidth := 0,
        marks := [])
  }

  /**
   * After a flush the buffer ends in a line break, the line is empty and
   * unmarked, and everything written before is still there.
   */
  lemma FlushLineSpec(st: WriterState)
    requires Inv(st)
    ensures var next := FlushLineF(st);
      && Inv(next)
      && |next.buffer| > |st.buffer| && next.buffer[..|st.buffer|] == st.buffer
      && next.buffer[|next.buffer| - 1] == '\n'
      && !next.needFlush && next.lineWidth == 0 && next.marks == []
      && next.indent == st.indent && next.width == st.width && next.stylingEnabled == st.stylingEnabled
  {
    var withRow := st.buffer + "\n" + UndercurlRow(st.marks, st.stylingEnabled);
    assert withRow[..|st.buffer|] == st.buffer;
    assert (withRow + "\n")[..|st.buffer|] == st.buffer;
    var b := FlushLineF(st).buffer;
    if withRow[|withRow| - 1] == '\n' {
      assert b == withRow;
    } else {
      assert b == withRow + "\n";
      assert b[|b| - 1] == '\n';
    }
  }

  /** Without marks a flush appends exactly one line break. */
  lemma FlushWithoutMarks(st: WriterState)
    requires Inv(st) && st.marks == []
    ensures FlushLineF(st).buffer == st.buffer + "\n"
  {
  }

  /** A mark-only row for the marks `2..6` and `8..12`, unstyled: the gaps are spaces. */
  lemma UndercurlRowExample(s: Style)
    ensures UndercurlRow([Mark(2, 6, s), Mark(8, 12, s)], false) == "  ^^^^  ^^^^"
  {
    var marks := [Mark(2, 6, s), Mark(8, 12, s)];
    var first := marks[..1];
    assert first == [Mark(2, 6, s)];
    assert first[..0] == [];
    assert Repeat('^', 4) == "^^^^";
    assert Repeat(' ', 2) == "  ";
    assert UndercurlRow([], false) == "";
    assert UndercurlRow(first, false) == "" + "  " + "^^^^";
    assert UndercurlRow(marks, false) == UndercurlRow(first, false) + "  " + "^^^^";
  }

  /** `Drop`: flush the line only when it holds unflushed content. */
  function DropF(st: WriterState): WriterState
    requires Inv(st)
  {
    if st.needFlush then FlushLineF(st) else st
  }

  /** An explicit flush before dropping is not repeated by the drop; dropping a flushed writer changes nothing. */
  lemma DropAfterFlush(st: WriterState)
    requires Inv(st)
    ensures Inv(FlushLineF(st)) && DropF(FlushLineF(st)) == FlushLineF(st)
    ensures !st.needFlush ==> DropF(st) == st
    ensures st.needFlush ==> DropF(st) == FlushLineF(st)
  {
    FlushLineSpec(st);
  }

  // ---------------------------------------------------------------------
  // write_snippet

  /** The outcome of the inner character loop: where the line ends (if it does) and the cells before it. */
  datatype ScanResult = ScanResult(end: Option<nat>, contentWidth: nat)

  /**
   * Whether the next character must go to the next line. As written, a
   * character that does not fit always breaks the line; corrected, a
   * character is always taken when the line is still empty, however wide.
   */
  predicate Overflows(used: nat, charWidth: nat, width: nat, corrected: bool) {
    used + charWidth > width && !(corrected && used == 0)
  }

  /**
   * The inner loop of `write_snippet` from index `i`: stop at a line break,
   * or before a character that overflows the line; otherwise add its cells.
   */
  function ScanFrom(t: CharTable, content: string, i: nat, acc: nat, base: nat, width: nat, corrected: bool): (r: ScanResult)
    requires i <= |content|
    ensures var k := if r.end.Some? then r.end.value else |content|;
      && i <= k <= |content|
      && r.contentWidth == acc + TextWidth(t, content[i..k])
      && '\n' !in content[i..k]
      && (r.end.Some? ==> k < |content| && (content[k] == '\n' || Overflows(base + r.contentWidth, CharWidth(t, content[k]), width, corrected)))
      && (!corrected && base + acc <= width ==> base + r.contentWidth <= width)
    decreases |content| - i
  {
    if i == |content| then
      ScanResult(None, acc)
    else if content[i] == '\n' then
      ScanResult(Some(i), acc)
    else
      var w := CharWidth(t, content[i]);
      if Overflows(base + acc, w, width, corrected) then
        ScanResult(Some(i), acc)
      else
        var r := ScanFrom(t, content, i + 1, acc + w, base, width, corrected);
        ScanStep(t, content, i, if r.end.Some? then r.end.value else |content|);
        r
  }

  /** One step of the scan at a character. */
  lemma ScanFromStep(t: CharTable, content: string, i: nat, acc: nat, base: nat, width: nat, corrected: bool)
    requires i < |content|
    ensures content[i] == '\n' ==> ScanFrom(t, content, i, acc, base, width, corrected) == ScanResult(Some(i), acc)
    ensures content[i] != '\n' && Overflows(base + acc, CharWidth(t, content[i]), width, corrected) ==>
      ScanFrom(t, content, i, acc, base, width, corrected) == ScanResult(Some(i), acc)
    ensures content[i] != '\n' && !Overflows(base + acc, CharWidth(t, content[i]), width, corrected) ==>
      ScanFrom(t, content, i, acc, base, width, corrected)
      == ScanFrom(t, content, i + 1, acc + CharWidth(t, content[i]), base, width, corrected)
  {
  }

  /** At the end of the content the scan stops without a line end. */
  lemma ScanFromEnd(t: CharTable, content: string, acc: nat, base: nat, width: nat, corrected: bool)
    ensures ScanFrom(t, content, |content|, acc, base, width, corrected) == ScanResult(None, acc)
  {
  }

  /** A slice is its first character followed by the rest. */
  lemma ScanStep(t: CharTable, content: string, i: nat, k: nat)
    requires i < k <= |content|
    ensures TextWidth(t, content[i..k]) == CharWidth(t, content[i]) + TextWidth(t, content[i + 1..k])
    ensures content[i] != '\n' && '\n' !in content[i + 1..k] ==> '\n' !in content[i..k]
  {
    assert content[i..k] == [content[i]] + content[i + 1..k];
    TextWidthAppend(t, [content[i]], content[i + 1..k]);
    assert TextWidth(t, [content[i]]) == TextWidth(t, []) + CharWidth(t, content[i]);
  }

  /**
   * How one pass of the outer loop splits the content: the head that goes on
   * the current line and its cells, whether the line ends after it, and
   * what is left once a line break that ended the head is dropped.
   */
  datatype Cut = Cut(head: string, headWidth: nat, ended: bool, rest: string)

  /**
   * The split of `write_snippet`: the head is the longest prefix without a
   * line break whose characters fit on the line; the line ends if anything
   * is left after it.
   */
  function CutLine(t: CharTable, content: string, lineWidth: nat, width: nat, corrected: bool): (c: Cut)
    ensures '\n' !in c.head && c.headWidth == TextWidth(t, c.head)
    ensures content == c.head + c.rest || (c.ended && content == c.head + "\n" + c.rest)
    ensures !c.ended ==> c.head == content && c.rest == []
    ensures c.ended && c.head == [] ==>
      content != [] && (content[0] == '\n' || Overflows(lineWidth, CharWidth(t, content[0]), width, corrected))
    ensures !corrected && lineWidth <= width ==> lineWidth + c.headWidth <= width
  {
    var sc := ScanFrom(t, content, 0, 0, lineWidth, width, corrected);
    var k := if sc.end.Some? then sc.end.value else |content|;
    var head, tail := content[..k], content[k..];
    assert content[0..k] == head;
    BreakSplit(content, k);
    if tail != [] && tail[0] == '\n' then
      Cut(head, sc.contentWidth, sc.end.Some?, tail[1..])
    else
      Cut(head, sc.contentWidth, sc.end.Some?, tail)
  }

  /** A text is its part before `k` and its part from `k`, and a line break at `k` can be taken out between them. */
  lemma BreakSplit(content: string, k: nat)
    requires k <= |content|
    ensures content == content[..k] + content[k..]
    ensures content[k..] != [] && content[k..][0] == '\n' ==> content == content[..k] + "\n" + content[k..][1..]
  {
    if content[k..] != [] && content[k..][0] == '\n' {
      assert content[k..] == "\n" + content[k..][1..];
    }
  }

  /** What a pass leaves and the state it reaches. */
  datatype Progress = Progress(state: WriterState, rest: string)

  /**
   * One pass of the outer loop of `write_snippet`: write the head as a
   * piece, and flush if the line ended.
   */
  function SnippetStep(t: CharTable, st: WriterState, content: string, style: Style, undercurl: Option<Style>, corrected: bool): Progress
    requires Inv(st)
  {
    var c := CutLine(t, content, st.lineWidth, st.width, corrected);
    var written := WritePieceF(st, c.head, c.headWidth, style, undercurl);
    WritePieceKeepsInv(st, c.head, c.headWidth, style, undercurl);
    Progress(if c.ended then FlushLineF(written) else written, c.rest)
  }

  lemma WritePieceKeepsInv(st: WriterState, content: string, width: nat, style: Style, undercurl: Option<Style>)
    requires Inv(st)
    ensures var next := WritePieceF(st, content, width, style, undercurl);
      && Inv(next)
      && next.width == st.width && next.indent == st.indent && next.stylingEnabled == st.stylingEnabled
  {
    if content != [] {
      WritePieceInv(st, content, width, style, undercurl);
    }
  }

  /** A pass keeps the invariant and the settings, and leaves a suffix of its content. */
  lemma SnippetStepInv(t: CharTable, st: WriterState, content: string, style: Style, undercurl: Option<Style>, corrected: bool)
    requires Inv(st)
    ensures var p := SnippetStep(t, st, content, style, undercurl, corrected);
      && Inv(p.state)
      && |p.rest| <= |content| && p.rest == content[|content| - |p.rest|..]
      && p.state.width == st.width && p.state.indent == st.indent && p.state.stylingEnabled == st.stylingEnabled
  {
    var c := CutLine(t, content, st.lineWidth, st.width, corrected);
    var written := WritePieceF(st, c.head, c.headWidth, style, undercurl);
    WritePieceKeepsInv(st, c.head, c.headWidth, style, undercurl);
    if c.ended {
      FlushLineSpec(written);
    }
    RestIsSuffix(content, c.head, c.rest);
  }

  /** What is left after a head, and possibly a line break, is a suffix of the content. */
  lemma RestIsSuffix(content: string, head: string, rest: string)
    requires content == head + rest || content == head + "\n" + rest
    ensures |rest| <= |content| && rest == content[|content| - |rest|..]
  {
    if content == head + rest {
      assert content[|content| - |rest|..] == rest;
    } else {
      assert content == (head + "\n") + rest;
      assert content[|content| - |rest|..] == rest;
    }
  }

  /**
   * The corrected pass always makes progress: it consumes at least one
   * character, or it ends a line that was not empty.
   */
  lemma CorrectedStepProgress(t: CharTable, st: WriterState, content: string, style: Style, undercurl: Option<Style>)
    requires Inv(st) && content != []
    ensures var p := SnippetStep(t, st, content, style, undercurl, true);
      || |p.rest| < |content|
      || (|p.rest| == |content| && st.lineWidth > 0 && p.state.lineWidth == 0)
  {
    var c := CutLine(t, content, st.lineWidth, st.width, true);
    if |c.rest| == |content| {
      assert c.head == [] && c.ended;
      assert content[0] != '\n';
      FlushLineSpec(WritePieceF(st, [], c.headWidth, style, undercurl));
    }
  }

  /**
   * `write_snippet`, corrected so that it always terminates: passes of the
   * outer loop until nothing is left.
   */
  function WriteSnippetF(t: CharTable, st: WriterState, content: string, style: Style, undercurl: Option<Style>): WriterState
    requires Inv(st)
    decreases |content|, if st.lineWidth > 0 then 1 else 0
  {
    if content == [] then st
    else
      var p := SnippetStep(t, st, content, style, undercurl, true);
      SnippetStepInv(t, st, content, style, undercurl, true);
      CorrectedStepProgress(t, st, content, style, undercurl);
      WriteSnippetF(t, p.state, p.rest, style, undercurl)
  }

  /** Writing a snippet keeps the invariant and the writer's settings. */
  lemma {:induction false} WriteSnippetInv(t: CharTable, st: WriterState, content: string, style: Style, undercurl: Option<Style>)
    requires Inv(st)
    ensures var next := WriteSnippetF(t, st, content, style, undercurl);
      && Inv(next)
      && next.width == st.width && next.indent == st.indent && next.stylingEnabled == st.stylingEnabled
    decreases |content|, if st.lineWidth > 0 then 1 else 0
  {
    if content != [] {
      var p := SnippetStep(t, st, content, style, undercurl, true);
      SnippetStepInv(t, st, content, style, undercurl, true);
      CorrectedStepProgress(t, st, content, style, undercurl);
      WriteSnippetInv(t, p.state, p.rest, style, undercurl);
    }
  }

  /** Every character of `s` other than a line break fits on an empty line of `width` cells. */
  predicate AllFit(t: CharTable, s: string, width: nat) {
    forall i :: 0 <= i < |s| && s[i] != '\n' ==> CharWidth(t, s[i]) <= width
  }

  /** When every character fits, the correction never applies: the corrected scan is the scan as written. */
  lemma {:induction false} ScanAgrees(t: CharTable, content: string, i: nat, acc: nat, base: nat, width: nat)
    requires i <= |content| && AllFit(t, content, width)
    ensures ScanFrom(t, content, i, acc, base, width, true) == ScanFrom(t, content, i, acc, base, width, false)
    decreases |content| - i
  {
    if i == |content| {
      ScanFromEnd(t, content, acc, base, width, true);
      ScanFromEnd(t, content, acc, base, width, false);
    } else {
      ScanFromStep(t, content, i, acc, base, width, true);
      ScanFromStep(t, content, i, acc, base, width, false);
      if content[i] != '\n' {
        assert CharWidth(t, content[i]) <= width;
        assert Overflows(base + acc, CharWidth(t, content[i]), width, true)
          == Overflows(base + acc, CharWidth(t, content[i]), width, false);
        ScanAgrees(t, content, i + 1, acc + CharWidth(t, content[i]), base, width);
      }
    }
  }

  /** When every character fits, a corrected pass is a pass as written. */
  lemma StepAgrees(t: CharTable, st: WriterState, content: string, style: Style, undercurl: Option<Style>)
    requires Inv(st) && AllFit(t, content, st.width)
    ensures SnippetStep(t, st, content, style, undercurl, true) == SnippetStep(t, st, content, style, undercurl, false)
  {
    ScanAgrees(t, content, 0, 0, st.lineWidth, st.width);
    assert CutLine(t, content, st.lineWidth, st.width, true) == CutLine(t, content, st.lineWidth, st.width, false);
  }

  /**
   * As written, a pass makes no progress on an empty line whose next
   * character is not a line break and is wider than the whole line: the
   * content is left as it was, the line is empty again, and only a line
   * break was added.
   */
  lemma StuckStep(t: CharTable, st: WriterState, content: string, style: Style, undercurl: Option<Style>)
    requires Inv(st) && !st.needFlush && content != [] && content[0] != '\n'
    requires CharWidth(t, content[0]) > st.width
    ensures var p := SnippetStep(t, st, content, style, undercurl, false);
      && p.rest == content
      && p.state == st.(buffer := st.buffer + "\n")
  {
    var sc := ScanFrom(t, content, 0, 0, st.lineWidth, st.width, false);
    assert sc == ScanResult(Some(0), 0);
    assert content[..0] == [] && content[0..] == content;
    var c := CutLine(t, content, st.lineWidth, st.width, false);
    assert c == Cut([], 0, true, content);
    assert UndercurlRow([], st.stylingEnabled) == "";
  }

  /** `n` passes of the outer loop as written, stopping early only when nothing is left. */
  function RunAsWritten(t: CharTable, st: WriterState, content: string, style: Style, undercurl: Option<Style>, n: nat): Progress
    requires Inv(st)
    decreases n
  {
    if n == 0 || content == [] then Progress(st, content)
    else
      var p := SnippetStep(t, st, content, style, undercurl, false);
      SnippetStepInv(t, st, content, style, undercurl, false);
      RunAsWritten(t, p.state, p.rest, style, undercurl, n - 1)
  }

  /**
   * As written, `write_snippet` never finishes on such content: after any
   * number of passes the content is still all there, and every pass has
   * added one more line break.
   */
  lemma {:induction false} NeverFinishes(t: CharTable, st: WriterState, content: string, style: Style, undercurl: Option<Style>, n: nat)
    requires Inv(st) && !st.needFlush && content != [] && content[0] != '\n'
    requires CharWidth(t, content[0]) > st.width
    ensures var p := RunAsWritten(t, st, content, style, undercurl, n);
      && p.rest == content
      && p.state.buffer == st.buffer + Repeat('\n', n)
    decreases n
  {
    if n > 0 {
      var next := st.(buffer := st.buffer + "\n");
      StuckRun(t, st, content, style, undercurl, n);
      NeverFinishes(t, next, content, style, undercurl, n - 1);
      MoreBreaks(st.buffer, n);
    }
  }

  /** A stuck pass adds a line break and starts the remaining passes over. */
  lemma StuckRun(t: CharTable, st: WriterState, content: string, style: Style, undercurl: Option<Style>, n: nat)
    requires Inv(st) && !st.needFlush && content != [] && content[0] != '\n'
    requires CharWidth(t, content[0]) > st.width && n > 0
    ensures Inv(st.(buffer := st.buffer + "\n"))
    ensures RunAsWritten(t, st, content, style, undercurl, n)
      == RunAsWritten(t, st.(buffer := st.buffer + "\n"), content, style, undercurl, n - 1)
  {
    StuckStep(t, st, content, style, undercurl);
  }

  lemma MoreBreaks(buffer: string, n: nat)
    requires n > 0
    ensures buffer + Repeat('\n', n) == (buffer + "\n") + Repeat('\n', n - 1)
  {
    RepeatCons('\n', n);
  }

  lemma {:induction false} RepeatCons<T>(x: T, n: nat)
    requires n > 0
    ensures Repeat(x, n) == [x] + Repeat(x, n - 1)
  {
    if n > 1 {
      RepeatCons(x, n - 1);
    }
  }

  /** A zero-width terminal and a tab: the smallest input on which the loop as written spins. */
  lemma StuckExample(t: CharTable, buffer: string)
    ensures var st := NewWriter(buffer, 0, false);
      SnippetStep(t, st, "\t", PlainStyle, None, false) == Progress(st.(buffer := buffer + "\n"), "\t")
  {
    StuckStep(t, NewWriter(buffer, 0, false), "\t", PlainStyle, None);
  }

  /**
   * With no indentation and every character fitting, no line grows past the
   * width: a pass keeps the current line within `width` cells.
   */
  lemma StepWithinWidth(t: CharTable, st: WriterState, content: string, style: Style, undercurl: Option<Style>)
    requires Inv(st) && st.indent == 0 && st.lineWidth <= st.width && AllFit(t, content, st.width)
    ensures SnippetStep(t, st, content, style, undercurl, true).state.lineWidth <= st.width
  {
    StepAgrees(t, st, content, style, undercurl);
    var c := CutLine(t, content, st.lineWidth, st.width, false);
    var written := WritePieceF(st, c.head, c.headWidth, style, undercurl);
    assert written.lineWidth <= st.width;
  }

  /** With no indentation and every character fitting, no line of a written snippet grows past the width. */
  lemma {:induction false} WriteSnippetWithinWidth(t: CharTable, st: WriterState, content: string, style: Style, undercurl: Option<Style>)
    requires Inv(st) && st.indent == 0 && st.lineWidth <= st.width && AllFit(t, content, st.width)
    ensures WriteSnippetF(t, st, content, style, undercurl).lineWidth <= st.width
    decreases |content|, if st.lineWidth > 0 then 1 else 0
  {
    if content != [] {
      var p := SnippetStep(t, st, content, style, undercurl, true);
      SnippetStepInv(t, st, content, style, undercurl, true);
      CorrectedStepProgress(t, st, content, style, undercurl);
      StepWithinWidth(t, st, content, style, undercurl);
      assert AllFit(t, p.rest, st.width) by {
        forall i | 0 <= i < |p.rest| && p.rest[i] != '\n'
          ensures CharWidth(t, p.rest[i]) <= st.width
        {
          assert p.rest[i] == content[|content| - |p.rest| + i];
        }
      }
      WriteSnippetWithinWidth(t, p.state, p.rest, style, undercurl);
    }
  }

  /** The width of a text grows one character at a time, and a prefix is never wider than the text. */
  lemma PrefixWidth(t: CharTable, s: string, i: nat)
    requires i < |s|
    ensures TextWidth(t, s[..i + 1]) == TextWidth(t, s[..i]) + CharWidth(t, s[i])
    ensures TextWidth(t, s[..i + 1]) <= TextWidth(t, s)
  {
    assert s[..i + 1][..i] == s[..i];
    TextWidthAppend(t, s[..i + 1], s[i + 1..]);
    assert s[..i + 1] + s[i + 1..] == s;
  }

  /** The scan does not stop inside a text without line breaks that fits on the line. */
  lemma {:induction false} ScanFits(t: CharTable, content: string, i: nat, acc: nat, base: nat, width: nat, corrected: bool)
    requires i <= |content| && '\n' !in content[i..] && base + acc + TextWidth(t, content[i..]) <= width
    ensures ScanFrom(t, content, i, acc, base, width, corrected).end == None
    decreases |content| - i
  {
    if i < |content| {
      assert content[i..] == [content[i]] + content[i + 1..];
      assert content[i..] == content[i..|content|] && content[i + 1..] == content[i + 1..|content|];
      ScanStep(t, content, i, |content|);
      ScanFromStep(t, content, i, acc, base, width, corrected);
      ScanFits(t, content, i + 1, acc + CharWidth(t, content[i]), base, width, corrected);
    }
  }

  /** A snippet without line breaks that fits on the current line is written as a single piece. */
  lemma SnippetFitsOnLine(t: CharTable, st: WriterState, content: string, style: Style, undercurl: Option<Style>)
    requires Inv(st) && '\n' !in content && st.lineWidth + TextWidth(t, content) <= st.width
    ensures WriteSnippetF(t, st, content, style, undercurl) == WritePieceF(st, content, TextWidth(t, content), style, undercurl)
  {
    if content != [] {
      assert content[0..] == content;
      ScanFits(t, content, 0, 0, st.lineWidth, st.width, true);
      assert content[..0] == [];
      var c := CutLine(t, content, st.lineWidth, st.width, true);
      assert c == Cut(content, TextWidth(t, content), false, []);
      WritePieceKeepsInv(st, content, TextWidth(t, content), style, undercurl);
    }
  }

  /**
   * Every line of `s` fits in `width` cells when nothing wraps: the first
   * line after the `used` cells already taken, the later ones from the
   * start of a line.
   */
  predicate LinesFit(t: CharTable, used: nat, width: nat, s: string)
    decreases |s|
  {
    var k := IndexOf(s, '\n');
    && used + TextWidth(t, s[..k]) <= width
    && (k < |s| ==> LinesFit(t, 0, width, s[k + 1..]))
  }

  /** The cells taken on the last line once `s` is laid out after `used` cells without wrapping. */
  function LaidOutWidth(t: CharTable, used: nat, s: string): nat
    decreases |s|
  {
    var k := IndexOf(s, '\n');
    if k == |s| then used + TextWidth(t, s) else LaidOutWidth(t, 0, s[k + 1..])
  }

  /**
   * When the first line of the content fits, the cut of `write_snippet` is
   * at the first line break: the head is the text before it and the rest
   * the text after it.
   */
  lemma CutAtBreak(t: CharTable, content: string, lineWidth: nat, width: nat)
    requires lineWidth + TextWidth(t, content[..IndexOf(content, '\n')]) <= width
    ensures var k, c := IndexOf(content, '\n'), CutLine(t, content, lineWidth, width, true);
      && c.head == content[..k] && c.headWidth == TextWidth(t, content[..k])
      && c.ended == (k < |content|)
      && c.rest == (if k < |content| then content[k + 1..] else [])
  {
    var k := IndexOf(content, '\n');
    var sc := ScanFrom(t, content, 0, 0, lineWidth, width, true);
    var e := if sc.end.Some? then sc.end.value else |content|;
    assert content[0..e] == content[..e];
    // no line break before either stop
    assert forall j :: 0 <= j < e ==> content[j] != '\n' by {
      forall j | 0 <= j < e ensures content[j] != '\n' { assert content[..e][j] == content[j]; }
    }
    assert forall j :: 0 <= j < k ==> content[j] != '\n' by {
      forall j | 0 <= j < k ensures content[j] != '\n' { assert content[..k][j] == content[j]; }
    }
    // a character before the first line break still fits on the line
    PrefixWidthLe(t, content, if e < k then e + 1 else k, k);
    if e < |content| {
      PrefixWidth(t, content, e);
    }
    assert e == k;
    if sc.end.Some? {
      assert content[k..][0] == '\n';
      assert content[k..][1..] == content[k + 1..];
    }
  }

  /** A shorter prefix is never wider. */
  lemma PrefixWidthLe(t: CharTable, s: string, i: nat, j: nat)
    requires i <= j <= |s|
    ensures TextWidth(t, s[..i]) <= TextWidth(t, s[..j])
  {
    assert s[..j] == s[..i] + s[i..j];
    TextWidthAppend(t, s[..i], s[i..j]);
  }

  /**
   * One pass without styling, indentation or underlines, when the first line
   * fits: the text up to the first line break goes out bare, and the line
   * break flushes the line without an underline row.
   */
  lemma SnippetStepText(t: CharTable, st: WriterState, content: string, style: Style)
    requires Inv(st) && !st.stylingEnabled && st.indent == 0 && st.marks == []
    requires st.lineWidth + TextWidth(t, content[..IndexOf(content, '\n')]) <= st.width
    ensures var k, p := IndexOf(content, '\n'), SnippetStep(t, st, content, style, None, true);
      && Inv(p.state) && !p.state.stylingEnabled && p.state.indent == 0 && p.state.marks == []
      && p.state.width == st.width
      && (k < |content| ==> p.state.buffer == st.buffer + content[..k] + "\n" && p.state.lineWidth == 0 && p.rest == content[k + 1..])
      && (k == |content| ==> p.state.buffer == st.buffer + content && p.state.lineWidth == st.lineWidth + TextWidth(t, content) && p.rest == [])
  {
    var k := IndexOf(content, '\n');
    CutAtBreak(t, content, st.lineWidth, st.width);
    var c := CutLine(t, content, st.lineWidth, st.width, true);
    BarePiece(st, c.head, c.headWidth, style);
    var written := WritePieceF(st, c.head, c.headWidth, style, None);
    if c.ended {
      FlushWithoutMarks(written);
    } else {
      assert content[..k] == content;
    }
  }

  /** Without styling, indentation or underlines, a piece is its bare text. */
  lemma BarePiece(st: WriterState, content: string, width: nat, style: Style)
    requires Inv(st) && !st.stylingEnabled && st.indent == 0 && st.marks == []
    ensures var next := WritePieceF(st, content, width, style, None);
      && Inv(next)
      && next == st.(buffer := st.buffer + content, lineWidth := st.lineWidth + (if content == [] then 0 else width),
                     needFlush := st.needFlush || content != [])
  {
    if content == [] {
      assert st.buffer + content == st.buffer;
    } else {
      WritePieceInv(st, content, width, style, None);
      assert Repeat(' ', 0) == [];
    }
  }

  /** A non-empty snippet is one pass of the outer loop followed by the rest. */
  lemma WriteSnippetUnfold(t: CharTable, st: WriterState, content: string, style: Style, undercurl: Option<Style>)
    requires Inv(st) && content != []
    ensures Inv(SnippetStep(t, st, content, style, undercurl, true).state)
    ensures var p := SnippetStep(t, st, content, style, undercurl, true);
      WriteSnippetF(t, st, content, style, undercurl) == WriteSnippetF(t, p.state, p.rest, style, undercurl)
  {
    SnippetStepInv(t, st, content, style, undercurl, true);
  }

  /**
   * Without styling, indentation or underlines, a snippet whose lines all
   * fit is written as its bare text: nothing wraps, each line break of the
   * content flushes the line, and no underline row appears.
   */
  lemma {:induction false} WriteSnippetText(t: CharTable, st: WriterState, content: string, style: Style)
    requires Inv(st) && !st.stylingEnabled && st.indent == 0 && st.marks == []
    requires LinesFit(t, st.lineWidth, st.width, content)
    ensures var r := WriteSnippetF(t, st, content, style, None);
      && r.buffer == st.buffer + content
      && r.marks == []
      && r.lineWidth == LaidOutWidth(t, st.lineWidth, content)
    decreases |content|
  {
    if content == [] {
      assert st.buffer + content == st.buffer;
    } else {
      var k := IndexOf(content, '\n');
      var p := SnippetStep(t, st, content, style, None, true);
      SnippetStepText(t, st, content, style);
      WriteSnippetUnfold(t, st, content, style, None);
      if k < |content| {
        WriteSnippetText(t, p.state, p.rest, style);
        BreakJoin(st.buffer, content, k);
      } else {
        assert WriteSnippetF(t, p.state, p.rest, style, None) == p.state;
      }
    }
  }

  /** Text up to a line break, the break, and the text after it make up the whole. */
  lemma BreakJoin(buffer: string, content: string, k: nat)
    requires k < |content| && content[k] == '\n'
    ensures buffer + content[..k] + "\n" + content[k + 1..] == buffer + content
  {
    assert content == content[..k] + "\n" + content[k + 1..];
  }

  /** On a terminal where every character is one cell, a text without tabs takes one cell per character. */
  lemma {:induction false} UnitWidth(t: CharTable, s: string)
    requires forall c :: t.width(c) == Some(1)
    requires '\t' !in s
    ensures TextWidth(t, s) == |s|
  {
    if s != [] {
      assert s[|s| - 1] in s;
      assert forall c :: c in s[..|s| - 1] ==> c in s;
      UnitWidth(t, s[..|s| - 1]);
    }
  }

  /** Without styling, a piece on a pending line is its bare content, right after what the line already holds. */
  lemma PendingPiece(st: WriterState, content: string, width: nat, style: Style, undercurl: Option<Style>)
    requires st.needFlush && !st.stylingEnabled && content != []
    ensures WritePieceF(st, content, width, style, undercurl)
      == st.(buffer := st.buffer + content, lineWidth := st.lineWidth + width,
             marks := if undercurl.Some? then st.marks + [Mark(st.lineWidth, st.lineWidth + width, undercurl.value)] else st.marks)
  {
  }

  lemma HelloDear()
    ensures "Hello " + "dear" == "Hello dear"
  {
  }

  /** "Hello" in a style, on an empty 20-cell line without styling. */
  lemma StrippedHello(t: CharTable, yellow: Style)
    requires forall c :: t.width(c) == Some(1)
    ensures WriteSnippetF(t, NewWriter("", 20, false), "Hello", yellow, None)
         == WriterState("Hello", 20, false, 5, [], true, 0)
  {
    UnitWidth(t, "Hello");
    SnippetFitsOnLine(t, NewWriter("", 20, false), "Hello", yellow, None);
  }

  /** Then a plain space. */
  lemma StrippedSpace(t: CharTable)
    requires forall c :: t.width(c) == Some(1)
    ensures WriteSnippetF(t, WriterState("Hello", 20, false, 5, [], true, 0), " ", PlainStyle, None)
         == WriterState("Hello ", 20, false, 6, [], true, 0)
  {
    UnitWidth(t, " ");
    SnippetFitsOnLine(t, WriterState("Hello", 20, false, 5, [], true, 0), " ", PlainStyle, None);
    PendingPiece(WriterState("Hello", 20, false, 5, [], true, 0), " ", 1, PlainStyle, None);
    assert "Hello" + " " == "Hello ";
  }

  /** Then "dear", underlined: the mark covers its cells 6..10. */
  lemma StrippedDear(t: CharTable, red: Style)
    requires forall c :: t.width(c) == Some(1)
    ensures WriteSnippetF(t, WriterState("Hello ", 20, false, 6, [], true, 0), "dear", PlainStyle, Some(red))
         == WriterState("Hello dear", 20, false, 10, [Mark(6, 10, red)], true, 0)
  {
    UnitWidth(t, "dear");
    SnippetFitsOnLine(t, WriterState("Hello ", 20, false, 6, [], true, 0), "dear", PlainStyle, Some(red));
    PendingPiece(WriterState("Hello ", 20, false, 6, [], true, 0), "dear", 4, PlainStyle, Some(red));
    HelloDear();
  }

  /** Then "!". */
  lemma StrippedBang(t: CharTable, red: Style)
    requires forall c :: t.width(c) == Some(1)
    ensures WriteSnippetF(t, WriterState("Hello dear", 20, false, 10, [Mark(6, 10, red)], true, 0), "!", PlainStyle, None)
         == WriterState("Hello dear!", 20, false, 11, [Mark(6, 10, red)], true, 0)
  {
    UnitWidth(t, "!");
    SnippetFitsOnLine(t, WriterState("Hello dear", 20, false, 10, [Mark(6, 10, red)], true, 0), "!", PlainStyle, None);
    PendingPiece(WriterState("Hello dear", 20, false, 10, [Mark(6, 10, red)], true, 0), "!", 1, PlainStyle, None);
    assert "Hello dear" + "!" == "Hello dear!";
  }

  /** The underline row of a single mark over cells 6..10, without styling. */
  lemma StrippedRow(red: Style)
    ensures UndercurlRow([Mark(6, 10, red)], false) == "      ^^^^"
  {
    var marks := [Mark(6, 10, red)];
    assert marks[..0] == [];
    assert Repeat(' ', 6) == "      " && Repeat('^', 4) == "^^^^";
  }

  /** And the drop flushes the line with the underline row. */
  lemma StrippedDrop(red: Style)
    ensures DropF(WriterState("Hello dear!", 20, false, 11, [Mark(6, 10, red)], true, 0)).buffer
         == "Hello dear!\n      ^^^^\n"
  {
    StrippedRow(red);
  }

  // ---------------------------------------------------------------------
  // Words on a terminal of one cell per character, in the default style

  /** `st` once `content` takes its cells right after what the line holds, underlined when asked. */
  function Appended(st: WriterState, content: string, undercurl: Option<Style>): WriterState {
    st.(buffer := st.buffer + content, lineWidth := st.lineWidth + |content|,
        marks := if undercurl.Some? then st.marks + [Mark(st.lineWidth, st.lineWidth + |content|, undercurl.value)] else st.marks,
        needFlush := true)
  }

  /** One cell per character, the default style, no indentation: a word that fits is appended to the line as it is. */
  lemma PlainFits(t: CharTable, st: WriterState, content: string, undercurl: Option<Style>)
    requires forall c :: t.width(c) == Some(1)
    requires Inv(st) && st.indent == 0 && content != [] && '\n' !in content && '\t' !in content
    requires st.lineWidth + |content| <= st.width
    ensures WriteSnippetF(t, st, content, PlainStyle, undercurl) == Appended(st, content, undercurl)
  {
    UnitWidth(t, content);
    SnippetFitsOnLine(t, st, content, PlainStyle, undercurl);
    PlainPiece(st, content, undercurl);
  }

  /** The default style and no indentation: a piece of one cell per character is appended to the line as it is. */
  lemma PlainPiece(st: WriterState, content: string, undercurl: Option<Style>)
    requires Inv(st) && st.indent == 0 && content != []
    ensures Inv(Appended(st, content, undercurl))
    ensures WritePieceF(st, content, |content|, PlainStyle, undercurl) == Appended(st, content, undercurl)
  {
    assert WritePieceF(st, content, |content|, PlainStyle, undercurl) == Appended(st, content, undercurl) by {
      WritePieceFields(st, content, |content|, PlainStyle, undercurl);
      var indentText := if st.needFlush then "" else Repeat(' ', st.indent);
      assert indentText == [] by {
        assert Repeat(' ', 0) == [];
      }
      assert Paint(content, PlainStyle, st.stylingEnabled) == content;
      assert st.buffer + indentText + content == st.buffer + content;
    }
    WritePieceInv(st, content, |content|, PlainStyle, undercurl);
  }

  /**
   * Exceeding the line length flushes the line: when the first character of
   * a snippet does not fit on a line that already holds something, the line
   * is flushed first, underline row and all, and the whole snippet goes to
   * the next line.
   */
  lemma OverflowFlushes(t: CharTable, st: WriterState, content: string, style: Style, undercurl: Option<Style>)
    requires Inv(st) && st.lineWidth > 0 && content != [] && content[0] != '\n'
    requires st.lineWidth + CharWidth(t, content[0]) > st.width
    ensures Inv(FlushLineF(st))
    ensures WriteSnippetF(t, st, content, style, undercurl) == WriteSnippetF(t, FlushLineF(st), content, style, undercurl)
  {
    ScanFromStep(t, content, 0, 0, st.lineWidth, st.width, true);
    assert content[..0] == [] && content[0..] == content;
    FlushLineSpec(st);
    WritePieceEmpty(st, 0, style, undercurl);
    WriteSnippetUnfold(t, st, content, style, undercurl);
  }

  /**
   * A line break in a snippet flushes the line: when the text before it fits,
   * that text is written as one piece and the line is flushed, and nothing
   * of the snippet is left.
   */
  lemma BreakFlushes(t: CharTable, st: WriterState, head: string, style: Style, undercurl: Option<Style>)
    requires Inv(st) && '\n' !in head && st.lineWidth + TextWidth(t, head) <= st.width
    ensures Inv(WritePieceF(st, head, TextWidth(t, head), style, undercurl))
    ensures WriteSnippetF(t, st, head + "\n", style, undercurl)
         == FlushLineF(WritePieceF(st, head, TextWidth(t, head), style, undercurl))
  {
    WritePieceKeepsInv(st, head, TextWidth(t, head), style, undercurl);
    BreakCut(t, head, st.lineWidth, st.width);
    WriteSnippetUnfold(t, st, head + "\n", style, undercurl);
  }

  /** A text without line breaks that fits, followed by a line break, is cut at the break, with nothing left. */
  lemma BreakCut(t: CharTable, head: string, lineWidth: nat, width: nat)
    requires '\n' !in head && lineWidth + TextWidth(t, head) <= width
    ensures CutLine(t, head + "\n", lineWidth, width, true) == Cut(head, TextWidth(t, head), true, [])
  {
    var content := head + "\n";
    assert IndexOf(content, '\n') == |head| by {
      assert content[..|head|] == head;
      assert content[|head|] == '\n';
    }
    assert content[..|head|] == head && content[|head| + 1..] == [];
    CutAtBreak(t, content, lineWidth, width);
  }

  /** One cell per character and the default style: a word that fits, then a line break, is appended and the line flushed. */
  lemma PlainLineBreak(t: CharTable, st: WriterState, head: string, undercurl: Option<Style>)
    requires forall c :: t.width(c) == Some(1)
    requires Inv(st) && st.indent == 0 && head != [] && '\n' !in head && '\t' !in head
    requires st.lineWidth + |head| <= st.width
    ensures Inv(Appended(st, head, undercurl))
    ensures WriteSnippetF(t, st, head + "\n", PlainStyle, undercurl) == FlushLineF(Appended(st, head, undercurl))
  {
    UnitWidth(t, head);
    PlainPiece(st, head, undercurl);
    BreakFlushes(t, st, head, PlainStyle, undercurl);
  }

  /** The underline row of two ordered marks, in the default style with styling on. */
  lemma TwoMarkRow(a: Mark, b: Mark)
    requires a.style == PlainStyle && b.style == PlainStyle && a.start <= a.end <= b.start <= b.end
    ensures MarksOrdered([a, b], PrevEnd([a, b]))
    ensures UndercurlRow([a, b], true)
      == Repeat(' ', a.start) + Repeat('^', a.end - a.start) + Repeat(' ', b.start - a.end) + Repeat('^', b.end - b.start)
  {
    var ms := [a, b];
    assert ms[..1] == [a] && ms[..1][..0] == [];
    OneMarkRow(a);
    var carets := Repeat('^', b.end - b.start);
    assert Paint(carets, PlainStyle, true) == carets;
    assert UndercurlRow(ms, true) == UndercurlRow([a], true) + Repeat(' ', b.start - a.end) + carets;
  }

  /** The underline row of one mark, in the default style with styling on. */
  lemma OneMarkRow(a: Mark)
    requires a.style == PlainStyle && a.start <= a.end
    ensures MarksOrdered([a], PrevEnd([a]))
    ensures UndercurlRow([a], true) == Repeat(' ', a.start) + Repeat('^', a.end - a.start)
  {
    assert [a][..0] == [];
    var carets := Repeat('^', a.end - a.start);
    assert Paint(carets, PlainStyle, true) == carets;
    assert UndercurlRow([a], true) == "" + Repeat(' ', a.start) + carets;
  }

  // ---------------------------------------------------------------------
  // The writer object

  /**
   * `WrappingWriter`: the buffer it writes into, the terminal width, whether
   * styling is on, and the state of the current line.
   */
  class WrappingWriter {
    var buffer: string
    const width: nat
    const stylingEnabled: bool
    var lineWidth: nat
    var marks: seq<Mark>
    var needFlush: bool
    var indent: nat

    function State(): WriterState
      reads this
    {
      WriterState(buffer, width, stylingEnabled, lineWidth, marks, needFlush, indent)
    }

    ghost predicate Valid()
      reads this
    {
      Inv(State())
    }

    constructor(buffer: string, width: nat, stylingEnabled: bool)
      ensures Valid() && State() == NewWriter(buffer, width, stylingEnabled)
    {
      this.buffer := buffer;
      this.width := width;
      this.stylingEnabled := stylingEnabled;
      lineWidth := 0;
      marks := [];
      needFlush := false;
      indent := 0;
    }

    /** `set_indent`: later lines start with `indent` spaces. */
    method SetIndent(indent: nat)
      requires Valid()
      modifies this
      ensures Valid() && State() == old(State()).(indent := indent)
    {
      this.indent := indent;
    }

    /** `buffer_mut().pop()`: remove the last character written, if any. */
    method PopBuffer()
      requires Valid()
      modifies this
      ensures Valid() && State() == old(State()).(buffer := DropLast(old(buffer)))
    {
      if buffer != [] {
        buffer := buffer[..|buffer| - 1];
      }
    }

    /** `write_piece`. */
    method WritePiece(content: string, width: nat, style: Style, undercurl: Option<Style>)
      requires Valid()
      modifies this
      ensures Valid() && State() == WritePieceF(old(State()), content, width, style, undercurl)
    {
      ghost var st := State();
      WritePieceKeepsInv(st, content, width, style, undercurl);
      if content == [] {
        return;
      }
      WritePieceFields(st, content, width, style, undercurl);
      StartPiece();
      PushPainted(content, style);
      PushMark(width, undercurl);
      needFlush := true;
      lineWidth := lineWidth + width;
      assert State() == WritePieceF(st, content, width, style, undercurl);
    }

    /** A piece on a new line starts with the indentation. */
    method StartPiece()
      modifies this
      ensures buffer == old(buffer) + (if old(needFlush) then "" else Repeat(' ', indent))
      ensures lineWidth == old(lineWidth) + (if old(needFlush) then 0 else indent)
      ensures marks == old(marks) && needFlush == old(needFlush) && indent == old(indent)
    {
      if !needFlush {
        PushIndent();
      } else {
        assert buffer == buffer + "";
      }
    }

    /** The mark of an underlined piece covers the piece's cells. */
    method PushMark(width: nat, undercurl: Option<Style>)
      modifies this
      ensures marks == if undercurl.Some? then old(marks) + [Mark(lineWidth, lineWidth + width, undercurl.value)] else old(marks)
      ensures buffer == old(buffer) && lineWidth == old(lineWidth) && needFlush == old(needFlush) && indent == old(indent)
    {
      if undercurl.Some? {
        marks := marks + [Mark(lineWidth, lineWidth + width, undercurl.value)];
      }
    }

    /** The indentation that starts a new line of `write_piece`. */
    method PushIndent()
      modifies this
      ensures buffer == old(buffer) + Repeat(' ', indent) && lineWidth == old(lineWidth) + indent
      ensures marks == old(marks) && needFlush == old(needFlush) && indent == old(indent)
    {
      var i := 0;
      while i < indent
        invariant 0 <= i <= indent
        invariant buffer == old(buffer) + Repeat(' ', i)
        invariant lineWidth == old(lineWidth) && marks == old(marks) && needFlush == old(needFlush) && indent == old(indent)
      {
        buffer := buffer + " ";
        i := i + 1;
      }
      lineWidth := lineWidth + indent;
    }

    /** The content of `write_piece`, between the style's codes when styling is on. */
    method PushPainted(content: string, style: Style)
      modifies this
      ensures buffer == old(buffer) + Paint(content, style, stylingEnabled)
      ensures lineWidth == old(lineWidth) && marks == old(marks) && needFlush == old(needFlush) && indent == old(indent)
    {
      if stylingEnabled {
        buffer := buffer + style.prefix;
      }
      buffer := buffer + content;
      if stylingEnabled {
        buffer := buffer + style.suffix;
        SeqAssoc(old(buffer), style.prefix, content);
        SeqAssoc(old(buffer), style.prefix + content, style.suffix);
      }
    }

    /** The underline row of `flush_line`, one mark at a time. */
    method RenderMarks(ms: seq<Mark>) returns (row: string)
      requires MarksOrdered(ms, PrevEnd(ms))
      ensures row == UndercurlRow(ms, stylingEnabled)
    {
      row := "";
      var endIndex := 0;
      for i := 0 to |ms|
        invariant MarksOrdered(ms[..i], PrevEnd(ms[..i]))
        invariant endIndex == PrevEnd(ms[..i])
        invariant row == UndercurlRow(ms[..i], stylingEnabled)
      {
        var m := ms[i];
        UndercurlRowStep(ms, i, stylingEnabled);
        var spaces := RepeatChar(' ', m.start - endIndex);
        var carets := RepeatChar('^', m.end - m.start);
        endIndex := m.end;
        row := row + spaces + Paint(carets, m.style, stylingEnabled);
      }
      assert ms[..|ms|] == ms;
    }

    /** The `for` loops of `flush_line` that push a character `n` times. */
    static method RepeatChar(c: char, n: nat) returns (r: string)
      ensures r == Repeat(c, n)
    {
      r := "";
      while |r| < n
        invariant |r| <= n && r == Repeat(c, |r|)
      {
        r := r + [c];
      }
    }

    /** `flush_line`. */
    method FlushLine()
      requires Valid()
      modifies this
      ensures Valid() && State() == FlushLineF(old(State()))
    {
      FlushLineSpec(State());
      needFlush := false;
      buffer := buffer + "\n";
      lineWidth := 0;
      var row := RenderMarks(marks);
      marks := [];
      buffer := buffer + row;
      if buffer[|buffer| - 1] != '\n' {
        buffer := buffer + "\n";
      }
    }

    /** `Drop`: flush the pending line, if there is one. */
    method Drop()
      requires Valid()
      modifies this
      ensures Valid() && State() == DropF(old(State()))
    {
      if needFlush {
        FlushLine();
      }
    }

    /**
     * The character loop of `write_snippet`: where the current line must
     * end in `content`, and the cells before that point.
     */
    method ScanLine(t: CharTable, content: string) returns (endIndex: Option<nat>, contentWidth: nat)
      ensures ScanResult(endIndex, contentWidth) == ScanFrom(t, content, 0, 0, lineWidth, width, true)
    {
      var base, limit := lineWidth, width;
      ghost var sc := ScanFrom(t, content, 0, 0, base, limit, true);
      var i := 0;
      contentWidth := 0;
      endIndex := None;
      while i < |content| && endIndex.None?
        invariant 0 <= i <= |content|
        invariant endIndex.None? ==> ScanFrom(t, content, i, contentWidth, base, limit, true) == sc
        invariant endIndex.Some? ==> ScanResult(endIndex, contentWidth) == sc
        decreases |content| - i, if endIndex.None? then 1 else 0
      {
        ScanFromStep(t, content, i, contentWidth, base, limit, true);
        if content[i] == '\n' {
          endIndex := Some(i);
        } else {
          var w := CharWidth(t, content[i]);
          if Overflows(base + contentWidth, w, limit, true) {
            endIndex := Some(i);
          } else {
            assert ScanFrom(t, content, i + 1, contentWidth + w, base, limit, true) == sc;
            contentWidth := contentWidth + w;
            i := i + 1;
          }
        }
      }
      if endIndex.None? {
        ScanFromEnd(t, content, contentWidth, base, limit, true);
      }
    }

    /** `write_snippet`, with the correction that a character is always taken on an empty line. */
    method WriteSnippet(t: CharTable, snippet: Snippet)
      requires Valid()
      modifies this
      ensures Valid() && State() == WriteSnippetF(t, old(State()), snippet.content, snippet.style, snippet.undercurl)
    {
      var content := snippet.content;
      while content != []
        invariant Valid()
        invariant WriteSnippetF(t, State(), content, snippet.style, snippet.undercurl)
               == WriteSnippetF(t, old(State()), snippet.content, snippet.style, snippet.undercurl)
        decreases |content|, if lineWidth > 0 then 1 else 0
      {
        ghost var before := State();
        SnippetStepInv(t, before, content, snippet.style, snippet.undercurl, true);
        CorrectedStepProgress(t, before, content, snippet.style, snippet.undercurl);
        var head, contentWidth, endLine, tail := CutAtLine(t, content);
        WritePiece(head, contentWidth, snippet.style, snippet.undercurl);
        content := tail;
        if endLine {
          FlushLine();
        }
      }
    }

    /**
     * One split of `write_snippet`: scan for where the current line ends,
     * take the head before it, and drop the line break that ended it.
     */
    method CutAtLine(t: CharTable, content: string) returns (head: string, contentWidth: nat, endLine: bool, tail: string)
      ensures Cut(head, contentWidth, endLine, tail) == CutLine(t, content, lineWidth, width, true)
    {
      var endIndex, w := ScanLine(t, content);
      contentWidth := w;
      endLine := endIndex.Some?;
      var k := if endLine then endIndex.value else |content|;
      head, tail := content[..k], content[k..];
      if tail != [] && tail[0] == '\n' {
        tail := tail[1..];
      }
    }

    /** `write`: plain text. */
    method Write(t: CharTable, data: string)
      requires Valid()
      modifies this
      ensures Valid() && State() == WriteSnippetF(t, old(State()), data, PlainStyle, None)
    {
      WriteSnippet(t, NewSnippet(data));
    }

    /** `write_styled`: text in a style, not underlined. */
    method WriteStyled(t: CharTable, data: string, style: Style)
      requires Valid()
      modifies this
      ensures Valid() && State() == WriteSnippetF(t, old(State()), data, style, None)
    {
      WriteSnippet(t, WithStyle(NewSnippet(data), style));
    }
  }
}
