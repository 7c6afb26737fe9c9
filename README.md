# assert2: the failure report and the macro-side helpers, in Dafny

This project models the core of `assert2`, a Rust crate whose `assert!`,
`check!` and `let_assert!` macros print a detailed report when an assertion
fails. The model has two halves.

The **renderer** turns a failed check into text:
- `diff.dfy` covers the word-level single-line diff and the line-level
  multi-line diff, with their highlighter.
- `writer.dfy` covers the wrapping writer. It breaks lines at the terminal
  width and draws `^^^^` rows under underlined text. `writer_tests.dfy`
  replays the writer's wrapping and flushing tests call by call.
- `report.dfy` covers the layout of the whole report: header, predicate
  chain, expansion, fragments and message.
- `options.dfy` covers the `ASSERT2` environment variable and the colour
  rules.

The **macro side** works on the checked expression:
- `macros.dfy` splits an `&&` chain and classifies its operands.
- `spacing.dfy` covers the whitespace arithmetic on source positions.
- `hygiene.dfy` covers the rewrite of invisible groups into parentheses.
- `placeholder.dfy` covers the single-`#` placeholder of `let_assert!`.

`check_scope.dfy` and `info.dfy` cover the two per-thread helpers:
- the check-scope counter and flag;
- the stack of `info!`/`capture!` messages.

Two shared modules support the rest:
- `common.dfy` holds styles, counting, lines and UTF-8 byte lengths.
- `tokens.dfy` holds token trees, spans and positions.

How the model is built:
- **State.** State the source mutates is kept in classes:
  - the writer (`Writer.WrappingWriter`);
  - the highlighter (`Diff.Highlighter`);
  - the placeholder replacer (`LetPlaceholder.Replacer`);
  - the check status and scope guard (`CheckScope`);
  - the message stack (`Info.InfoStack`).

  Each method is proved against a pure function of the old state. Loops
  stay loops, with their invariants.
- **Writer calls.** The report's sequence of writer calls is a list of
  operations: `Report.Op` is a snippet, a flush or a pop. Each `Write…`
  method in `report.dfy` is proved to leave the writer in the state that
  running its operation list gives. The text the operations produce, with
  styles stripped, is stated separately as lemmas.
- **Diff sinks.** The diff's `write_*` functions write into a `String`,
  while the report passes them the writer. They are modelled as producing
  styled pieces. The string sink is the concatenation of the pieces, and
  the writer sink receives one snippet per piece.
- **Foreign functions.** Functions the core only calls are parameters:
  - the Unicode tables (`Common.CharTable`);
  - the `diff` crate's longest-common-subsequence (a `Differ`, required to
    return an edit script that projects back to its inputs);
  - the rendering of tokens into source text (`render` in `Macros`).
- **Integers.** Rust's `usize`/`isize` arithmetic is written out where the
  source relies on it:
  - the wrapping `isize → usize` cast in `adjust_indent`;
  - `saturating_sub` and `checked_sub` in the span arithmetic;
  - the subtraction in `close_check_scope`, which needs a positive counter.

Where the two disagree, the model follows the code rather than the crate's
documentation:
- **`auto` token.** The documented `ASSERT2` token `auto` (src/lib.rs:182)
  is ignored by `from_env`, like any unknown token.
  `Options.UnknownTokensIgnored` states this.
- **Glue type.** `split_predicates` stores the result of
  `operator_with_whitespace` as the glue string. That result is an
  `OperatorWithSpacing`, not a `String`. The model uses its `Display` text
  (`Spacing.OperatorText`), which is what the glue is evidently meant to be.
- **Fixed separator.** `print_assertion` separates predicates with a fixed
  `" && "` and does not use the glue the macro side computes. The model does
  the same.

## Model

| member | source | states |
|---|---|---|
| Diff.PushRun | src/__assert2_impl/print/diff.rs:233-247 | definition of `Highlighter::push` on the runs: extend the last run when its flag matches, else start a new one; stated by `Diff.PushRunWellFormed`, `Diff.PushRunMask` and `Diff.PushRunBytes` |
| Diff.WholeLinePlain | src/__assert2_impl/print/diff.rs:250-253 | definition of the plain-line test `data.len() - total_highlighted < div_ceil(total_highlighted, 2)`; stated by `Diff.HighlightedPiecesSpec` and `Diff.ByteCountDecides` |
| Diff.HighlightedPieces | src/__assert2_impl/print/diff.rs:250-264 | definition of what `write_highlighted` writes; stated by `Diff.HighlightedPiecesSpec`, and `Diff.Highlighter.WriteHighlighted` returns it |
| Diff.IsBreakPoint | src/__assert2_impl/print/diff.rs:175-185 | definition of `is_break_point`: after a letter, at a non-letter or where a lower-case letter meets a non-lower-case one; after a digit, at a non-digit; after whitespace, at non-whitespace; after any other character, always; stated by `Diff.Words` and `Diff.WordsBreaks` |
| Diff.SideRuns | src/__assert2_impl/print/diff.rs:131-148 | definition of the runs one side's highlighter holds after the edit loop; stated by `Diff.SideRunsCover`, `Diff.SideRunsMask` and `Diff.SideCovers`, and `Diff.PushEdits` returns it |
| Diff.Regroup | src/__assert2_impl/print/diff.rs:61-108 | definition of `LineDiff::from_diff`'s output; stated by `Diff.RegroupSides`, `Diff.RegroupLast` and `Diff.RegroupSnoc`, and `Diff.FromDiff` returns it |
| Diff.EntryPieces | src/__assert2_impl/print/diff.rs:23-43 | definition of one entry's pieces in `write_interleaved`; stated by `Diff.EntryPiecesPlain` and `Diff.DifferentPiecesPlain` |
| Diff.InterleavedPieces | src/__assert2_impl/print/diff.rs:22-46 | definition of the pieces of all entries in order; stated by `Diff.InterleavedPiecesPlain` and `Diff.InterleavedText` |
| Diff.DivCeil | src/__assert2_impl/print/diff.rs:267-279 | for b > 0 the result q is a/b rounded up: q·b ≥ a and (q−1)·b < a |
| Diff.DivCeilIsLeast | src/__assert2_impl/print/diff.rs:267-279 | every q with q·b ≥ a is at least div_ceil(a, b), so the result is the least such q |
| Diff.DivCeilExamples | src/__assert2_impl/print/diff.rs:281-296 | the values the unit test expects (0/7, 1/2, 21/7, 22/7, 29/7 and the others) |
| Diff.PushRunWellFormed | src/__assert2_impl/print/diff.rs:233-247 | after a push, the ranges are still contiguous from 0 with strictly alternating flags; the covered length grows by `len`; the same flag as the last range only extends it |
| Diff.PushRunMask | src/__assert2_impl/print/diff.rs:233-247 | the per-position highlight mask grows by `len` copies of the pushed flag |
| Diff.MaskSpec | src/__assert2_impl/print/diff.rs:237-246 | the per-position mask is as long as the ranges reach, and the highlighted ranges' length is its number of highlighted positions, at most the covered length |
| Diff.PushRunBytes | src/__assert2_impl/print/diff.rs:233-247 | pushing a word onto ranges that cover a text leaves well-formed ranges covering the text followed by the word, and their highlighted UTF-8 bytes grow by the word's bytes exactly when it is pushed highlighted |
| Diff.PushRunCovers | src/__assert2_impl/print/diff.rs:233-247 | a push keeps the highlighter invariant: ranges covering the pushed text, with `total_highlighted` the UTF-8 bytes of its highlighted part |
| Diff.HighlightedBytesBound | src/__assert2_impl/print/diff.rs:250-251 | the highlighted bytes are at most the bytes the ranges cover, so `data.len() - total_highlighted` cannot underflow |
| Diff.Highlighter.constructor | src/__assert2_impl/print/diff.rs:221-230 | a new highlighter has no ranges, no pushed text and no highlighted bytes |
| Diff.Highlighter.Push | src/__assert2_impl/print/diff.rs:233-247 | the ranges grow over the word by the run-length rule, the per-position mask by the word's length in copies of the flag, and `total_highlighted` by the word's UTF-8 bytes exactly when it is highlighted; the ranges keep covering the pushed text and the total stays its highlighted byte count |
| Diff.Highlighter.ExtendRuns | src/__assert2_impl/print/diff.rs:237-246 | the ranges grow by the run-length rule (the last run is lengthened when the flag matches, otherwise a new run starts where it ends) and the total is untouched |
| Diff.Highlighter.WriteHighlighted | src/__assert2_impl/print/diff.rs:250-264 | on a line that starts with the pushed text, the pieces are the highlighted rendering, whose plain-or-ranges choice compares the line's unhighlighted UTF-8 bytes with half its highlighted bytes rounded up |
| Diff.Highlighter.WriteRuns | src/__assert2_impl/print/diff.rs:255-262 | the loop yields, run by run, the run's slice of the line in the highlight or the normal style; together the slices spell out the covered prefix |
| Diff.RunPieces | src/__assert2_impl/print/diff.rs:255-262 | one piece per range in order, each the range's slice of the line in its range's style; unstyled they spell the covered prefix of the line |
| Diff.HighlightedPiecesSpec | src/__assert2_impl/print/diff.rs:250-264 | the whole line is written plain iff its unhighlighted UTF-8 bytes are fewer than half its highlighted bytes rounded up, else range by range; unstyled, both branches give back the line when the ranges cover it |
| Diff.ByteCountDecides | src/__assert2_impl/print/diff.rs:250-253 | the choice counts bytes: with `ééé` highlighted in `ééé b` (6 of 8 bytes) the line goes out plain, although the character counts (3 of 5) would not choose that |
| Diff.Words | src/__assert2_impl/print/diff.rs:173-198 | the words are all non-empty and none contains a break point |
| Diff.WordsConcat | src/__assert2_impl/print/diff.rs:187-197 | the words concatenate to exactly the input |
| Diff.WordsBreaks | src/__assert2_impl/print/diff.rs:175-191 | between each two neighbouring words there is a break point by the character-class rule |
| Diff.WordsSmall | src/__assert2_impl/print/diff.rs:187-197 | the empty input has no words, and one character is one word |
| Diff.SplitWords | src/__assert2_impl/print/diff.rs:173-198 | the loop over the shrinking input returns the word list |
| Diff.SideRunsCover | src/__assert2_impl/print/diff.rs:128-148 | for an edit script that projects to the two word lists, each side's ranges are well formed and cover exactly that side's text length |
| Diff.SideRunsMask | src/__assert2_impl/print/diff.rs:131-148 | only one-sided edits are highlighted: Left and Right items are highlighted on their side, Both items never are |
| Diff.SideCovers | src/__assert2_impl/print/diff.rs:134-147 | each side's runs cover that side's text, and their highlighted bytes are the UTF-8 bytes of the words only on that side |
| Diff.PushOne | src/__assert2_impl/print/diff.rs:135-146 | one edit goes onto its side, or both: each highlighter then holds the runs, text and byte total of the script extended by that edit |
| Diff.PushEdits | src/__assert2_impl/print/diff.rs:131-148 | the loop over the edit script leaves both highlighters with the side runs of the script, each side's text, and the UTF-8 bytes of that side's one-sided words as totals |
| Diff.SingleLineDiff.constructor | src/__assert2_impl/print/diff.rs:128-156 | the two highlighters hold the side runs of the word-level edit script of the two lines, built over exactly those lines, with the one-sided words' UTF-8 bytes as totals |
| Diff.SingleLineDiff.WriteLeft | src/__assert2_impl/print/diff.rs:161-166 | the left line, highlighted by the left runs with the byte-count choice of `write_highlighted`; unstyled it is the left line |
| Diff.SingleLineDiff.WriteRight | src/__assert2_impl/print/diff.rs:168-171 | the right line, highlighted by the right runs with the byte-count choice of `write_highlighted`; unstyled it is the right line |
| Diff.RegroupLast | src/__assert2_impl/print/diff.rs:61-108 | after each item the last entry is what the item makes it: Left gives LeftOnly, Both gives Equal, and Right gives Different only directly after a single unpaired LeftOnly |
| Diff.RegroupSnoc | src/__assert2_impl/print/diff.rs:65-104 | appending one item to the script changes the regrouped output exactly as one pass of the loop does, including splitting a Different apart at a second Right |
| Diff.FromDiff | src/__assert2_impl/print/diff.rs:61-108 | the loop with its `seen_left` counter returns the regrouping of the script |
| Diff.PushRight | src/__assert2_impl/print/diff.rs:71-98 | a right-only line turns a lone left line into a pair, splits an earlier pair into three single lines, or is appended, as the regrouping rule says |
| Diff.RegroupSides | src/__assert2_impl/print/diff.rs:61-108 | the left lines of the output (LeftOnly, Different's left, Equal) are the script's Left/Both lines in order, and likewise on the right |
| Diff.RegroupExamples | src/__assert2_impl/print/diff.rs:74-90 | a removed and an added line pair into Different, and a second added line splits them into LeftOnly, RightOnly, RightOnly |
| Diff.WordDiffPieces | src/__assert2_impl/print/diff.rs:31-37 | the word diff of one side, unstyled, is that side's line |
| Diff.InterleavedLinesCount | src/__assert2_impl/print/diff.rs:22-46 | one output line per entry, and two for Different |
| Diff.DifferentPiecesPlain | src/__assert2_impl/print/diff.rs:31-38 | a Different entry prints, unstyled, `< left` and `> right` on two lines |
| Diff.EntryPiecesPlain | src/__assert2_impl/print/diff.rs:23-42 | each entry prints, unstyled, its lines with the prefixes `< `, `> ` or two spaces, each ended by a line break |
| Diff.InterleavedPiecesPlain | src/__assert2_impl/print/diff.rs:22-43 | all entries together print, unstyled, every interleaved line ended by a line break |
| Diff.MultiLineDiff.constructor | src/__assert2_impl/print/diff.rs:14-19 | the entries are the regrouping of the line-level edit script of the two texts |
| Diff.MultiLineDiff.WriteInterleaved | src/__assert2_impl/print/diff.rs:22-46 | the buffer gets every entry's pieces and then loses its final character |
| Diff.WriteEntry | src/__assert2_impl/print/diff.rs:24-41 | the pieces written for one entry are that entry's prefixed, highlighted lines |
| Diff.InterleavedText | src/__assert2_impl/print/diff.rs:22-46 | unstyled, the output is the interleaved lines joined by line breaks, so the final line break is dropped |
| Writer.CharWidth | src/__assert2_impl/print/writer.rs:62-65 | definition of a character's cells: a tab is 4, otherwise the Unicode width or 0; used by `Writer.ScanFrom` and `Writer.CutLine` |
| Writer.Overflows | src/__assert2_impl/print/writer.rs:66-69 | definition of the break test: the character does not fit after the cells used, and (corrected only) the line is not empty; stated by `Writer.ScanFrom` and `Writer.StepAgrees` |
| Writer.WritePieceF | src/__assert2_impl/print/writer.rs:85-130 | definition of `write_piece` on the writer's state; stated by `Writer.WritePieceEmpty`, `Writer.WritePieceInv` and `Writer.IndentOnlyAtLineStart` |
| Writer.UndercurlRow | src/__assert2_impl/print/writer.rs:137-155 | definition of the caret row of `flush_line`; stated by `Writer.UndercurlRowExample`, `Writer.OneMarkRow` and `Writer.TwoMarkRow` |
| Writer.FlushLineF | src/__assert2_impl/print/writer.rs:132-159 | definition of `flush_line` on the writer's state; stated by `Writer.FlushLineSpec` and `Writer.FlushWithoutMarks` |
| Writer.DropF | src/__assert2_impl/print/writer.rs:162-168 | definition of `Drop` on the writer's state; stated by `Writer.DropAfterFlush` |
| Writer.SnippetStep | src/__assert2_impl/print/writer.rs:53-82 | definition of one pass of `write_snippet`'s outer loop, as written or corrected; stated by `Writer.SnippetStepInv`, `Writer.StepAgrees`, `Writer.StuckStep` and `Writer.CorrectedStepProgress` |
| Writer.WriteSnippetF | src/__assert2_impl/print/writer.rs:48-83 | definition of `write_snippet` with the corrected pass; stated by `Writer.WriteSnippetInv`, `Writer.WriteSnippetText` and `Writer.WriteSnippetWithinWidth` |
| Writer.RunAsWritten | src/__assert2_impl/print/writer.rs:53-82 | definition of n passes of the outer loop as written; stated by `Writer.NeverFinishes` |
| Writer.NewSnippet | src/__assert2_impl/print/writer.rs:177-183 | a new snippet has the content, the plain style and no underline |
| Writer.WithStyle | src/__assert2_impl/print/writer.rs:185-188 | only the style changes |
| Writer.WithUndercurl | src/__assert2_impl/print/writer.rs:190-193 | only the underline changes, to the given style |
| Writer.NewWriter | src/__assert2_impl/print/writer.rs:16-26 | a new writer keeps the buffer, has an empty unmarked line, nothing to flush and no indentation, and satisfies the writer invariant |
| Writer.WritePieceEmpty | src/__assert2_impl/print/writer.rs:85-89 | writing an empty piece changes nothing |
| Writer.WritePieceInv | src/__assert2_impl/print/writer.rs:85-130 | a non-empty piece keeps the invariant and sets `need_flush`; the line width grows by the piece width, plus the indent at a line start; one mark is added iff the piece is underlined |
| Writer.IndentOnlyAtLineStart | src/__assert2_impl/print/writer.rs:101-107 | mid-line, changing the indent does not affect the piece written: indentation is emitted only at the start of a line |
| Writer.FlushLineSpec | src/__assert2_impl/print/writer.rs:132-159 | a flush keeps everything written before, leaves the buffer ending in a line break, and empties the line, its marks and `need_flush` |
| Writer.FlushWithoutMarks | src/__assert2_impl/print/writer.rs:132-159 | without marks a flush appends exactly one line break |
| Writer.UndercurlRowExample | src/__assert2_impl/print/writer.rs:137-155 | marks at cells 2..6 and 8..12 give the row `  ^^^^  ^^^^` |
| Writer.DropAfterFlush | src/__assert2_impl/print/writer.rs:162-168 | dropping flushes iff there is unflushed content, so a flush just before is not repeated |
| Writer.ScanFrom | src/__assert2_impl/print/writer.rs:54-71 | the scan stops at the first line break or the first character that does not fit; the text before it has no line break and its width is the reported width |
| Writer.CutLine | src/__assert2_impl/print/writer.rs:54-76 | a pass splits the content into a head without line breaks and the rest, consuming a line break that ends the head; an empty cut head means a line break or a character that does not fit comes first |
| Writer.SnippetStepInv | src/__assert2_impl/print/writer.rs:53-82 | one pass of the outer loop keeps the invariant and leaves a suffix of the content |
| Writer.CorrectedStepProgress | src/__assert2_impl/print/writer.rs:53-82 | the corrected pass always consumes a character or ends a non-empty line, so it terminates |
| Writer.WriteSnippetInv | src/__assert2_impl/print/writer.rs:48-83 | writing a snippet keeps the invariant, the width, the indent and the styling flag |
| Writer.StepAgrees | src/__assert2_impl/print/writer.rs:53-82 | when every character fits in the width, the corrected pass is the pass as written |
| Writer.StuckStep | src/__assert2_impl/print/writer.rs:53-82 | as written, on an empty line whose next character is wider than the width, a pass consumes nothing and only appends a line break |
| Writer.NeverFinishes | src/__assert2_impl/print/writer.rs:53-82 | as written, after any number n of passes on such content, the content is all still there and n line breaks have been added |
| Writer.StuckExample | src/__assert2_impl/print/writer.rs:61-70 | one pass as written at width 0 on a tab leaves the tab unconsumed and only appends a line break; that this repeats forever is `Writer.NeverFinishes` |
| Writer.WriteSnippetWithinWidth | src/__assert2_impl/print/writer.rs:56-70 | with no indentation and every character fitting, writing never makes the line wider than the width |
| Writer.SnippetFitsOnLine | src/__assert2_impl/print/writer.rs:53-82 | a snippet without line breaks that fits on the line is written as one piece |
| Writer.StrippedHello | src/__assert2_impl/print/writer.rs:220-232 | the first write of the styles-stripped test |
| Writer.StrippedSpace | src/__assert2_impl/print/writer.rs:220-232 | the second write of that test |
| Writer.StrippedDear | src/__assert2_impl/print/writer.rs:220-232 | the underlined write, which records the mark 6..10 |
| Writer.StrippedBang | src/__assert2_impl/print/writer.rs:220-232 | the last write, `!`, continues the line to `Hello dear!` and keeps the mark |
| Writer.StrippedDrop | src/__assert2_impl/print/writer.rs:220-232 | the drop flushes the line, giving `Hello dear!` over `      ^^^^` |
| Writer.CutAtBreak | src/__assert2_impl/print/writer.rs:54-76 | when the text before the first line break fits, a pass cuts there: the head is that text with its width, the line ends iff a break was found, and the rest is the text after the break |
| Writer.SnippetStepText | src/__assert2_impl/print/writer.rs:53-82 | without styling, indentation or marks, a pass whose first line fits appends that line bare; at a line break it also appends one line break and starts an empty line, with no underline row |
| Writer.BarePiece | src/__assert2_impl/print/writer.rs:85-130 | without styling, indentation or marks, a piece appends exactly its text, and the line grows by its width only when it is not empty |
| Writer.WriteSnippetText | src/__assert2_impl/print/writer.rs:48-83 | without styling, indentation or underlines, a snippet whose lines all fit is written as exactly its text: nothing wraps, no underline row appears, and the line width is that of its last line |
| Writer.PlainPiece | src/__assert2_impl/print/writer.rs:85-130 | with the default style and no indentation, a non-empty piece is appended as it is at the current line width, with a mark over its cells iff it is underlined |
| Writer.PlainFits | src/__assert2_impl/print/writer.rs:48-83 | on a terminal of one cell per character, a word without line breaks or tabs that fits on the line is appended to it in one piece |
| Writer.OverflowFlushes | src/__assert2_impl/print/writer.rs:64-80 | when the first character of a snippet does not fit on a started line, the line is flushed first and the whole snippet is then written from the start of the next line |
| Writer.BreakFlushes | src/__assert2_impl/print/writer.rs:54-80 | a snippet made of a head that fits and a line break writes the head as one piece and then flushes the line, leaving nothing |
| Writer.BreakCut | src/__assert2_impl/print/writer.rs:54-76 | such a snippet is cut into its head, the head's width, an ended line and an empty rest |
| Writer.PlainLineBreak | src/__assert2_impl/print/writer.rs:48-83 | on a terminal of one cell per character, a word and a line break append the word to the line and then flush it |
| Writer.TwoMarkRow | src/__assert2_impl/print/writer.rs:137-155 | two ordered marks in the default style give spaces up to the first, its carets, spaces up to the second and its carets |
| Writer.OneMarkRow | src/__assert2_impl/print/writer.rs:137-155 | one mark in the default style gives spaces up to its start and then its carets |
| Writer.WrappingWriter.constructor | src/__assert2_impl/print/writer.rs:16-26 | the state is that of a new writer |
| Writer.WrappingWriter.SetIndent | src/__assert2_impl/print/writer.rs:44-46 | only the indent changes |
| Writer.WrappingWriter.PopBuffer | src/__assert2_impl/print/mod.rs:237-238 | the buffer loses its last character and nothing else changes |
| Writer.WrappingWriter.WritePiece | src/__assert2_impl/print/writer.rs:85-130 | the new state is the piece written into the old state |
| Writer.WrappingWriter.StartPiece | src/__assert2_impl/print/writer.rs:101-107 | at the start of a line the indentation goes into the buffer and counts towards the line width; on a started line nothing changes |
| Writer.WrappingWriter.PushIndent | src/__assert2_impl/print/writer.rs:103-106 | the buffer gains `indent` spaces and the line width grows by the same amount |
| Writer.WrappingWriter.PushPainted | src/__assert2_impl/print/writer.rs:109-120 | the buffer gains the content, wrapped in the style's prefix and suffix only when styling is on |
| Writer.WrappingWriter.PushMark | src/__assert2_impl/print/writer.rs:122-125 | an underline request adds a mark over the piece's cells, starting at the current line width; without one the marks stay |
| Writer.WrappingWriter.RenderMarks | src/__assert2_impl/print/writer.rs:137-155 | the loop builds the caret row: the gap spaces, then the carets for each mark, styled only when styling is on |
| Writer.WrappingWriter.RepeatChar | src/__assert2_impl/print/writer.rs:143-151 | the push loop yields exactly `n` copies of the character |
| Writer.WrappingWriter.FlushLine | src/__assert2_impl/print/writer.rs:132-159 | the new state is the old state flushed |
| Writer.WrappingWriter.Drop | src/__assert2_impl/print/writer.rs:162-168 | the new state is the old state flushed when it had unflushed content |
| Writer.WrappingWriter.ScanLine | src/__assert2_impl/print/writer.rs:54-71 | the inner character loop returns the scan of the content from the current line width |
| Writer.WrappingWriter.WriteSnippet | src/__assert2_impl/print/writer.rs:48-83 | the new state is the snippet written by the corrected loop |
| Writer.WrappingWriter.CutAtLine | src/__assert2_impl/print/writer.rs:53-76 | the scan and the split give the head, its width, whether the line ended and the rest, as the corrected line-cutting rule defines them |
| Writer.WrappingWriter.Write | src/__assert2_impl/print/writer.rs:36-38 | plain text is written as a plain snippet |
| Writer.WrappingWriter.WriteStyled | src/__assert2_impl/print/writer.rs:40-42 | styled text is written as a snippet in that style |
| WriterTests.FreshWriter | src/__assert2_impl/print/writer.rs:16-26 | the tests' writer, 20 cells wide with styling on, starts with an empty buffer, an empty line and nothing to flush |
| WriterTests.Four1 | src/__assert2_impl/print/writer.rs:273 | `four` on the fresh writer fills cells 0..4 and leaves the line pending |
| WriterTests.Four2 | src/__assert2_impl/print/writer.rs:274 | ` ` continues the line to 5 cells |
| WriterTests.Four3 | src/__assert2_impl/print/writer.rs:275 | the underlined `four` continues the line to `four four` and records the mark 5..9 |
| WriterTests.Four4 | src/__assert2_impl/print/writer.rs:276 | ` ` continues the line to 10 cells |
| WriterTests.Wrap5 | src/__assert2_impl/print/writer.rs:277 | `four` continues the line to 14 cells |
| WriterTests.Wrap6 | src/__assert2_impl/print/writer.rs:278 | ` ` continues the line to 15 cells |
| WriterTests.Wrap7 | src/__assert2_impl/print/writer.rs:279 | the underlined `four` continues the line to 19 cells and records the mark 15..19 |
| WriterTests.Wrap8 | src/__assert2_impl/print/writer.rs:280 | ` ` fills the line exactly: `four four four four ` takes all 20 cells |
| WriterTests.Wrap8Flush | src/__assert2_impl/print/writer.rs:281-286 | flushing that line writes it, a line break, the row `     ^^^^      ^^^^` and a line break |
| WriterTests.Wrap9Start | src/__assert2_impl/print/writer.rs:281 | on the flushed writer the underlined `four` starts the next line with the mark 0..4 |
| WriterTests.Wrap9 | src/__assert2_impl/print/writer.rs:281 | the underlined `four` does not fit on the full line, so the line is flushed before the word starts the next line |
| WriterTests.Wrap10 | src/__assert2_impl/print/writer.rs:282 | `!` continues the new line to `four!` |
| WriterTests.WrapDrop | src/__assert2_impl/print/writer.rs:283-289 | dropping the writer flushes `four!` over `^^^^`, so the buffer is the test's expected four lines |
| WriterTests.Break5Flush | src/__assert2_impl/print/writer.rs:300-308 | flushing `four four four` with the mark 5..9 writes it over `     ^^^^` |
| WriterTests.Break5 | src/__assert2_impl/print/writer.rs:300 | `four` and a line break complete the line `four four four` and flush it with its row, leaving an empty line |
| WriterTests.Break6 | src/__assert2_impl/print/writer.rs:301 | ` ` starts the next line |
| WriterTests.Break7 | src/__assert2_impl/print/writer.rs:302 | the underlined `four` continues the line to 5 cells and records the mark 1..5 |
| WriterTests.Break8 | src/__assert2_impl/print/writer.rs:303 | ` ` continues the line to 6 cells |
| WriterTests.Break9 | src/__assert2_impl/print/writer.rs:304 | the underlined `four` continues the line to 10 cells and records the mark 6..10 |
| WriterTests.Break10 | src/__assert2_impl/print/writer.rs:305 | `!` continues the line to ` four four!` |
| WriterTests.BreakDrop | src/__assert2_impl/print/writer.rs:306-312 | dropping the writer flushes ` four four!` over ` ^^^^ ^^^^`, so the buffer is the test's expected four lines |
| WriterTests.Flushed1 | src/__assert2_impl/print/writer.rs:255 | `Hello` fills cells 0..5 |
| WriterTests.Flushed2 | src/__assert2_impl/print/writer.rs:256 | ` ` continues the line to 6 cells |
| WriterTests.Flushed3 | src/__assert2_impl/print/writer.rs:257 | the underlined `dear` continues the line to `Hello dear` and records the mark 6..10 |
| WriterTests.Flushed4 | src/__assert2_impl/print/writer.rs:258 | ` ` continues the line to 11 cells |
| WriterTests.Flushed5 | src/__assert2_impl/print/writer.rs:259 | the underlined `world` continues the line to 16 cells and records the mark 11..16 |
| WriterTests.Flushed6 | src/__assert2_impl/print/writer.rs:260 | `!` continues the line to `Hello dear world!` |
| WriterTests.FlushedLine | src/__assert2_impl/print/writer.rs:261 | the explicit flush writes `Hello dear world!` over `      ^^^^ ^^^^^` and leaves nothing to flush |
| WriterTests.FlushedDrop | src/__assert2_impl/print/writer.rs:262-266 | the drop after that flush adds nothing: the buffer is the expected two lines, the same as dropping without the explicit flush |
| Options.ForcePretty | src/__assert2_impl/print/options.rs:107-109 | definition of `force_pretty`: the format is Pretty; used by `Options.UseCompact`, stated by `Options.ExpandAllModes` |
| Options.ForceCompact | src/__assert2_impl/print/options.rs:112-114 | definition of `force_compact`: the format is Compact; used by `Options.UseCompact`, stated by `Options.ExpandAllModes` |
| Options.CompactGood | src/__assert2_impl/print/options.rs:128-140 | definition of `is_compact_good`: every text is at most 40 UTF-8 bytes and has no line break; stated by `Options.IsCompactGood` and `Options.CompactGoodBound` |
| Options.UseCompact | src/__assert2_impl/print/options.rs:117-125 | definition of `expand_all`'s choice of the compact forms; stated by `Options.ExpandAll` and `Options.ExpandAllModes` |
| Options.IsTrue | src/__assert2_impl/print/options.rs:156-159 | definition of `is_true`; stated by `Options.TrueFalseExclusive` |
| Options.IsFalse | src/__assert2_impl/print/options.rs:151-154 | definition of `is_false`; stated by `Options.TrueFalseExclusive` |
| Options.ShouldColor | src/__assert2_impl/print/options.rs:145-172 | definition of `should_color`; stated by `Options.ShouldColorRule` |
| Options.Trim | src/__assert2_impl/print/options.rs:73 | definition of `str::trim` on one token; stated by `Options.TrimStart`, `Options.TrimEnd` and `Options.TrimAll` |
| Options.ApplyToken | src/__assert2_impl/print/options.rs:74-82 | definition of one pass of `from_env`'s token loop; stated by `Options.TokensDistinct` and `Options.UnknownTokensIgnored`, and `Options.ReadToken` returns it |
| Options.FromEnvF | src/__assert2_impl/print/options.rs:58-86 | definition of `from_env`; stated by `Options.LastTokenWins` and `Options.EmptyVariable`, and `Options.FromEnv` returns it |
| Options.IsCompactGood | src/__assert2_impl/print/options.rs:128-140 | the early-return loop answers whether every string is at most 40 UTF-8 bytes long and has no line break |
| Options.CompactGoodBound | src/__assert2_impl/print/options.rs:128-140 | the empty list is good, 40 bytes is good, 41 bytes is not, and a line break is not |
| Options.ExpandAll | src/__assert2_impl/print/options.rs:117-125 | the compact forms when the mode is not Pretty and (Compact or the compact forms are good), else the pretty forms |
| Options.ExpandAllModes | src/__assert2_impl/print/options.rs:107-125 | Pretty always gives the pretty forms, Compact always the compact forms, and Auto decides by `is_compact_good` |
| Options.TrueFalseExclusive | src/__assert2_impl/print/options.rs:151-159 | no value is both true-ish and false-ish; `2` and the empty value are neither; matching ignores ASCII case |
| Options.ShouldColorRule | src/__assert2_impl/print/options.rs:145-172 | colour is on iff NO_COLOR is not true-ish and CLICOLOR is not false-ish and (CLICOLOR_FORCE is true-ish or stderr is a terminal); with none set the terminal decides |
| Options.SplitOn | src/__assert2_impl/print/options.rs:72 | splitting gives at least one part, and no part contains the separator |
| Options.SplitJoin | src/__assert2_impl/print/options.rs:72 | joining the parts with the separator gives back the value |
| Options.SplitCount | src/__assert2_impl/print/options.rs:72 | there is one part more than there are separators |
| Options.SplitTwo | src/__assert2_impl/print/options.rs:72 | a value with exactly one separator splits into the text before it and the text after it |
| Options.TrimStart | src/__assert2_impl/print/options.rs:73 | the result is a suffix that does not start with whitespace, and only whitespace was removed |
| Options.TrimEnd | src/__assert2_impl/print/options.rs:73 | the result is a prefix that does not end with whitespace, and only whitespace was removed |
| Options.TrimAll | src/__assert2_impl/print/options.rs:72-73 | every token is trimmed, in order |
| Options.FromEnv | src/__assert2_impl/print/options.rs:58-86 | the token loop returns the defaults updated by every token in order |
| Options.ReadToken | src/__assert2_impl/print/options.rs:74-82 | one token sets the format for `pretty` or `compact` and the colour for `color` or `no-color`, ignoring ASCII case; any other token changes nothing |
| Options.TokensDistinct | src/__assert2_impl/print/options.rs:74-81 | no token matches both `pretty` and `compact`, or both `color` and `no-color` |
| Options.LastTokenWins | src/__assert2_impl/print/options.rs:71-83 | the format is set by the last format token and the colour by the last colour token; without one the default stays |
| Options.UnknownTokensIgnored | src/__assert2_impl/print/options.rs:71-83 | tokens that are neither format nor colour tokens (including `auto`) change nothing |
| Options.EmptyVariable | src/__assert2_impl/print/options.rs:59-69 | an absent or empty variable gives the Auto format and the colour rule's answer |
| Options.SplitExample | src/__assert2_impl/print/options.rs:72 | `color, Pretty` splits into `color` and ` Pretty` |
| Options.TrimExample | src/__assert2_impl/print/options.rs:73 | trimming gives `color` and `Pretty` |
| Options.ColorPrettyExample | src/__assert2_impl/print/options.rs:71-83 | the tokens `color` and `Pretty` give colour on and the pretty format |
| Report.Apply | src/__assert2_impl/print/writer.rs:32-159 | definition of the writer state after one call (`write_snippet`, `flush_line` or the buffer `pop`); `Report.RunOpsText` ties it to the call's text |
| Report.RunOps | src/__assert2_impl/print/writer.rs:32-159 | definition of the writer state after a list of calls; stated by `Report.RunOpsText`, and the writing methods of the report end in it |
| Report.Render | src/__assert2_impl/print/writer.rs:36-42 | definition of the text one call adds when nothing wraps and nothing is underlined; `Report.RunOpsText` shows it is what the writer writes in that case |
| Report.PredicateSnippets | src/__assert2_impl/print/mod.rs:144-176 | definition of the snippets `Predicate::write` writes; stated by `Report.PredicateSnippetsSpec` and `Report.FailedPredicateLast` |
| Report.PredicateText | src/__assert2_impl/print/mod.rs:158-175 | definition of a predicate's source text; stated by `Report.PredicateSnippetsSpec` |
| Report.HeaderOps | src/__assert2_impl/print/mod.rs:116-123 | definition of the header calls; stated by `Report.HeaderText` |
| Report.ChainOps | src/__assert2_impl/print/mod.rs:126-131 | definition of the predicate-chain calls; stated by `Report.ChainText` and `Report.ChainBeforeFailedDimmed` |
| Report.TailOps | src/__assert2_impl/print/mod.rs:134-139 | definition of the tail calls; stated by `Report.TailText` |
| Report.AssertionOps | src/__assert2_impl/print/mod.rs:115-140 | definition of `print_assertion`'s calls; stated by `Report.AssertionText` |
| Report.CompactOps | src/__assert2_impl/print/mod.rs:191-212 | definition of the compact form's calls; stated by `Report.CompactText` and `Report.CompactNote` |
| Report.PrettyOps | src/__assert2_impl/print/mod.rs:215-220 | definition of the pretty form's calls; stated by `Report.PrettyText` |
| Report.BinaryOps | src/__assert2_impl/print/mod.rs:188-221 | definition of `write_binary`'s calls; stated by `Report.CompactChoice`, and `Report.WriteBinary` ends in them |
| Report.BoolOps | src/__assert2_impl/print/mod.rs:223-227 | definition of `write_bool`'s calls; stated by `Report.BoolText` |
| Report.LineOps | src/__assert2_impl/print/mod.rs:232-236 | definition of the line loop of `write_let`; stated by `Report.LineOpsText` |
| Report.LetOps | src/__assert2_impl/print/mod.rs:229-239 | definition of `write_let`'s calls; stated by `Report.LetText` and `Report.LetValueChoice` |
| Report.ExpansionOps | src/__assert2_impl/print/mod.rs:180-186 | definition of `Expansion::write`'s calls; `Report.WriteExpansion` ends in them |
| Report.FragmentOps | src/__assert2_impl/print/mod.rs:93-100 | definition of one fragment line's calls; stated by `Report.FragmentText` |
| Report.FragmentsOps | src/__assert2_impl/print/mod.rs:90-101 | definition of the `with:` block's calls; stated by `Report.FragmentLinesText` |
| Report.MessageOps | src/__assert2_impl/print/mod.rs:104-108 | definition of the custom message's calls; stated by `Report.MessageText` |
| Report.ReportOps | src/__assert2_impl/print/mod.rs:89-109 | definition of all of `print`'s writer calls; stated by `Report.ReportEnds`, and `Report.WriteReport` ends in them |
| Report.ReportText | src/__assert2_impl/print/mod.rs:84-111 | definition of the buffer `print` hands to stderr; stated by `Report.ReportEnds`, and `Report.Print` returns it |
| Report.DecimalText | src/__assert2_impl/print/mod.rs:119 | the line and column are printed as ASCII digits without a leading zero |
| Report.DecimalRoundTrip | src/__assert2_impl/print/mod.rs:119 | reading the printed digits back gives the number |
| Report.MakeSnippet | src/__assert2_impl/print/mod.rs:145-156 | the failed predicate keeps its style and is underlined only when asked; every other predicate is dimmed and not underlined |
| Report.PredicateSnippetsSpec | src/__assert2_impl/print/mod.rs:158-175 | a predicate prints `left op right`, `let pattern = expression` or the expression, and every snippet follows the style rule |
| Report.WritePredicate | src/__assert2_impl/print/mod.rs:144-176 | the writer receives the predicate's snippets in order |
| Report.WriteSnippets | src/__assert2_impl/print/mod.rs:158-175 | the writer state is the old state after every snippet has been written, in order |
| Report.RunOpsText | src/__assert2_impl/print/writer.rs:48-159 | with styling off, no indentation, no underlined call and every line fitting, the writer's buffer after the calls is exactly their text, and no mark is left |
| Report.ChainText | src/__assert2_impl/print/mod.rs:126-131 | the first n predicates print joined by ` && ` |
| Report.HeaderText | src/__assert2_impl/print/mod.rs:116-123 | the header prints `Assertion failed at file:line:column`, a line break and `  macro!( ` |
| Report.TailText | src/__assert2_impl/print/mod.rs:134-139 | ` && ...` is printed iff unchecked predicates follow the failed one, then ` )` and a line break |
| Report.AssertionText | src/__assert2_impl/print/mod.rs:115-140 | the assertion prints the header, then the predicates up to and including the failed one joined by ` && `, then the tail |
| Report.ChainBeforeFailedDimmed | src/__assert2_impl/print/mod.rs:126-131 | every snippet before the failed predicate is dimmed and not underlined |
| Report.FailedPredicateLast | src/__assert2_impl/print/mod.rs:126-131 | the failed predicate comes last and is underlined iff there is more than one predicate |
| Report.WriteChain | src/__assert2_impl/print/mod.rs:126-131 | the loop writes the predicates up to and including the failed one |
| Report.PrintAssertion | src/__assert2_impl/print/mod.rs:115-140 | the writer receives the assertion's calls in order |
| Report.CompactChoice | src/__assert2_impl/print/mod.rs:191-194 | the compact diff is used for Compact, never for Pretty, and for Auto iff both sides are at most 40 bytes long without a line break |
| Report.CompactLayoutText | src/__assert2_impl/print/mod.rs:195-210 | the compact layout prints `with expansion:`, then `  left op right`, then a note line iff both sides print the same |
| Report.CompactText | src/__assert2_impl/print/mod.rs:191-212 | unstyled, the compact form prints both Debug texts around the operator; when they are equal it adds the "compared as unequal" note for `==` and the "identical Debug output" note otherwise |
| Report.CompactNote | src/__assert2_impl/print/mod.rs:203-210 | a line is flushed before a note iff both sides print the same, and the note is error-styled for `==` |
| Report.PrettyText | src/__assert2_impl/print/mod.rs:215-220 | the pretty diff keeps all lines of both sides in order, and prints `with diff:` and the interleaved lines without the final line break |
| Report.BoolText | src/__assert2_impl/print/mod.rs:223-227 | a boolean expansion prints `with expansion:` and `  false` |
| Report.LineOpsText | src/__assert2_impl/print/mod.rs:232-236 | each line of a let expansion prints indented by two spaces and ended by a line break |
| Report.LetValueChoice | src/__assert2_impl/print/mod.rs:231 | a let expansion shows the compact form when it is good (or forced), else the pretty form |
| Report.LetText | src/__assert2_impl/print/mod.rs:229-239 | a let expansion prints `with expansion:` and the indented lines of the value, joined by line breaks |
| Report.WriteCompact | src/__assert2_impl/print/mod.rs:195-211 | the writer receives the compact form's calls |
| Report.WritePretty | src/__assert2_impl/print/mod.rs:215-220 | the writer receives the pretty form's calls, ending with the pop |
| Report.EmitEntries | src/__assert2_impl/print/diff.rs:22-46 | the loop writes every diff entry's pieces in order |
| Report.WriteBinary | src/__assert2_impl/print/mod.rs:188-221 | the writer receives the compact or the pretty form, by the format rule |
| Report.WriteBool | src/__assert2_impl/print/mod.rs:223-227 | the writer receives the boolean expansion |
| Report.WriteLet | src/__assert2_impl/print/mod.rs:229-239 | the loop writes each indented line and flushes it, then pops the last character |
| Report.WriteLines | src/__assert2_impl/print/mod.rs:232-236 | each line is written indented and in the right-hand style, then flushed, in order |
| Report.WriteExpansion | src/__assert2_impl/print/mod.rs:180-186 | each kind of expansion is written by its own writer |
| Report.ReportEnds | src/__assert2_impl/print/mod.rs:84-111 | the report starts with the header, ends with a line break, and has nothing left for the final drop to flush |
| Report.FragmentLinesText | src/__assert2_impl/print/mod.rs:90-101 | every fragment prints on its own line |
| Report.FragmentLines | src/__assert2_impl/print/mod.rs:92-100 | a fragment line is `  name = expansion` |
| Report.FragmentText | src/__assert2_impl/print/mod.rs:92-100 | one fragment prints `  name = expansion` and a line break |
| Report.MessageText | src/__assert2_impl/print/mod.rs:104-108 | a custom message prints `with message:`, then the message indented, then a line break; without one nothing is printed |
| Report.WriteFragments | src/__assert2_impl/print/mod.rs:89-101 | the loop writes `with:` and the fragments, only when there are any |
| Report.Print | src/__assert2_impl/print/mod.rs:84-111 | the buffer handed to stderr is the report text at the given terminal width |
| Report.WriteReport | src/__assert2_impl/print/mod.rs:89-109 | the writer ends in the state reached from its old state by the report's calls in order: the assertion, the fragments, the expansion, a flush, the message and a final flush |
| Report.WriteMessage | src/__assert2_impl/print/mod.rs:104-108 | with a custom message the writer receives `with message:`, the indented message and a flush; without one it is unchanged |
| Spacing.Text | assert2-macros/src/whitespace.rs:236-247 | definition of the text of a whitespace; stated by `Spacing.ReadText` and `Spacing.AdvanceText` |
| Spacing.OperatorText | assert2-macros/src/whitespace.rs:61-71 | definition of `Display for OperatorWithSpacing`; stated by `Spacing.TotalNewlinesCounts` and `Spacing.LogicalAndText` |
| Spacing.TotalNewlines | assert2-macros/src/whitespace.rs:40-42 | definition of `total_newlines`; stated by `Spacing.TotalNewlinesCounts` |
| Spacing.WhitespaceBetween | assert2-macros/src/whitespace.rs:139-171 | definition of `whitespace_between`; stated by `Spacing.WhitespaceBetweenSpec` |
| Spacing.OpeningSpace | assert2-macros/src/whitespace.rs:111-119 | definition of the whitespace after the opening delimiter; stated through `Spacing.WhitespaceInsideSpec` |
| Spacing.ClosingSpace | assert2-macros/src/whitespace.rs:121-130 | definition of the whitespace before the closing delimiter; stated through `Spacing.WhitespaceInsideSpec` |
| Spacing.WhitespaceInside | assert2-macros/src/whitespace.rs:75-136 | definition of `whitespace_inside`; stated by `Spacing.WhitespaceInsideSpec` and `Spacing.WhitespaceInsideEmpty` |
| Spacing.OperatorWithWhitespace | assert2-macros/src/whitespace.rs:5-16 | definition of `operator_with_whitespace`; stated by `Spacing.OperatorWithWhitespaceSpec` and `Macros.AndGlue` |
| Spacing.NewWhitespace | assert2-macros/src/whitespace.rs:190-195 | no lines and no spaces |
| Spacing.WithLines | assert2-macros/src/whitespace.rs:198-203 | only the line count changes |
| Spacing.WithSpaces | assert2-macros/src/whitespace.rs:206-211 | only the space count changes |
| Spacing.Indentation | assert2-macros/src/whitespace.rs:217-223 | there is no indentation iff there is no line break, and otherwise it is the spaces |
| Spacing.AsIsize | assert2-macros/src/whitespace.rs:231 | the `usize → isize` cast keeps the value modulo 2^64 within the signed range |
| Spacing.AsUsize | assert2-macros/src/whitespace.rs:231 | the `isize → usize` cast keeps the value modulo 2^64 within the unsigned range |
| Spacing.AdjustIndent | assert2-macros/src/whitespace.rs:229-233 | the spaces change only when there are line breaks, by the adjustment modulo 2^64 |
| Spacing.AdjustIndentExact | assert2-macros/src/whitespace.rs:229-233 | a non-negative result is exact; a negative one wraps around to 2^64 plus the result |
| Spacing.ReadText | assert2-macros/src/whitespace.rs:236-259 | the text is `lines` line breaks and then `spaces` spaces, of length `lines + spaces`, and can be read back |
| Spacing.ToText | assert2-macros/src/whitespace.rs:236-247 | the two loops build that text |
| Spacing.Display | assert2-macros/src/whitespace.rs:249-259 | the formatter receives that text |
| Spacing.AdvanceText | assert2-macros/src/whitespace.rs:184-187 | moving past the text of a whitespace adds the spaces to the column, or moves down the lines to column 1 + spaces |
| Spacing.SaturatingSub | assert2-macros/src/whitespace.rs:168 | the difference, or 0 when it would be negative |
| Spacing.WhitespaceBetweenSpec | assert2-macros/src/whitespace.rs:139-171 | there is a gap iff both positions are in one file and the second is not before the first, and then moving past the gap's text leads from the end of the first span to the start of the second |
| Spacing.StreamSpans | assert2-macros/src/whitespace.rs:173-181 | nothing iff the stream is empty, else the first and the last token's spans |
| Spacing.StartEndSpans | assert2-macros/src/whitespace.rs:173-181 | the method returns those spans |
| Spacing.CheckedSub | assert2-macros/src/whitespace.rs:96-130 | the difference exactly when it is not negative |
| Spacing.WhitespaceInsideSpec | assert2-macros/src/whitespace.rs:75-136 | after the opening delimiter and the opening whitespace comes the first token; after the last token, the closing whitespace and the closing delimiter comes the end of the group |
| Spacing.WhitespaceInsideEmpty | assert2-macros/src/whitespace.rs:93-104 | an empty group on one line has `end − (start + 2)` spaces, and none when that is negative; all its whitespace is on the opening side |
| Spacing.NewOperator | assert2-macros/src/whitespace.rs:26-32 | one space on each side and no line breaks |
| Spacing.NewLogicalAnd | assert2-macros/src/whitespace.rs:35-37 | the operator is `&&` |
| Spacing.TotalNewlinesCounts | assert2-macros/src/whitespace.rs:40-42 | the total is the number of line breaks in the operator's text |
| Spacing.LogicalAndText | assert2-macros/src/whitespace.rs:35-37 | the default `&&` prints as ` && ` |
| Spacing.MinIndent | assert2-macros/src/whitespace.rs:47-52 | nothing iff neither side has a line break, else the least defined indentation |
| Spacing.AdjustOperatorIndent | assert2-macros/src/whitespace.rs:55-58 | both sides are adjusted and the operator stays |
| Spacing.AdjustShiftsMinIndent | assert2-macros/src/whitespace.rs:47-58 | adjusting keeps the line breaks and shifts the least indentation by the adjustment |
| Spacing.OperatorWithWhitespaceSpec | assert2-macros/src/whitespace.rs:5-16 | when found, the whitespace before leads from the left operand to the operator, and the whitespace after leads from the operator to the right operand; without a left operand nothing is found |
| Hygiene.Fix | assert2-macros/src/hygiene_bug.rs:10-27 | the stream keeps its length and every token is fixed |
| Hygiene.FixToken | assert2-macros/src/hygiene_bug.rs:12-24 | the span is kept and non-groups are unchanged; a group stays a group of the same length, and an invisible delimiter becomes parentheses while others are kept |
| Hygiene.FixLeavesNoInvisible | assert2-macros/src/hygiene_bug.rs:13-20 | no invisible group is left at any depth |
| Hygiene.FixKeepsVisible | assert2-macros/src/hygiene_bug.rs:10-27 | a stream without invisible groups is unchanged |
| Hygiene.FixIdempotent | assert2-macros/src/hygiene_bug.rs:10-27 | fixing twice is fixing once |
| Hygiene.FixExample | assert2-macros/src/hygiene_bug.rs:13-22 | an invisible group becomes a parenthesised one and a bracketed group stays |
| Macros.IsAnd | assert2-macros/src/lib.rs:105 | definition of the `&&` match arm of `split_predicates`; stated by `Macros.LeavesCount` and `Macros.SplitPredicatesShape` |
| Macros.AndGlue | assert2-macros/src/lib.rs:106-107 | the glue is ` && ` when the spacing cannot be found, and otherwise the text of an `&&` with its source whitespace |
| Macros.LeavesCount | assert2-macros/src/lib.rs:100-115 | there is one operand more than there are `&&`s, and no operand is an `&&` |
| Macros.FlattenInOrder | assert2-macros/src/lib.rs:100-115 | the pairs are the operands in source order; the first has the outer glue, each later one the glue of the `&&` before it |
| Macros.SplitPredicates | assert2-macros/src/lib.rs:100-115 | the worklist loop returns the in-order flattening of the `&&` tree |
| Macros.SplitPredicatesShape | assert2-macros/src/lib.rs:100-115 | one entry per `&&` plus one; the first has the empty glue; no entry is an `&&`; a non-`&&` input gives one entry |
| Macros.Classify | assert2-macros/src/lib.rs:119-160 | a `let` becomes a Let predicate, any binary expression a Binary one, and anything else a Bool one |
| Macros.PrintablePredicates | assert2-macros/src/lib.rs:117-164 | every predicate is classified, in order, with its glue kept |
| Macros.SplitLeavesNoAnd | assert2-macros/src/lib.rs:103-113 | after splitting, no Binary predicate has the operator `&&` |
| Macros.FormatArgs | assert2-macros/src/lib.rs:52-59 | no message iff there are no format arguments, and otherwise exactly those arguments |
| LetPlaceholder.VisitStreamF | assert2-macros/src/let_placeholder.rs:24-30 | definition of `visit_stream`; stated by `LetPlaceholder.VisitStreamSpec`, and `LetPlaceholder.Replacer.VisitStream` returns it |
| LetPlaceholder.VisitTreeF | assert2-macros/src/let_placeholder.rs:32-64 | definition of `visit_tree` with `visit_group` and `visit_punct`; stated by `LetPlaceholder.VisitTreeSpec` |
| LetPlaceholder.IsLetExpr | assert2-macros/src/let_placeholder.rs:68-74 | definition of the `let` test on the third token tree; stated by `LetPlaceholder.ReplaceLetPlaceholderSpec` |
| LetPlaceholder.ReplaceLetPlaceholderF | assert2-macros/src/let_placeholder.rs:67-84 | definition of `replace_let_placeholder`; stated by `LetPlaceholder.ReplaceLetPlaceholderSpec` |
| LetPlaceholder.VisitStreamSpec | assert2-macros/src/let_placeholder.rs:24-64 | the traversal fails iff it meets a second `#`, with the multiple-placeholders message; otherwise every `#` becomes `__ret`, and a placeholder is recorded iff there was one |
| LetPlaceholder.VisitTreeSpec | assert2-macros/src/let_placeholder.rs:32-64 | the same for a single token, including nested groups |
| LetPlaceholder.SubstituteLeavesNoHash | assert2-macros/src/let_placeholder.rs:48-63 | after substitution no `#` is left and the length is kept |
| LetPlaceholder.SubstituteTreeLeavesNoHash | assert2-macros/src/let_placeholder.rs:32-46 | groups keep their delimiter and span, and other tokens other than `#` are unchanged |
| LetPlaceholder.SubstituteNoHash | assert2-macros/src/let_placeholder.rs:32-63 | a stream without `#` is unchanged |
| LetPlaceholder.Replacer.constructor | assert2-macros/src/let_placeholder.rs:20-22 | a new replacer has no placeholder |
| LetPlaceholder.Replacer.VisitStream | assert2-macros/src/let_placeholder.rs:24-30 | the loop over the stream gives the spec traversal's result and placeholder |
| LetPlaceholder.Replacer.VisitTree | assert2-macros/src/let_placeholder.rs:32-39 | one token gives the spec traversal's result and placeholder |
| LetPlaceholder.Replacer.VisitGroup | assert2-macros/src/let_placeholder.rs:41-46 | a group is rebuilt around its visited stream, with its delimiter and span |
| LetPlaceholder.Replacer.VisitPunct | assert2-macros/src/let_placeholder.rs:48-64 | the first `#` becomes `__ret` and is recorded, a second one is an error, and other puncts stay |
| LetPlaceholder.ReplaceLetPlaceholder | assert2-macros/src/let_placeholder.rs:67-84 | the method returns the specified replacement |
| LetPlaceholder.ReplaceLetPlaceholderSpec | assert2-macros/src/let_placeholder.rs:67-84 | a stream whose third token is not `let` is unchanged with no placeholder; otherwise it is an error iff it has two or more `#`, and on success no `#` is left and a placeholder is recorded iff there was exactly one |
| CheckScope.CheckStatus.constructor | src/check_scope.rs:5-9 | no scope open, no failure recorded |
| CheckScope.CheckStatus.Register | src/check_scope.rs:11-16 | one more scope is open, and the flag is kept |
| CheckScope.CheckStatus.Close | src/check_scope.rs:18-27 | one scope fewer, the flag is taken and reset, and the scope panics iff the flag was set |
| CheckScope.CheckStatus.CheckFailed | src/check_scope.rs:29-38 | inside a scope the flag is raised and there is no guard; outside it the flag is kept and a new guard holds the failure action |
| CheckScope.ScopeGuard.constructor | src/check_scope.rs:44-49 | the guard holds the action |
| CheckScope.ScopeGuard.Drop | src/check_scope.rs:51-55 | dropping returns the action and leaves none, so it runs at most once |
| CheckScope.ScopeWithFailure | src/check_scope.rs:57-66 | a scope with a failing check restores the counter, panics when it closes and leaves the flag clear |
| CheckScope.ScopeWithoutFailure | src/check_scope.rs:11-27 | a scope without failures restores the counter and panics only if the flag was already set |
| Info.Indent | src/info.rs:85-87 | definition of `indent`; stated by `Info.UnindentIndent` and `Info.IndentLength` |
| Info.InfoStack.constructor | src/info.rs:4 | the stack starts empty |
| Info.InfoStack.Count | src/info.rs:48-50 | the count is the number of messages |
| Info.InfoStack.PushMessage | src/info.rs:22-25 | the message goes on top and the count grows by one |
| Info.InfoStack.PushCapture | src/info.rs:28-32 | the capture goes on top and the count grows by one |
| Info.InfoStack.PopInfo | src/info.rs:35-37 | the top message goes, and an empty stack stays empty |
| Info.InfoStack.DropGuard | src/info.rs:40-46 | dropping a guard pops exactly once |
| Info.InfoScope | src/info.rs:66-71 | an `info!` whose guard is dropped leaves the stack as it was |
| Info.CaptureScope | src/info.rs:77-83 | a `capture!` whose guard is dropped leaves the stack as it was |
| Info.UnindentIndent | src/info.rs:85-87 | indenting only inserts the two spaces, which can be removed again |
| Info.IndentLength | src/info.rs:85-87 | the length grows by two per line break, the line breaks stay, and text without line breaks is unchanged |
| Common.ByteLen | src/__assert2_impl/print/diff.rs:251 | definition of `str::len`, the UTF-8 byte count; stated by `Diff.PushRunBytes` and `Options.CompactGoodBound` |
| Common.Lines | src/__assert2_impl/print/mod.rs:232 | definition of `str::lines`; stated through `Report.LetText` and `Report.PrettyText` |
| Common.EqIgnoreAsciiCase | src/__assert2_impl/print/options.rs:74-81 | definition of `eq_ignore_ascii_case`; stated by `Options.TokensDistinct` and `Options.TrueFalseExclusive` |

## Left out

- The options' global state is left out: the `RwLock`, the retry loop and the global `yansi` toggle in `AssertOptions::get` (src/__assert2_impl/print/options.rs:27-55). These are concurrency and global state. The options are an input value, and styling is a flag of the writer.
- Process I/O is left out. The terminal size lookup and `eprint!` in `FailedCheck::print` become inputs and outputs: the width is a parameter, and `Report.Print` returns the buffer. So does the environment lookup in `from_env`: the variables are an `Env` value.
- Debug formatting of the operands (`{:?}`, `{:#?}`) is left out, with the specialisation trick in src/maybe_debug.rs. Both are foreign trait dispatch. Each operand is given as its compact and pretty text, and formatting the custom message is an input string.
- The `diff` crate's longest-common-subsequence is a function parameter. The only requirement on it is that its edit script projects back onto its two inputs. Which script it picks is not modelled.
- The Unicode tables are parameters (`Common.CharTable`). These are `is_alphabetic`, `is_lowercase`, `is_whitespace` and `unicode_width`. Tabs are 4 cells, as the writer code states.
- `yansi` escape codes are not modelled. A style is a pair of opaque prefix and suffix strings, and the lemmas about text are stated with styles stripped.
- Highlighter ranges are positions of characters, not byte offsets. Rust's byte ranges, built from the same words, select the same text. `total_highlighted` and the plain-or-ranges choice of `write_highlighted` count UTF-8 bytes, as the code does, and so does the 40-byte rule of `is_compact_good`.
- Diff.DivCeil: requires `b > 0`. For `b == 0` the source divides by zero and panics (src/__assert2_impl/print/diff.rs:267-268); the highlighter only ever passes 2.
- Token-stream code generation is not part of this model: `quote!` in assert.rs, check.rs, let_assert.rs and check-macros. Neither are `tokens_to_string`, `expression_to_string` and `find_macro_fragments`. Rendering tokens as source text is a `render` parameter, and parsing with `syn` is replaced by the `Macros.Expr` tree.
- `Spacing.WhitespaceInsideSpec`: stated for streams whose spans start at column 1 or later. The source's span-location feature is assumed to be enabled.
- The older printing modules src/print.rs and src/__assert2_impl/print.rs are not part of this model. The same goes for the `macro_rules!` wrappers in src/lib.rs, the tests, the examples and the build script.
- `print_info` and the `Display` of an info message are left out. They only format the stack to stderr.
- The thread-local `CHECK_STATUS` and `INFO` are objects passed to each operation. A panic is returned as a flag (`panics`), and a guard's closure is returned by `Drop` rather than run.
- The `check_scope!` macro's own guard is not modelled as a `ScopeGuard` value. Its effect (register, body, close) is `CheckScope.ScopeWithFailure` and `CheckScope.ScopeWithoutFailure`.
- `usize` and `isize` overflow is not modelled: `scopes_registered + 1`, the line and column sums in the span arithmetic, and the `isize` addition `self.spaces as isize + adjust` of `adjust_indent` (assert2-macros/src/whitespace.rs:231), which panics in debug builds and wraps in release builds. `Spacing.AdjustIndent` requires that addition to stay in the `isize` range. None of these can be reached with real source positions, indentations or nesting depths.
- `Report.LetText`: stated only when the value has at least one line. For an empty Debug value the final `pop` removes the line break after `with expansion:`. The method `Report.WriteLet` still models that case exactly.
- `Report.PrettyText`: the text is stated only when the diff has at least one entry. For two empty sides the final `pop` removes the line break after `with diff:`. The method `Report.WritePretty` models that case exactly.
- `Report.OpsText` and the text lemmas stated with it (`Report.AssertionText`, `Report.CompactText`, `Report.PrettyText`, `Report.LetText`, `Report.FragmentText`, `Report.MessageText` and the like): these give the text of the writer calls with styles stripped. They do not wrap lines and draw no `^^^^` rows. `Report.RunOpsText` shows that this text is exactly the writer's buffer when styling is off, nothing is indented, no call is underlined and every line fits the width. The full report underlines the failed predicate when the chain has more than one predicate, so in general it falls outside that lemma.
- `Writer.WrappingWriter.WriteSnippet`: models the corrected loop, which takes one character on an empty line even when it is wider than the width. The loop as written does not terminate on such input (see Findings); it agrees with the corrected loop whenever every character fits (`Writer.StepAgrees`).
- `Writer.WriteSnippetWithinWidth`: the width bound is stated with no indentation and every character fitting. With an indent, or a character wider than the terminal, a line can be wider than the width.

## Findings

| source | as written | input that shows it | evidently intended | confidence | as-written member | corrected member |
|---|---|---|---|---|---|---|
| src/__assert2_impl/print/writer.rs:53-82 | on an empty line, a character wider than the remaining width ends the scan at index 0; the empty head is written, the line is flushed, and the loop starts again on the same content, forever, adding a line break each time | width 0 (or any width below 4) and the content `"\t"`, or a wide character on a terminal narrower than it | a character that does not fit even on an empty line is written on its own line, so the loop always makes progress | not executed | Writer.NeverFinishes | Writer.CorrectedStepProgress |
