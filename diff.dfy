/**
 * The diff engine of the failure report: rounding-up division, the
 * highlighter that records alternating highlighted and plain runs of a line,
 * the word splitter, the single-line (word) diff, the regrouping of a line
 * diff and its interleaved rendering.
 *
 * The longest-common-subsequence diff itself belongs to an external library;
 * here it is a `Differ` value whose every result is an edit script of its two
 * inputs.
 */
module Diff {
  import opened Common

  // ---------------------------------------------------------------------
  // Rounding-up division

  /** `div_ceil`: the quotient rounded up, that is the least `q` with `q * b >= a`. */
  function DivCeil(a: nat, b: nat): (q: nat)
    requires b > 0
    ensures q * b >= a
    ensures q == 0 || (q - 1) * b < a
  {
    var d := a / b;
    var r := a % b;
    assert a == d * b + r;
    if r > 0 then
      assert (d + 1) * b == d * b + b;
      d + 1
    else d
  }

  /** No smaller quotient reaches `a`, so `DivCeil` is the least one that does. */
  lemma DivCeilIsLeast(a: nat, b: nat, q: nat)
    requires b > 0 && q * b >= a
    ensures DivCeil(a, b) <= q
  {
  }

  lemma DivCeilExamples()
    ensures DivCeil(0, 2) == 0 && DivCeil(1, 2) == 1 && DivCeil(2, 2) == 1
    ensures DivCeil(3, 2) == 2 && DivCeil(4, 2) == 2
    ensures DivCeil(20, 7) == 3 && DivCeil(21, 7) == 3 && DivCeil(22, 7) == 4
    ensures DivCeil(27, 7) == 4 && DivCeil(28, 7) == 4 && DivCeil(29, 7) == 5
  {
  }

  // ---------------------------------------------------------------------
  // Highlighter runs

  /** One entry of a highlighter: a range `start..end` of the line and whether it is highlighted. */
  datatype Run = Run(highlighted: bool, start: nat, end: nat)

  /** Where the runs stop: the end of the last run, or 0 when there is none. */
  function RunsEnd(runs: seq<Run>): nat {
    if runs == [] then 0 else runs[|runs| - 1].end
  }

  /** `Range::len`: the number of positions in `start..end`, zero when the range is inverted. */
  function Len(r: Run): nat {
    if r.start <= r.end then r.end - r.start else 0
  }

  /** The runs start at 0, each begins where the previous one ends, and their flags alternate. */
  ghost predicate WellFormed(runs: seq<Run>) {
    && (forall i :: 0 <= i < |runs| ==> runs[i].start <= runs[i].end)
    && (|runs| > 0 ==> runs[0].start == 0)
    && (forall i :: 0 < i < |runs| ==> runs[i].start == runs[i - 1].end)
    && (forall i :: 0 < i < |runs| ==> runs[i].highlighted != runs[i - 1].highlighted)
  }

  /** `Highlighter::push` on the list of runs. */
  function PushRun(runs: seq<Run>, len: nat, highlight: bool): seq<Run> {
    if runs == [] then [Run(highlight, 0, len)]
    else
      var last := runs[|runs| - 1];
      if last.highlighted == highlight then runs[..|runs| - 1] + [last.(end := last.end + len)]
      else runs + [Run(highlight, last.end, last.end + len)]
  }

  /** The total length of the highlighted runs. */
  function HighlightedLength(runs: seq<Run>): nat
  {
    if runs == [] then 0
    else
      var last := runs[|runs| - 1];
      HighlightedLength(runs[..|runs| - 1]) + (if last.highlighted then Len(last) else 0)
  }

  /** One flag per position of the line: whether that position is highlighted. */
  function Mask(runs: seq<Run>): seq<bool>
  {
    if runs == [] then []
    else
      var last := runs[|runs| - 1];
      Mask(runs[..|runs| - 1]) + Repeat(last.highlighted, Len(last))
  }

  /** Pushing keeps the runs well formed and moves their end by exactly `len`. */
  lemma PushRunWellFormed(runs: seq<Run>, len: nat, highlight: bool)
    requires WellFormed(runs)
    ensures WellFormed(PushRun(runs, len, highlight))
    ensures RunsEnd(PushRun(runs, len, highlight)) == RunsEnd(runs) + len
    ensures |runs| <= |PushRun(runs, len, highlight)| <= |runs| + 1
  {
    if runs == [] {
      WellFormedSnoc([], Run(highlight, 0, len));
    } else {
      var last := runs[|runs| - 1];
      var init := runs[..|runs| - 1];
      if last.highlighted == highlight {
        GrowLastWellFormed(runs, len);
      } else {
        WellFormedSnoc(runs, Run(highlight, last.end, last.end + len));
      }
    }
  }

  /** Growing the last run keeps the runs well formed. */
  lemma GrowLastWellFormed(runs: seq<Run>, len: nat)
    requires WellFormed(runs) && runs != []
    ensures WellFormed(runs[..|runs| - 1] + [runs[|runs| - 1].(end := runs[|runs| - 1].end + len)])
  {
    WellFormedPrefix(runs, |runs| - 1);
    WellFormedSnoc(runs[..|runs| - 1], runs[|runs| - 1].(end := runs[|runs| - 1].end + len));
  }

  /** A run appended where the runs stop, with the other flag, keeps them well formed. */
  lemma WellFormedSnoc(runs: seq<Run>, x: Run)
    requires WellFormed(runs) && x.start <= x.end
    requires runs == [] ==> x.start == 0
    requires runs != [] ==> x.start == runs[|runs| - 1].end && x.highlighted != runs[|runs| - 1].highlighted
    ensures WellFormed(runs + [x])
  {
    var r := runs + [x];
    forall i | 0 <= i < |r| ensures r[i].start <= r[i].end {
      if i < |runs| { assert r[i] == runs[i]; }
    }
    forall i | 0 < i < |r| ensures r[i].start == r[i - 1].end && r[i].highlighted != r[i - 1].highlighted {
      assert r[i - 1] == runs[i - 1];
      if i < |runs| { assert r[i] == runs[i]; }
    }
  }

  /**
   * Pushing extends the per-position mask by `len` copies of the pushed
   * flag, and the highlighted total grows by `len` only for a highlighted push.
   */
  lemma PushRunMask(runs: seq<Run>, len: nat, highlight: bool)
    requires WellFormed(runs)
    ensures Mask(PushRun(runs, len, highlight)) == Mask(runs) + Repeat(highlight, len)
    ensures HighlightedLength(PushRun(runs, len, highlight)) == HighlightedLength(runs) + (if highlight then len else 0)
  {
    var r := PushRun(runs, len, highlight);
    if runs == [] {
      assert r[..0] == [];
    } else {
      var last := runs[|runs| - 1];
      var init := runs[..|runs| - 1];
      if last.highlighted == highlight {
        var grown := last.(end := last.end + len);
        assert r == init + [grown];
        assert r[..|r| - 1] == init;
        assert Len(grown) == Len(last) + len;
        RepeatAppend(highlight, Len(last), len);
        assert Mask(r) == Mask(init) + Repeat(highlight, Len(grown));
        assert Mask(runs) == Mask(init) + Repeat(highlight, Len(last));
      } else {
        assert r[..|r| - 1] == runs;
      }
    }
  }

  lemma RepeatAppend<T>(x: T, a: nat, b: nat)
    ensures Repeat(x, a + b) == Repeat(x, a) + Repeat(x, b)
  {
  }

  /** The mask is exactly as long as the runs reach, and the highlighted total counts its `true` positions. */
  lemma {:induction false} MaskSpec(runs: seq<Run>)
    requires WellFormed(runs)
    ensures |Mask(runs)| == RunsEnd(runs)
    ensures HighlightedLength(runs) == Count(true, Mask(runs))
    ensures HighlightedLength(runs) <= RunsEnd(runs)
  {
    if runs != [] {
      var last := runs[|runs| - 1];
      var init := runs[..|runs| - 1];
      assert WellFormed(init);
      MaskSpec(init);
      var rep := Repeat(last.highlighted, Len(last));
      CountAppend(true, Mask(init), rep);
      if last.highlighted {
        assert Count(true, rep) == |rep| by { RepeatCount(true, |rep|); }
      } else {
        CountAbsent(true, rep);
      }
    }
  }

  /** Every run ends within the end of the last run. */
  lemma {:induction false} RunsWithinEnd(runs: seq<Run>)
    requires WellFormed(runs)
    ensures forall i :: 0 <= i < |runs| ==> runs[i].end <= RunsEnd(runs)
  {
    if |runs| > 1 {
      var init := runs[..|runs| - 1];
      assert WellFormed(init);
      RunsWithinEnd(init);
    }
  }

  lemma {:induction false} RepeatCount<T>(x: T, n: nat)
    ensures Count(x, Repeat(x, n)) == n
  {
    if n > 0 {
      RepeatCount(x, n - 1);
    }
  }

  /** Every run is a valid range of `data`. */
  ghost predicate Within(runs: seq<Run>, data: string) {
    forall i :: 0 <= i < |runs| ==> runs[i].start <= runs[i].end <= |data|
  }

  lemma WellFormedWithin(runs: seq<Run>, data: string)
    requires WellFormed(runs) && RunsEnd(runs) <= |data|
    ensures Within(runs, data)
  {
    RunsWithinEnd(runs);
  }

  /** The UTF-8 bytes of `data` that the highlighted runs cover. */
  function HighlightedBytes(runs: seq<Run>, data: string): nat
    requires Within(runs, data)
  {
    if runs == [] then 0
    else
      var last := runs[|runs| - 1];
      HighlightedBytes(runs[..|runs| - 1], data) + (if last.highlighted then ByteLen(data[last.start..last.end]) else 0)
  }

  /** Text after the runs' ranges does not change what they cover. */
  lemma {:induction false} HighlightedBytesExtend(runs: seq<Run>, data: string, more: string)
    requires Within(runs, data)
    ensures Within(runs, data + more)
    ensures HighlightedBytes(runs, data + more) == HighlightedBytes(runs, data)
  {
    if runs != [] {
      var last := runs[|runs| - 1];
      HighlightedBytesExtend(runs[..|runs| - 1], data, more);
      assert (data + more)[last.start..last.end] == data[last.start..last.end];
    }
  }

  /**
   * Pushing a word onto runs that cover `text` covers `text + word`, and the
   * highlighted bytes grow by the word's bytes exactly when it is highlighted.
   */
  lemma PushRunBytes(runs: seq<Run>, text: string, word: string, h: bool)
    requires WellFormed(runs) && RunsEnd(runs) == |text|
    ensures WellFormed(PushRun(runs, |word|, h)) && RunsEnd(PushRun(runs, |word|, h)) == |text + word|
    ensures Within(runs, text) && Within(PushRun(runs, |word|, h), text + word)
    ensures HighlightedBytes(PushRun(runs, |word|, h), text + word)
      == HighlightedBytes(runs, text) + (if h then ByteLen(word) else 0)
  {
    PushRunWellFormed(runs, |word|, h);
    WellFormedWithin(runs, text);
    WellFormedWithin(PushRun(runs, |word|, h), text + word);
    if runs == [] {
      var tw := text + word;
      assert PushRun(runs, |word|, h)[..0] == [];
      assert tw[0..|word|] == word;
    } else if runs[|runs| - 1].highlighted == h {
      PushRunBytesGrow(runs, text, word);
    } else {
      PushRunBytesStart(runs, text, word);
    }
  }

  /** Pushing onto a run of the same kind grows that run over the word. */
  lemma PushRunBytesGrow(runs: seq<Run>, text: string, word: string)
    requires runs != [] && Within(runs, text) && runs[|runs| - 1].end == |text|
    requires Within(PushRun(runs, |word|, runs[|runs| - 1].highlighted), text + word)
    ensures HighlightedBytes(PushRun(runs, |word|, runs[|runs| - 1].highlighted), text + word)
      == HighlightedBytes(runs, text) + (if runs[|runs| - 1].highlighted then ByteLen(word) else 0)
  {
    var init, last := runs[..|runs| - 1], runs[|runs| - 1];
    var pushed, tw := PushRun(runs, |word|, last.highlighted), text + word;
    assert Within(init, text);
    HighlightedBytesExtend(init, text, word);
    assert pushed[..|pushed| - 1] == init;
    assert tw[last.start..last.end + |word|] == text[last.start..last.end] + word;
    ByteLenAppend(text[last.start..last.end], word);
  }

  /** Pushing a word of the other kind starts a new run over it. */
  lemma PushRunBytesStart(runs: seq<Run>, text: string, word: string)
    requires runs != [] && Within(runs, text) && runs[|runs| - 1].end == |text|
    requires Within(PushRun(runs, |word|, !runs[|runs| - 1].highlighted), text + word)
    ensures HighlightedBytes(PushRun(runs, |word|, !runs[|runs| - 1].highlighted), text + word)
      == HighlightedBytes(runs, text) + (if !runs[|runs| - 1].highlighted then ByteLen(word) else 0)
  {
    var last := runs[|runs| - 1];
    var next := Run(!last.highlighted, last.end, last.end + |word|);
    var pushed, tw := runs + [next], text + word;
    assert PushRun(runs, |word|, !last.highlighted) == pushed;
    assert pushed[..|pushed| - 1] == runs && pushed[|pushed| - 1] == next;
    HighlightedBytesExtend(runs, text, word);
    assert tw[next.start..next.end] == word;
    assert HighlightedBytes(pushed, tw) == HighlightedBytes(runs, tw) + (if next.highlighted then ByteLen(word) else 0);
  }

  /** The highlighted bytes are at most the bytes the runs cover, and so at most the line's. */
  lemma {:induction false} HighlightedBytesBound(runs: seq<Run>, data: string)
    requires WellFormed(runs) && RunsEnd(runs) <= |data|
    ensures Within(runs, data)
    ensures HighlightedBytes(runs, data) <= ByteLen(data[..RunsEnd(runs)]) <= ByteLen(data)
  {
    WellFormedWithin(runs, data);
    ByteLenPrefix(data, RunsEnd(runs));
    if runs != [] {
      var init := runs[..|runs| - 1];
      var last := runs[|runs| - 1];
      assert WellFormed(init) && RunsEnd(init) == last.start;
      HighlightedBytesBound(init, data);
      assert data[..last.end] == data[..last.start] + data[last.start..last.end];
      ByteLenAppend(data[..last.start], data[last.start..last.end]);
    }
  }

  /**
   * Runs that are well formed and cover `text` exactly, with `total` the
   * UTF-8 bytes of their highlighted part.
   */
  ghost predicate Covers(runs: seq<Run>, text: string, total: nat) {
    && WellFormed(runs) && RunsEnd(runs) == |text| && Within(runs, text)
    && total == HighlightedBytes(runs, text)
  }

  /** Pushing a word keeps the runs covering the text, with the word's bytes added for a highlighted push. */
  lemma PushRunCovers(runs: seq<Run>, text: string, total: nat, word: string, h: bool)
    requires Covers(runs, text, total)
    ensures Covers(PushRun(runs, |word|, h), text + word, total + (if h then ByteLen(word) else 0))
  {
    PushRunBytes(runs, text, word, h);
  }

  /** Highlighter: incrementally builds the alternating runs of one side of a word diff. */
  class Highlighter {
    var ranges: seq<Run>
    var totalHighlighted: nat
    /** The words pushed so far, in order: the text the ranges index. */
    ghost var text: string
    const normal: Style
    const highlight: Style

    /**
     * The ranges are well formed and cover the pushed text; the total is the
     * UTF-8 byte count of the highlighted part of that text.
     */
    ghost predicate Valid()
      reads this
    {
      Covers(ranges, text, totalHighlighted)
    }

    /** `Highlighter::new`: the two styles derive from one colour; here they are given directly. */
    constructor (normal: Style, highlight: Style)
      ensures Valid()
      ensures ranges == [] && totalHighlighted == 0 && text == []
      ensures this.normal == normal && this.highlight == highlight
    {
      ranges := [];
      totalHighlighted := 0;
      text := [];
      this.normal := normal;
      this.highlight := highlight;
    }

    /**
     * `push`: the pushed length is measured on the word itself, in
     * characters for the range and in UTF-8 bytes for the total.
     */
    method Push(word: string, isHighlighted: bool)
      requires Valid()
      modifies this
      ensures Valid()
      ensures ranges == PushRun(old(ranges), |word|, isHighlighted) && text == old(text) + word
      ensures totalHighlighted == old(totalHighlighted) + (if isHighlighted then ByteLen(word) else 0)
      ensures RunsEnd(ranges) == RunsEnd(old(ranges)) + |word|
      ensures Mask(ranges) == Mask(old(ranges)) + Repeat(isHighlighted, |word|)
    {
      PushRunCovers(ranges, text, totalHighlighted, word, isHighlighted);
      ghost var before := ranges;
      if isHighlighted {
        totalHighlighted := totalHighlighted + ByteLen(word);
      }
      ExtendRuns(|word|, isHighlighted);
      text := text + word;
      assert Mask(ranges) == Mask(before) + Repeat(isHighlighted, |word|) by {
        PushRunMask(before, |word|, isHighlighted);
      }
    }

    /** The run bookkeeping of `push`: grow the last run when its kind matches, otherwise start a new one. */
    method ExtendRuns(len: nat, isHighlighted: bool)
      modifies this
      ensures ranges == PushRun(old(ranges), len, isHighlighted)
      ensures totalHighlighted == old(totalHighlighted) && text == old(text)
    {
      if |ranges| > 0 {
        var last := ranges[|ranges| - 1];
        if last.highlighted == isHighlighted {
          ranges := ranges[..|ranges| - 1] + [last.(end := last.end + len)];
        } else {
          var start := last.end;
          ranges := ranges + [Run(isHighlighted, start, start + len)];
        }
      } else {
        ranges := [Run(isHighlighted, 0, len)];
      }
    }

    /**
     * `write_highlighted`: the pieces of `data` in their styles. The whole
     * line goes out plain when its plain bytes are fewer than half its
     * highlighted bytes (rounded up); otherwise every run goes out in its
     * own style. The ranges index the line they were pushed from.
     */
    method WriteHighlighted(data: string) returns (pieces: seq<Styled>)
      requires Valid() && text <= data
      ensures pieces == HighlightedPieces(ranges, data, normal, highlight)
    {
      assert data == text + data[|text|..];
      HighlightedBytesExtend(ranges, text, data[|text|..]);
      HighlightedBytesBound(ranges, data);
      var notHighlighted := ByteLen(data) - totalHighlighted;
      if notHighlighted < DivCeil(totalHighlighted, 2) {
        pieces := [Styled(data, normal)];
      } else {
        pieces := WriteRuns(ranges, data, normal, highlight);
      }
    }

    /** The loop of `write_highlighted` over the runs, each written as its slice of `data` in its own style. */
    static method WriteRuns(runs: seq<Run>, data: string, normal: Style, highlight: Style) returns (pieces: seq<Styled>)
      requires WellFormed(runs) && RunsEnd(runs) <= |data|
      ensures pieces == RunPieces(runs, data, normal, highlight)
    {
      pieces := [];
      for i := 0 to |runs|
        invariant PrefixFits(runs, i, data)
        invariant pieces == RunPieces(runs[..i], data, normal, highlight)
      {
        RunPiecesSnoc(runs, i, data, normal, highlight);
        var run := runs[i];
        var piece := if run.highlighted then Styled(data[run.start..run.end], highlight)
                     else Styled(data[run.start..run.end], normal);
        pieces := pieces + [piece];
      }
      assert runs[..|runs|] == runs;
    }
  }

  /** The decision of `write_highlighted`: is the plain part shorter than half the highlighted part, rounded up? */
  predicate WholeLinePlain(dataLen: nat, totalHighlighted: nat) {
    dataLen - totalHighlighted < DivCeil(totalHighlighted, 2)
  }

  /** The piece `write_highlighted` writes for one run. */
  function RunPiece(run: Run, data: string, normal: Style, highlight: Style): Styled
    requires run.start <= run.end <= |data|
  {
    Styled(data[run.start..run.end], if run.highlighted then highlight else normal)
  }

  /** Each run's slice of `data`, in the run's style; together they spell out the covered prefix. */
  function RunPieces(runs: seq<Run>, data: string, normal: Style, highlight: Style): (pieces: seq<Styled>)
    requires WellFormed(runs) && RunsEnd(runs) <= |data|
    ensures |pieces| == |runs|
    ensures forall i :: 0 <= i < |runs| ==>
      runs[i].end <= |data| && pieces[i] == RunPiece(runs[i], data, normal, highlight)
    ensures PlainText(pieces) == data[..RunsEnd(runs)]
  {
    if runs == [] then []
    else
      var init := runs[..|runs| - 1];
      var last := runs[|runs| - 1];
      assert WellFormed(init);
      assert RunsEnd(init) == last.start;
      var prev := RunPieces(init, data, normal, highlight);
      var piece := RunPiece(last, data, normal, highlight);
      PiecesSnocIndex(runs, data, normal, highlight, prev);
      PiecesSnocText(prev, piece, data, last.start, last.end);
      prev + [piece]
  }

  /** Appending the last run's piece extends the element-wise correspondence. */
  lemma PiecesSnocIndex(runs: seq<Run>, data: string, normal: Style, highlight: Style, prev: seq<Styled>)
    requires runs != [] && runs[|runs| - 1].start <= runs[|runs| - 1].end <= |data|
    requires |prev| == |runs| - 1
    requires forall i :: 0 <= i < |prev| ==>
      runs[..|runs| - 1][i].start <= runs[..|runs| - 1][i].end <= |data|
      && prev[i] == RunPiece(runs[..|runs| - 1][i], data, normal, highlight)
    ensures forall i :: 0 <= i < |runs| ==>
      runs[i].start <= runs[i].end <= |data|
      && (prev + [RunPiece(runs[|runs| - 1], data, normal, highlight)])[i] == RunPiece(runs[i], data, normal, highlight)
  {
    var init := runs[..|runs| - 1];
    var pieces := prev + [RunPiece(runs[|runs| - 1], data, normal, highlight)];
    forall i | 0 <= i < |runs|
      ensures runs[i].start <= runs[i].end <= |data| && pieces[i] == RunPiece(runs[i], data, normal, highlight)
    {
      if i < |prev| {
        assert runs[i] == init[i] && pieces[i] == prev[i];
      }
    }
  }

  /** A piece holding the next slice of `data` extends the text spelled so far. */
  lemma PiecesSnocText(prev: seq<Styled>, piece: Styled, data: string, a: nat, b: nat)
    requires a <= b <= |data| && PlainText(prev) == data[..a] && piece.text == data[a..b]
    ensures PlainText(prev + [piece]) == data[..b]
  {
    assert (prev + [piece])[..|prev|] == prev;
    assert data[..b] == data[..a] + data[a..b];
  }

  /** The first `i` runs are well formed and fall within `data`. */
  ghost predicate PrefixFits(runs: seq<Run>, i: nat, data: string) {
    i <= |runs| && WellFormed(runs[..i]) && RunsEnd(runs[..i]) <= |data|
  }

  /** One more run adds its own piece, and the prefixes stay within `data`. */
  lemma RunPiecesSnoc(runs: seq<Run>, i: nat, data: string, normal: Style, highlight: Style)
    requires WellFormed(runs) && RunsEnd(runs) <= |data| && i < |runs|
    ensures PrefixFits(runs, i, data) && PrefixFits(runs, i + 1, data)
    ensures runs[i].start <= runs[i].end <= |data|
    ensures RunPieces(runs[..i + 1], data, normal, highlight)
      == RunPieces(runs[..i], data, normal, highlight) + [RunPiece(runs[i], data, normal, highlight)]
  {
    RunsWithinEnd(runs);
    WellFormedPrefix(runs, i);
    WellFormedPrefix(runs, i + 1);
    assert runs[..i + 1][..i] == runs[..i];
  }

  /** A prefix of well-formed runs is well formed and ends where its last run ends. */
  lemma WellFormedPrefix(runs: seq<Run>, n: nat)
    requires WellFormed(runs) && n <= |runs|
    ensures WellFormed(runs[..n])
    ensures n > 0 ==> RunsEnd(runs[..n]) == runs[n - 1].end
  {
  }

  /** What `write_highlighted` writes for a highlighter with the given runs. */
  function HighlightedPieces(runs: seq<Run>, data: string, normal: Style, highlight: Style): seq<Styled>
    requires WellFormed(runs) && RunsEnd(runs) <= |data|
  {
    HighlightedBytesBound(runs, data);
    if WholeLinePlain(ByteLen(data), HighlightedBytes(runs, data)) then [Styled(data, normal)]
    else RunPieces(runs, data, normal, highlight)
  }

  /**
   * `write_highlighted`: the whole line goes out in the normal style when its
   * plain bytes are fewer than half its highlighted bytes (rounded up);
   * otherwise every run goes out as its own slice in its own style. Either
   * way, with the styles stripped, the output is the line the runs cover.
   */
  lemma HighlightedPiecesSpec(runs: seq<Run>, data: string, normal: Style, highlight: Style)
    requires WellFormed(runs) && RunsEnd(runs) <= |data|
    ensures Within(runs, data)
    ensures var pieces := HighlightedPieces(runs, data, normal, highlight);
      && (WholeLinePlain(ByteLen(data), HighlightedBytes(runs, data)) ==> pieces == [Styled(data, normal)])
      && (!WholeLinePlain(ByteLen(data), HighlightedBytes(runs, data)) ==>
            && |pieces| == |runs|
            && forall i :: 0 <= i < |runs| ==>
                 runs[i].end <= |data| && pieces[i] == RunPiece(runs[i], data, normal, highlight))
      && (RunsEnd(runs) == |data| ==> PlainText(pieces) == data)
  {
    HighlightedBytesBound(runs, data);
    assert PlainText([Styled(data, normal)]) == PlainText([]) + data;
    assert data[..|data|] == data;
  }

  /**
   * The decision counts UTF-8 bytes: with `ééé` highlighted in `ééé b`, the
   * 2 plain bytes are fewer than half of the 6 highlighted ones, so the whole
   * line goes out plain, although by characters (2 plain, 3 highlighted) it
   * would not.
   */
  lemma ByteCountDecides(normal: Style, highlight: Style)
    ensures !WholeLinePlain(5, 3)
    ensures HighlightedPieces([Run(true, 0, 3), Run(false, 3, 5)], "\U{E9}\U{E9}\U{E9} b", normal, highlight)
      == [Styled("\U{E9}\U{E9}\U{E9} b", normal)]
  {
    var data := "\U{E9}\U{E9}\U{E9} b";
    var runs := [Run(true, 0, 3), Run(false, 3, 5)];
    assert WellFormed(runs);
    HighlightedBytesBound(runs, data);
    assert data[0..3] == "\U{E9}\U{E9}\U{E9}";
    assert ByteLen("\U{E9}\U{E9}\U{E9}") == 6 by {
      assert "\U{E9}\U{E9}\U{E9}"[..2] == "\U{E9}\U{E9}";
      assert "\U{E9}\U{E9}"[..1] == "\U{E9}";
      assert "\U{E9}"[..0] == [];
    }
    assert runs[..1] == [Run(true, 0, 3)] && runs[..1][..0] == [];
    assert HighlightedBytes(runs, data) == 6;
    assert ByteLen(data) == 8 by {
      assert data[..4] == "\U{E9}\U{E9}\U{E9} " && data[..4][..3] == "\U{E9}\U{E9}\U{E9}";
    }
    assert DivCeil(6, 2) == 3;
  }

  // ---------------------------------------------------------------------
  // Word splitting

  /** `is_break_point`: whether a word ends between the adjacent characters `a` and `b`. */
  predicate IsBreakPoint(t: CharTable, a: char, b: char) {
    if t.isAlphabetic(a) then !t.isAlphabetic(b) || (t.isLowercase(a) && !t.isLowercase(b))
    else if IsAsciiDigit(a) then !IsAsciiDigit(b)
    else if t.isWhitespace(a) then !t.isWhitespace(b)
    else true
  }

  /** The first position at or after `pos` that has a break point before it, or `|s|` when there is none. */
  function BreakFrom(t: CharTable, s: string, pos: nat): (k: nat)
    requires 1 <= pos <= |s|
    ensures pos <= k <= |s|
    ensures forall j :: pos <= j < k ==> !IsBreakPoint(t, s[j - 1], s[j])
    ensures k < |s| ==> IsBreakPoint(t, s[k - 1], s[k])
    decreases |s| - pos
  {
    if pos == |s| then |s|
    else if IsBreakPoint(t, s[pos - 1], s[pos]) then pos
    else BreakFrom(t, s, pos + 1)
  }

  /** Where `split_words` cuts off the first word of a non-empty input. */
  function FirstBreak(t: CharTable, s: string): (k: nat)
    requires |s| > 0
    ensures 1 <= k <= |s|
  {
    BreakFrom(t, s, 1)
  }

  /** The words of `s`: cut at the first break point, then split the rest the same way. */
  function Words(t: CharTable, s: string): (words: seq<string>)
    ensures forall i :: 0 <= i < |words| ==> |words[i]| > 0
    ensures forall i, j :: 0 <= i < |words| && 1 <= j < |words[i]| ==> !IsBreakPoint(t, words[i][j - 1], words[i][j])
    decreases |s|
  {
    if s == [] then []
    else
      var k := FirstBreak(t, s);
      assert forall j :: 1 <= j < k ==> !IsBreakPoint(t, s[..k][j - 1], s[..k][j]);
      [s[..k]] + Words(t, s[k..])
  }

  /** The words put back together give the input. */
  lemma {:induction false} WordsConcat(t: CharTable, s: string)
    ensures Concat(Words(t, s)) == s
    decreases |s|
  {
    if s != [] {
      var k := FirstBreak(t, s);
      WordsConcat(t, s[k..]);
      ConcatCons(s[..k], Words(t, s[k..]));
      assert s[..k] + s[k..] == s;
    }
  }

  /** A break point separates the last character of every word from the first of the next. */
  lemma {:induction false} WordsBreaks(t: CharTable, s: string)
    ensures var words := Words(t, s);
      forall i :: 0 <= i < |words| - 1 ==> IsBreakPoint(t, words[i][|words[i]| - 1], words[i + 1][0])
    decreases |s|
  {
    if s != [] {
      var k := FirstBreak(t, s);
      WordsBreaks(t, s[k..]);
      FirstWordHead(t, s[k..]);
      assert Words(t, s) == [s[..k]] + Words(t, s[k..]);
      BreaksCons(t, s[..k], Words(t, s[k..]));
    }
  }

  /** The first word of a non-empty text starts with its first character. */
  lemma FirstWordHead(t: CharTable, s: string)
    ensures Words(t, s) != [] ==> |s| > 0 && Words(t, s)[0][0] == s[0]
  {
    if s != [] {
      assert Words(t, s)[0] == s[..FirstBreak(t, s)];
    }
  }

  /** A word in front of words separated by break points, with a break point after it, keeps them separated. */
  lemma BreaksCons(t: CharTable, w: string, rest: seq<string>)
    requires |w| > 0 && forall i :: 0 <= i < |rest| ==> |rest[i]| > 0
    requires forall i :: 0 <= i < |rest| - 1 ==> IsBreakPoint(t, rest[i][|rest[i]| - 1], rest[i + 1][0])
    requires rest != [] ==> IsBreakPoint(t, w[|w| - 1], rest[0][0])
    ensures var words := [w] + rest;
      forall i :: 0 <= i < |words| - 1 ==> IsBreakPoint(t, words[i][|words[i]| - 1], words[i + 1][0])
  {
    var words := [w] + rest;
    forall i | 0 <= i < |words| - 1
      ensures IsBreakPoint(t, words[i][|words[i]| - 1], words[i + 1][0])
    {
      if i > 0 {
        assert words[i] == rest[i - 1] && words[i + 1] == rest[i];
      }
    }
  }

  /** The empty line has no words; a line of one character is one word. */
  lemma WordsSmall(t: CharTable, c: char)
    ensures Words(t, "") == []
    ensures Words(t, [c]) == [[c]]
  {
    assert FirstBreak(t, [c]) == 1;
    assert [c][..1] == [c] && [c][1..] == [];
  }

  /**
   * `split_words`: repeatedly cut the input at its first break point. A
   * character with none of the three classes ends a word at once.
   */
  method SplitWords(t: CharTable, input: string) returns (output: seq<string>)
    ensures output == Words(t, input)
  {
    output := [];
    var rest := input;
    while |rest| > 0
      invariant output + Words(t, rest) == Words(t, input)
      decreases |rest|
    {
      var split := 1;
      while split < |rest| && !IsBreakPoint(t, rest[split - 1], rest[split])
        invariant 1 <= split <= |rest|
        invariant BreakFrom(t, rest, split) == FirstBreak(t, rest)
        decreases |rest| - split
      {
        split := split + 1;
      }
      var head, tail := rest[..split], rest[split..];
      assert Words(t, rest) == [head] + Words(t, tail);
      output := output + [head];
      rest := tail;
    }
  }

  // ---------------------------------------------------------------------
  // Edit scripts and the single-line diff

  /** One item of an edit script: only on the left, only on the right, or on both sides. */
  datatype Edit<T> = Left(left: T) | Right(right: T) | Both(left: T, right: T)

  /** The items of the left input, in order: every `Left` and `Both` item. */
  function LeftSide<T>(script: seq<Edit<T>>): seq<T> {
    if script == [] then []
    else
      var e := script[|script| - 1];
      LeftSide(script[..|script| - 1]) + (if e.Right? then [] else [e.left])
  }

  /** The items of the right input, in order: every `Right` and `Both` item. */
  function RightSide<T>(script: seq<Edit<T>>): seq<T> {
    if script == [] then []
    else
      var e := script[|script| - 1];
      RightSide(script[..|script| - 1]) + (if e.Left? then [] else [e.right])
  }

  lemma {:induction false} LeftSideAppend<T>(a: seq<Edit<T>>, b: seq<Edit<T>>)
    ensures LeftSide(a + b) == LeftSide(a) + LeftSide(b)
  {
    if b == [] {
      assert a + b == a;
    } else {
      assert (a + b)[..|a + b| - 1] == a + b[..|b| - 1];
      LeftSideAppend(a, b[..|b| - 1]);
    }
  }

  lemma {:induction false} RightSideAppend<T>(a: seq<Edit<T>>, b: seq<Edit<T>>)
    ensures RightSide(a + b) == RightSide(a) + RightSide(b)
  {
    if b == [] {
      assert a + b == a;
    } else {
      assert (a + b)[..|a + b| - 1] == a + b[..|b| - 1];
      RightSideAppend(a, b[..|b| - 1]);
    }
  }

  /**
   * The `diff` crate's `lines` and `slice`: a longest-common-subsequence
   * diff of two lists of strings. The algorithm is not part of this model.
   */
  type Differ = (seq<string>, seq<string>) -> seq<Edit<string>>

  /** What every result of the diff promises: it spells out both inputs, and `Both` pairs equal items. */
  ghost predicate IsDiffer(differ: Differ) {
    forall a, b :: IsEditScript(differ(a, b), a, b)
  }

  ghost predicate IsEditScript(script: seq<Edit<string>>, a: seq<string>, b: seq<string>) {
    && LeftSide(script) == a
    && RightSide(script) == b
    && BothEqual(script)
  }

  /** What one edit pushes onto the highlighter of one side. */
  function PushEdit(runs: seq<Run>, e: Edit<string>, onLeft: bool): seq<Run> {
    match e
    case Left(l) => if onLeft then PushRun(runs, |l|, true) else runs
    case Right(r) => if onLeft then runs else PushRun(runs, |r|, true)
    case Both(l, r) => if onLeft then PushRun(runs, |l|, false) else PushRun(runs, |r|, false)
  }

  /** The runs of one side's highlighter after `SingleLineDiff::new` has pushed every edit. */
  function SideRuns(script: seq<Edit<string>>, onLeft: bool): seq<Run> {
    if script == [] then []
    else PushEdit(SideRuns(script[..|script| - 1], onLeft), script[|script| - 1], onLeft)
  }

  /** Reference mask of one side: a word only on that side is highlighted, a word on both sides is not. */
  function SideMask(script: seq<Edit<string>>, onLeft: bool): seq<bool> {
    if script == [] then []
    else
      var e := script[|script| - 1];
      SideMask(script[..|script| - 1], onLeft) +
        match e
        case Left(l) => if onLeft then Repeat(true, |l|) else []
        case Right(r) => if onLeft then [] else Repeat(true, |r|)
        case Both(l, r) => Repeat(false, if onLeft then |l| else |r|)
  }

  /** The items of one side. */
  function Side(script: seq<Edit<string>>, onLeft: bool): seq<string> {
    if onLeft then LeftSide(script) else RightSide(script)
  }

  /**
   * The pushes of `SingleLineDiff::new` give each side well-formed runs that
   * cover exactly that side's text.
   */
  lemma {:induction false} SideRunsCover(script: seq<Edit<string>>, onLeft: bool)
    ensures WellFormed(SideRuns(script, onLeft))
    ensures RunsEnd(SideRuns(script, onLeft)) == |Concat(Side(script, onLeft))|
  {
    if script != [] {
      var init := script[..|script| - 1];
      var e := script[|script| - 1];
      var prev := SideRuns(init, onLeft);
      SideRunsCover(init, onLeft);
      var side := Side(init, onLeft);
      if onLeft && !e.Right? {
        PushRunWellFormed(prev, |e.left|, !e.Both?);
        assert Side(script, onLeft) == side + [e.left];
        ConcatAppend(side, [e.left]);
        assert Concat([e.left]) == Concat([]) + e.left;
      } else if !onLeft && !e.Left? {
        PushRunWellFormed(prev, |e.right|, !e.Both?);
        assert Side(script, onLeft) == side + [e.right];
        ConcatAppend(side, [e.right]);
        assert Concat([e.right]) == Concat([]) + e.right;
      } else {
        assert Side(script, onLeft) == side;
      }
    }
  }

  /**
   * Each side is highlighted exactly where the reference mask says, and the
   * highlighted total counts the characters of the one-sided words.
   */
  lemma {:induction false} SideRunsMask(script: seq<Edit<string>>, onLeft: bool)
    ensures Mask(SideRuns(script, onLeft)) == SideMask(script, onLeft)
    ensures HighlightedLength(SideRuns(script, onLeft)) == Count(true, SideMask(script, onLeft))
  {
    if script != [] {
      SideRunsMask(script[..|script| - 1], onLeft);
      SideMaskStep(script, onLeft);
    }
    SideRunsCover(script, onLeft);
    MaskSpec(SideRuns(script, onLeft));
  }

  /** The mask of one more edit is the mask so far and that edit's part. */
  lemma SideMaskStep(script: seq<Edit<string>>, onLeft: bool)
    requires script != []
    requires Mask(SideRuns(script[..|script| - 1], onLeft)) == SideMask(script[..|script| - 1], onLeft)
    ensures Mask(SideRuns(script, onLeft)) == SideMask(script, onLeft)
  {
    var init := script[..|script| - 1];
    var e := script[|script| - 1];
    var prev := SideRuns(init, onLeft);
    assert SideRuns(script, onLeft) == PushEdit(prev, e, onLeft);
    SideRunsCover(init, onLeft);
    if onLeft && !e.Right? {
      PushRunMask(prev, |e.left|, !e.Both?);
      assert SideMask(script, onLeft) == SideMask(init, onLeft) + Repeat(!e.Both?, |e.left|);
    } else if !onLeft && !e.Left? {
      PushRunMask(prev, |e.right|, !e.Both?);
      assert SideMask(script, onLeft) == SideMask(init, onLeft) + Repeat(!e.Both?, |e.right|);
    } else {
      assert SideMask(script, onLeft) == SideMask(init, onLeft) + [];
    }
  }

  /** The four styles of a word diff: each side's colour for plain and for highlighted words. */
  datatype WordStyles = WordStyles(leftNormal: Style, leftHighlight: Style, rightNormal: Style, rightHighlight: Style)

  /** The UTF-8 bytes of the words only on one side: what that side's highlighter totals. */
  function SideBytes(script: seq<Edit<string>>, onLeft: bool): nat {
    if script == [] then 0
    else
      SideBytes(script[..|script| - 1], onLeft) +
        match script[|script| - 1]
        case Left(l) => if onLeft then ByteLen(l) else 0
        case Right(r) => if onLeft then 0 else ByteLen(r)
        case Both(_, _) => 0
  }

  /** One more edit adds its word, on its side, to the side's text. */
  lemma SideTextSnoc(script: seq<Edit<string>>, onLeft: bool)
    requires script != []
    ensures var init, e := script[..|script| - 1], script[|script| - 1];
      Concat(Side(script, onLeft)) == Concat(Side(init, onLeft))
        + (if onLeft && !e.Right? then e.left else if !onLeft && !e.Left? then e.right else [])
  {
    var init, e := script[..|script| - 1], script[|script| - 1];
    var side := Side(init, onLeft);
    if onLeft && !e.Right? {
      assert Side(script, onLeft) == side + [e.left];
      ConcatAppend(side, [e.left]);
      assert Concat([e.left]) == Concat([]) + e.left;
    } else if !onLeft && !e.Left? {
      assert Side(script, onLeft) == side + [e.right];
      ConcatAppend(side, [e.right]);
      assert Concat([e.right]) == Concat([]) + e.right;
    } else {
      assert Side(script, onLeft) == side;
    }
  }

  /** A word only on the left is pushed, highlighted, onto the left side alone. */
  lemma LeftWordSnoc(script: seq<Edit<string>>, l: string)
    ensures var next := script + [Left(l)];
      && SideRuns(next, true) == PushRun(SideRuns(script, true), |l|, true)
      && Concat(Side(next, true)) == Concat(Side(script, true)) + l
      && SideBytes(next, true) == SideBytes(script, true) + ByteLen(l)
      && SideRuns(next, false) == SideRuns(script, false)
      && Concat(Side(next, false)) == Concat(Side(script, false))
      && SideBytes(next, false) == SideBytes(script, false)
  {
    var next := script + [Left(l)];
    assert next[..|next| - 1] == script;
    SideTextSnoc(next, true);
    SideTextSnoc(next, false);
    assert Concat(Side(script, false)) + [] == Concat(Side(script, false));
  }

  /** A word only on the right is pushed, highlighted, onto the right side alone. */
  lemma RightWordSnoc(script: seq<Edit<string>>, r: string)
    ensures var next := script + [Right(r)];
      && SideRuns(next, false) == PushRun(SideRuns(script, false), |r|, true)
      && Concat(Side(next, false)) == Concat(Side(script, false)) + r
      && SideBytes(next, false) == SideBytes(script, false) + ByteLen(r)
      && SideRuns(next, true) == SideRuns(script, true)
      && Concat(Side(next, true)) == Concat(Side(script, true))
      && SideBytes(next, true) == SideBytes(script, true)
  {
    var next := script + [Right(r)];
    assert next[..|next| - 1] == script;
    SideTextSnoc(next, true);
    SideTextSnoc(next, false);
    assert Concat(Side(script, true)) + [] == Concat(Side(script, true));
  }

  /** A word on both sides is pushed, not highlighted, onto each side. */
  lemma BothWordsSnoc(script: seq<Edit<string>>, l: string, r: string)
    ensures var next := script + [Both(l, r)];
      && SideRuns(next, true) == PushRun(SideRuns(script, true), |l|, false)
      && Concat(Side(next, true)) == Concat(Side(script, true)) + l
      && SideBytes(next, true) == SideBytes(script, true)
      && SideRuns(next, false) == PushRun(SideRuns(script, false), |r|, false)
      && Concat(Side(next, false)) == Concat(Side(script, false)) + r
      && SideBytes(next, false) == SideBytes(script, false)
  {
    var next := script + [Both(l, r)];
    assert next[..|next| - 1] == script;
    SideTextSnoc(next, true);
    SideTextSnoc(next, false);
  }

  /**
   * A side's runs, laid over that side's text, cover it exactly, and their
   * highlighted bytes are the bytes of the words that are only on that side.
   */
  lemma {:induction false} SideCovers(script: seq<Edit<string>>, onLeft: bool)
    ensures Covers(SideRuns(script, onLeft), Concat(Side(script, onLeft)), SideBytes(script, onLeft))
  {
    if script != [] {
      var init, e := script[..|script| - 1], script[|script| - 1];
      assert script == init + [e];
      SideCovers(init, onLeft);
      SideCoversStep(init, e, onLeft);
    }
  }

  lemma SideCoversStep(script: seq<Edit<string>>, e: Edit<string>, onLeft: bool)
    requires Covers(SideRuns(script, onLeft), Concat(Side(script, onLeft)), SideBytes(script, onLeft))
    ensures Covers(SideRuns(script + [e], onLeft), Concat(Side(script + [e], onLeft)), SideBytes(script + [e], onLeft))
  {
    var runs, text, total := SideRuns(script, onLeft), Concat(Side(script, onLeft)), SideBytes(script, onLeft);
    match e
    case Left(l) =>
      LeftWordSnoc(script, l);
      if onLeft { PushRunCovers(runs, text, total, l, true); }
    case Right(r) =>
      RightWordSnoc(script, r);
      if !onLeft { PushRunCovers(runs, text, total, r, true); }
    case Both(l, r) =>
      BothWordsSnoc(script, l, r);
      if onLeft { PushRunCovers(runs, text, total, l, false); }
      else { PushRunCovers(runs, text, total, r, false); }
  }

  /** `h` holds what pushing the edits of `script` onto one side leaves there. */
  ghost predicate Built(h: Highlighter, script: seq<Edit<string>>, onLeft: bool)
    reads h
  {
    && h.Valid()
    && h.ranges == SideRuns(script, onLeft)
    && h.text == Concat(Side(script, onLeft))
    && h.totalHighlighted == SideBytes(script, onLeft)
  }

  /** One step of the loop of `SingleLineDiff::new`: the edit goes onto the highlighter of its side, or of both. */
  method PushOne(lh: Highlighter, rh: Highlighter, script: seq<Edit<string>>, e: Edit<string>)
    requires lh != rh && Built(lh, script, true) && Built(rh, script, false)
    modifies lh, rh
    ensures Built(lh, script + [e], true) && Built(rh, script + [e], false)
  {
    match e
    case Left(l) =>
      LeftWordSnoc(script, l);
      lh.Push(l, true);
    case Right(r) =>
      RightWordSnoc(script, r);
      rh.Push(r, true);
    case Both(l, r) =>
      BothWordsSnoc(script, l, r);
      lh.Push(l, false);
      rh.Push(r, false);
  }

  /**
   * The loop of `SingleLineDiff::new`: every edit goes onto the highlighter
   * of its side (both, for `Both`), each word with its own length.
   */
  method PushEdits(lh: Highlighter, rh: Highlighter, diffs: seq<Edit<string>>)
    requires lh != rh && lh.Valid() && rh.Valid() && lh.ranges == [] && rh.ranges == []
    requires lh.text == [] && rh.text == [] && lh.totalHighlighted == 0 && rh.totalHighlighted == 0
    modifies lh, rh
    ensures lh.Valid() && rh.Valid()
    ensures lh.ranges == SideRuns(diffs, true) && rh.ranges == SideRuns(diffs, false)
    ensures lh.text == Concat(Side(diffs, true)) && rh.text == Concat(Side(diffs, false))
    ensures lh.totalHighlighted == SideBytes(diffs, true) && rh.totalHighlighted == SideBytes(diffs, false)
  {
    for i := 0 to |diffs|
      invariant Built(lh, diffs[..i], true) && Built(rh, diffs[..i], false)
    {
      TakeSnoc(diffs, i);
      PushOne(lh, rh, diffs[..i], diffs[i]);
    }
    assert diffs[..|diffs|] == diffs;
  }

  /** `SingleLineDiff`: a word diff of two lines, held as one highlighter per side. */
  class SingleLineDiff {
    const left: string
    const right: string
    const leftHighlights: Highlighter
    const rightHighlights: Highlighter

    ghost predicate Valid()
      reads this, leftHighlights, rightHighlights
    {
      && leftHighlights.Valid() && rightHighlights.Valid()
      && leftHighlights.text == left && rightHighlights.text == right
    }

    /**
     * `SingleLineDiff::new`: split both lines into words, diff the words and
     * push every edit onto the highlighter of its side.
     */
    constructor (t: CharTable, differ: Differ, styles: WordStyles, left: string, right: string)
      requires IsDiffer(differ)
      ensures Valid()
      ensures this.left == left && this.right == right
      ensures var script := differ(Words(t, left), Words(t, right));
        && leftHighlights.ranges == SideRuns(script, true)
        && rightHighlights.ranges == SideRuns(script, false)
        && leftHighlights.totalHighlighted == SideBytes(script, true)
        && rightHighlights.totalHighlighted == SideBytes(script, false)
      ensures leftHighlights.normal == styles.leftNormal && leftHighlights.highlight == styles.leftHighlight
      ensures rightHighlights.normal == styles.rightNormal && rightHighlights.highlight == styles.rightHighlight
      ensures fresh(leftHighlights) && fresh(rightHighlights)
    {
      var leftWords := SplitWords(t, left);
      var rightWords := SplitWords(t, right);
      var diffs := differ(leftWords, rightWords);
      var lh := new Highlighter(styles.leftNormal, styles.leftHighlight);
      var rh := new Highlighter(styles.rightNormal, styles.rightHighlight);
      PushEdits(lh, rh, diffs);
      SideRunsCover(diffs, true);
      SideRunsCover(diffs, false);
      WordsConcat(t, left);
      WordsConcat(t, right);
      this.left := left;
      this.right := right;
      leftHighlights := lh;
      rightHighlights := rh;
    }

    /** `write_left`: the left line in its highlighting; with the styles stripped it is the left line. */
    method WriteLeft() returns (pieces: seq<Styled>)
      requires Valid()
      ensures pieces == HighlightedPieces(leftHighlights.ranges, left, leftHighlights.normal, leftHighlights.highlight)
      ensures PlainText(pieces) == left
    {
      pieces := leftHighlights.WriteHighlighted(left);
      HighlightedPiecesSpec(leftHighlights.ranges, left, leftHighlights.normal, leftHighlights.highlight);
    }

    /** `write_right`: the right line in its highlighting; with the styles stripped it is the right line. */
    method WriteRight() returns (pieces: seq<Styled>)
      requires Valid()
      ensures pieces == HighlightedPieces(rightHighlights.ranges, right, rightHighlights.normal, rightHighlights.highlight)
      ensures PlainText(pieces) == right
    {
      pieces := rightHighlights.WriteHighlighted(right);
      HighlightedPiecesSpec(rightHighlights.ranges, right, rightHighlights.normal, rightHighlights.highlight);
    }
  }

  // ---------------------------------------------------------------------
  // Regrouping a line diff

  /** One entry of a line diff as it is rendered. */
  datatype LineDiff =
    | LeftOnly(line: string)
    | RightOnly(line: string)
    | Different(leftLine: string, rightLine: string)
    | Equal(line: string)

  /**
   * Reference definition: the item at `i` is a lone removed line directly
   * followed by a lone added line, so the two are shown as one `Different`
   * entry and diffed word by word.
   */
  predicate Paired(items: seq<Edit<string>>, i: int) {
    && 0 <= i && i + 1 < |items|
    && items[i].Left? && items[i + 1].Right?
    && (i == 0 || !items[i - 1].Left?)
    && (i + 2 == |items| || !items[i + 2].Right?)
  }

  /** The entries the item at `i` contributes: a paired right line contributes nothing of its own. */
  function EntriesAt(items: seq<Edit<string>>, i: nat): seq<LineDiff>
    requires i < |items|
  {
    match items[i]
    case Left(l) => if Paired(items, i) then [Different(l, items[i + 1].right)] else [LeftOnly(l)]
    case Right(r) => if Paired(items, i - 1) then [] else [RightOnly(r)]
    case Both(l, _) => [Equal(l)]
  }

  /** The entries of the first `n` items. */
  function Regrouped(items: seq<Edit<string>>, n: nat): seq<LineDiff>
    requires n <= |items|
  {
    if n == 0 then [] else Regrouped(items, n - 1) + EntriesAt(items, n - 1)
  }

  function Regroup(items: seq<Edit<string>>): seq<LineDiff> {
    Regrouped(items, |items|)
  }

  /** The number of `Left` items at the end of `items`: the `seen_left` counter of `from_diff`. */
  function TrailingLefts(items: seq<Edit<string>>): nat {
    if items == [] || !items[|items| - 1].Left? then 0 else 1 + TrailingLefts(items[..|items| - 1])
  }

  /** An entry depends only on the items at most two places away, so growing the script leaves early entries alone. */
  lemma {:induction false} RegroupedStable(p: seq<Edit<string>>, q: seq<Edit<string>>, n: nat)
    requires |p| <= |q| && q[..|p|] == p && n + 2 <= |p|
    ensures Regrouped(p, n) == Regrouped(q, n)
  {
    if n > 0 {
      RegroupedStable(p, q, n - 1);
      var i := n - 1;
      assert p[i] == q[i] && p[i + 1] == q[i + 1] && p[i + 2] == q[i + 2];
      assert i > 0 ==> p[i - 1] == q[i - 1];
      assert Paired(p, i) == Paired(q, i);
      assert Paired(p, i - 1) == Paired(q, i - 1);
    }
  }

  /** The last entry of the regrouping, read off the last item (and the one before it). */
  lemma {:induction false} RegroupLast(p: seq<Edit<string>>)
    requires p != []
    ensures var out := Regroup(p); var k := |p|;
      && out != []
      && match p[k - 1]
         case Left(l) => out[|out| - 1] == LeftOnly(l)
         case Both(l, _) => out[|out| - 1] == Equal(l)
         case Right(r) =>
           if Paired(p, k - 2) then out[|out| - 1] == Different(p[k - 2].left, r)
           else out[|out| - 1] == RightOnly(r)
  {
    var k := |p|;
    if p[k - 1].Right? && Paired(p, k - 2) {
      assert EntriesAt(p, k - 1) == [];
      assert Regroup(p) == Regrouped(p, k - 1);
      assert Regrouped(p, k - 1) == Regrouped(p, k - 2) + EntriesAt(p, k - 2);
    }
  }

  /**
   * What a right line does to the entries so far: it completes a lone left
   * line into a `Different` entry, or splits a `Different` entry back into
   * separate lines, or is added on its own.
   */
  function RegroupRight(out: seq<LineDiff>, seenLeft: nat, r: string): seq<LineDiff> {
    if out != [] && out[|out| - 1].LeftOnly? && seenLeft == 1 then
      out[..|out| - 1] + [Different(out[|out| - 1].line, r)]
    else if out != [] && out[|out| - 1].Different? then
      out[..|out| - 1] + [LeftOnly(out[|out| - 1].leftLine), RightOnly(out[|out| - 1].rightLine), RightOnly(r)]
    else
      out + [RightOnly(r)]
  }

  lemma {:induction false} RegroupedTail(items: seq<Edit<string>>, n: nat)
    requires 2 <= n <= |items|
    ensures Regrouped(items, n) == Regrouped(items, n - 2) + EntriesAt(items, n - 2) + EntriesAt(items, n - 1)
  {
  }

  /**
   * The regrouping of one more item, compared with that of the items before:
   * what the loop of `from_diff` does to its output for that item.
   */
  lemma {:induction false} RegroupSnoc(p: seq<Edit<string>>, x: Edit<string>)
    ensures x.Left? ==> Regroup(p + [x]) == Regroup(p) + [LeftOnly(x.left)]
    ensures x.Both? ==> Regroup(p + [x]) == Regroup(p) + [Equal(x.left)]
    ensures x.Right? ==> Regroup(p + [x]) == RegroupRight(Regroup(p), TrailingLefts(p), x.right)
  {
    var q := p + [x];
    if |p| >= 2 {
      RegroupSnocLong(p, x);
    } else if |p| == 1 {
      RegroupedTail(q, 2);
      assert Regrouped(p, 1) == Regrouped(p, 0) + EntriesAt(p, 0);
      assert q[0] == p[0];
      assert Regrouped(q, 0) == [];
      assert TrailingLefts(p) == (if p[0].Left? then 1 else 0) by {
        assert p[..0] == [];
      }
      if x.Right? && p[0].Left? {
        assert Paired(q, 0);
      }
    } else {
      assert Regrouped(q, 1) == Regrouped(q, 0) + EntriesAt(q, 0);
    }
  }

  /** One more item can change only the entries of the last two items, besides adding its own. */
  lemma {:induction false} RegroupFrame(p: seq<Edit<string>>, x: Edit<string>)
    requires |p| >= 2
    ensures var q := p + [x]; var k := |p|;
      && Regroup(p) == Regrouped(p, k - 2) + EntriesAt(p, k - 2) + EntriesAt(p, k - 1)
      && Regroup(q) == Regrouped(p, k - 2) + EntriesAt(q, k - 2) + EntriesAt(q, k - 1) + EntriesAt(q, k)
  {
    var q := p + [x];
    var k := |p|;
    assert q[..k] == p;
    RegroupedStable(p, q, k - 2);
    RegroupedTail(p, k);
    RegroupedTail(q, k);
  }

  lemma RegroupSnocLong(p: seq<Edit<string>>, x: Edit<string>)
    requires |p| >= 2
    ensures x.Left? ==> Regroup(p + [x]) == Regroup(p) + [LeftOnly(x.left)]
    ensures x.Both? ==> Regroup(p + [x]) == Regroup(p) + [Equal(x.left)]
    ensures x.Right? ==> Regroup(p + [x]) == RegroupRight(Regroup(p), TrailingLefts(p), x.right)
  {
    if x.Right? {
      RegroupSnocRight(p, x);
    } else {
      RegroupSnocOther(p, x);
    }
  }

  /** A left or unchanged line adds its own entry and changes none before it. */
  lemma RegroupSnocOther(p: seq<Edit<string>>, x: Edit<string>)
    requires |p| >= 2 && !x.Right?
    ensures x.Left? ==> Regroup(p + [x]) == Regroup(p) + [LeftOnly(x.left)]
    ensures x.Both? ==> Regroup(p + [x]) == Regroup(p) + [Equal(x.left)]
  {
    var q := p + [x];
    var k := |p|;
    assert q[k - 2] == p[k - 2] && q[k - 1] == p[k - 1];
    assert k >= 3 ==> q[k - 3] == p[k - 3];
    RegroupFrame(p, x);
    assert Paired(q, k - 1) == Paired(p, k - 1);
    assert Paired(q, k - 2) == Paired(p, k - 2);
    assert Paired(q, k - 3) == Paired(p, k - 3);
    EntriesAtAgree(p, q, k - 1);
    EntriesAtAgree(p, q, k - 2);
  }

  /** There is exactly one trailing left line when the last item is a left line and the one before is not. */
  lemma TrailingLeftsOne(p: seq<Edit<string>>)
    requires |p| >= 2
    ensures TrailingLefts(p) == 1 <==> p[|p| - 1].Left? && !p[|p| - 2].Left?
  {
    assert p[..|p| - 1][..|p| - 2] == p[..|p| - 2];
  }

  /** An entry is the same in two scripts that agree on the item, on its pairing and on its partner. */
  lemma EntriesAtAgree(p: seq<Edit<string>>, q: seq<Edit<string>>, i: nat)
    requires i < |p| && i < |q| && p[i] == q[i]
    requires Paired(p, i) == Paired(q, i) && Paired(p, i - 1) == Paired(q, i - 1)
    requires Paired(p, i) ==> p[i + 1] == q[i + 1]
    ensures EntriesAt(p, i) == EntriesAt(q, i)
  {
  }

  /** A right line completes, splits, or follows the last entry. */
  lemma RegroupSnocRight(p: seq<Edit<string>>, x: Edit<string>)
    requires |p| >= 2 && x.Right?
    ensures Regroup(p + [x]) == RegroupRight(Regroup(p), TrailingLefts(p), x.right)
  {
    var q := p + [x];
    var k := |p|;
    if Paired(q, k - 1) {
      RightCompletes(p, x);
    } else if Paired(p, k - 2) {
      RightSplits(p, x);
    } else {
      RightAlone(p, x);
    }
  }

  /** A right line directly after a lone left line completes it into a `Different` entry. */
  lemma RightCompletes(p: seq<Edit<string>>, x: Edit<string>)
    requires |p| >= 2 && x.Right? && Paired(p + [x], |p| - 1)
    ensures Regroup(p + [x]) == RegroupRight(Regroup(p), TrailingLefts(p), x.right)
  {
    RightCompletesEntries(p, x);
    var q := p + [x];
    var k := |p|;
    assert q[k - 2] == p[k - 2] && q[k - 1] == p[k - 1];
    LastEntryKind(p);
    TrailingLeftsOne(p);
    RegroupRightCompletes(Regroup(p), x.right);
  }

  lemma RightCompletesEntries(p: seq<Edit<string>>, x: Edit<string>)
    requires |p| >= 2 && x.Right? && Paired(p + [x], |p| - 1)
    ensures Regroup(p) != []
    ensures Regroup(p + [x]) == Regroup(p)[..|Regroup(p)| - 1] + [Different(p[|p| - 1].left, x.right)]
  {
    var q := p + [x];
    var k := |p|;
    assert q[k - 2] == p[k - 2] && q[k - 1] == p[k - 1];
    assert k >= 3 ==> q[k - 3] == p[k - 3];
    RegroupFrame(p, x);
    var R := Regrouped(p, k - 2) + EntriesAt(p, k - 2);
    assert EntriesAt(p, k - 1) == [LeftOnly(p[k - 1].left)];
    assert Regroup(p) == R + [LeftOnly(p[k - 1].left)];
    assert Paired(q, k - 2) == Paired(p, k - 2);
    assert Paired(q, k - 3) == Paired(p, k - 3);
    EntriesAtAgree(p, q, k - 2);
    assert EntriesAt(q, k - 1) == [Different(p[k - 1].left, x.right)];
    assert EntriesAt(q, k) == [];
  }

  /** A right line after a lone left line, with one left line seen, completes it. */
  lemma RegroupRightCompletes(out: seq<LineDiff>, r: string)
    requires out != [] && out[|out| - 1].LeftOnly?
    ensures RegroupRight(out, 1, r) == out[..|out| - 1] + [Different(out[|out| - 1].line, r)]
  {
  }

  /** A right line after a `Different` entry splits it back into separate lines. */
  lemma RightSplits(p: seq<Edit<string>>, x: Edit<string>)
    requires |p| >= 2 && x.Right? && !Paired(p + [x], |p| - 1) && Paired(p, |p| - 2)
    ensures Regroup(p + [x]) == RegroupRight(Regroup(p), TrailingLefts(p), x.right)
  {
    RightSplitsEntries(p, x);
    LastEntryKind(p);
    RegroupRightSplits(Regroup(p), TrailingLefts(p), x.right);
  }

  lemma RightSplitsEntries(p: seq<Edit<string>>, x: Edit<string>)
    requires |p| >= 2 && x.Right? && !Paired(p + [x], |p| - 1) && Paired(p, |p| - 2)
    ensures Regroup(p) != [] && Regroup(p)[|Regroup(p)| - 1] == Different(p[|p| - 2].left, p[|p| - 1].right)
    ensures Regroup(p + [x]) == Regroup(p)[..|Regroup(p)| - 1]
      + [LeftOnly(p[|p| - 2].left), RightOnly(p[|p| - 1].right), RightOnly(x.right)]
  {
    var q := p + [x];
    var k := |p|;
    assert q[k - 2] == p[k - 2] && q[k - 1] == p[k - 1];
    RegroupFrame(p, x);
    var R := Regrouped(p, k - 2);
    assert EntriesAt(p, k - 1) == [];
    assert EntriesAt(p, k - 2) == [Different(p[k - 2].left, p[k - 1].right)];
    assert Regroup(p) == R + [Different(p[k - 2].left, p[k - 1].right)];
    assert EntriesAt(q, k - 2) == [LeftOnly(p[k - 2].left)];
    assert EntriesAt(q, k - 1) == [RightOnly(p[k - 1].right)];
    assert EntriesAt(q, k) == [RightOnly(x.right)];
  }

  /** A right line after a `Different` entry splits it. */
  lemma RegroupRightSplits(out: seq<LineDiff>, seenLeft: nat, r: string)
    requires out != [] && out[|out| - 1].Different?
    ensures RegroupRight(out, seenLeft, r)
      == out[..|out| - 1] + [LeftOnly(out[|out| - 1].leftLine), RightOnly(out[|out| - 1].rightLine), RightOnly(r)]
  {
  }

  /** Otherwise a right line is an entry of its own. */
  lemma RightAlone(p: seq<Edit<string>>, x: Edit<string>)
    requires |p| >= 2 && x.Right? && !Paired(p + [x], |p| - 1) && !Paired(p, |p| - 2)
    ensures Regroup(p + [x]) == RegroupRight(Regroup(p), TrailingLefts(p), x.right)
  {
    RightAloneEntries(p, x);
    RightAloneRule(p, x);
  }

  lemma RightAloneEntries(p: seq<Edit<string>>, x: Edit<string>)
    requires |p| >= 2 && x.Right? && !Paired(p + [x], |p| - 1) && !Paired(p, |p| - 2)
    ensures Regroup(p + [x]) == Regroup(p) + [RightOnly(x.right)]
  {
    var q := p + [x];
    var k := |p|;
    assert q[k - 2] == p[k - 2] && q[k - 1] == p[k - 1];
    assert k >= 3 ==> q[k - 3] == p[k - 3];
    RegroupFrame(p, x);
    assert Paired(q, k - 2) == Paired(p, k - 2);
    assert Paired(q, k - 3) == Paired(p, k - 3);
    EntriesAtAgree(p, q, k - 1);
    EntriesAtAgree(p, q, k - 2);
    assert EntriesAt(q, k) == [RightOnly(x.right)];
  }

  lemma RightAloneRule(p: seq<Edit<string>>, x: Edit<string>)
    requires |p| >= 2 && x.Right? && !Paired(p + [x], |p| - 1) && !Paired(p, |p| - 2)
    ensures RegroupRight(Regroup(p), TrailingLefts(p), x.right) == Regroup(p) + [RightOnly(x.right)]
  {
    var q := p + [x];
    var k := |p|;
    LastEntryKind(p);
    TrailingLeftsOne(p);
    assert q[k - 2] == p[k - 2] && q[k - 1] == p[k - 1];
    assert p[k - 1].Left? && !p[k - 2].Left? ==> Paired(q, k - 1);
    RegroupRightPlain(Regroup(p), TrailingLefts(p), x.right);
  }

  /** The last entry is a lone left line exactly when the last item is a left line, and a `Different` entry only after a pair. */
  lemma LastEntryKind(p: seq<Edit<string>>)
    requires |p| >= 2
    ensures Regroup(p) != []
    ensures Regroup(p)[|Regroup(p)| - 1].LeftOnly? <==> p[|p| - 1].Left?
    ensures p[|p| - 1].Left? ==> Regroup(p)[|Regroup(p)| - 1] == LeftOnly(p[|p| - 1].left)
    ensures Regroup(p)[|Regroup(p)| - 1].Different? ==> Paired(p, |p| - 2)
  {
    RegroupLast(p);
  }

  /** A right line that neither completes nor splits the last entry is added on its own. */
  lemma RegroupRightPlain(out: seq<LineDiff>, seenLeft: nat, r: string)
    requires !(out != [] && out[|out| - 1].LeftOnly? && seenLeft == 1)
    requires !(out != [] && out[|out| - 1].Different?)
    ensures RegroupRight(out, seenLeft, r) == out + [RightOnly(r)]
  {
  }

  /**
   * `LineDiff::from_diff`: one entry per item, except that a lone removed
   * line directly followed by a lone added line becomes one `Different`
   * entry.
   */
  method FromDiff(diffs: seq<Edit<string>>) returns (output: seq<LineDiff>)
    ensures output == Regroup(diffs)
  {
    output := [];
    var seenLeft := 0;
    for k := 0 to |diffs|
      invariant output == Regroup(diffs[..k])
      invariant seenLeft == TrailingLefts(diffs[..k])
    {
      var item := diffs[k];
      FromDiffStep(diffs, k);
      match item {
        case Left(l) =>
          output := output + [LeftOnly(l)];
          seenLeft := seenLeft + 1;
        case Right(r) =>
          output := PushRight(output, seenLeft, r);
          seenLeft := 0;
        case Both(l, _) =>
          output := output + [Equal(l)];
          seenLeft := 0;
      }
    }
    assert diffs[..|diffs|] == diffs;
  }

  /** One more item of the loop of `from_diff`. */
  lemma FromDiffStep(diffs: seq<Edit<string>>, k: nat)
    requires k < |diffs|
    ensures diffs[..k + 1] == diffs[..k] + [diffs[k]]
    ensures TrailingLefts(diffs[..k + 1]) == if diffs[k].Left? then TrailingLefts(diffs[..k]) + 1 else 0
    ensures diffs[k].Left? ==> Regroup(diffs[..k + 1]) == Regroup(diffs[..k]) + [LeftOnly(diffs[k].left)]
    ensures diffs[k].Both? ==> Regroup(diffs[..k + 1]) == Regroup(diffs[..k]) + [Equal(diffs[k].left)]
    ensures diffs[k].Right? ==> Regroup(diffs[..k + 1]) == RegroupRight(Regroup(diffs[..k]), TrailingLefts(diffs[..k]), diffs[k].right)
  {
    assert diffs[..k + 1] == diffs[..k] + [diffs[k]];
    assert diffs[..k + 1][..k] == diffs[..k];
    RegroupSnoc(diffs[..k], diffs[k]);
  }

  /** The right-line case of the loop of `from_diff`. */
  method PushRight(output: seq<LineDiff>, seenLeft: nat, r: string) returns (next: seq<LineDiff>)
    ensures next == RegroupRight(output, seenLeft, r)
  {
    if output != [] && output[|output| - 1].LeftOnly? && seenLeft == 1 {
      next := output[..|output| - 1] + [Different(output[|output| - 1].line, r)];
    } else if output != [] && output[|output| - 1].Different? {
      var last := output[|output| - 1];
      next := output[..|output| - 1] + [LeftOnly(last.leftLine), RightOnly(last.rightLine)];
      next := next + [RightOnly(r)];
    } else {
      next := output + [RightOnly(r)];
    }
  }

  /** The lines an entry shows on the left: its left line, if it has one. */
  function LeftLines(out: seq<LineDiff>): seq<string> {
    if out == [] then []
    else
      var e := out[|out| - 1];
      LeftLines(out[..|out| - 1]) +
        match e
        case LeftOnly(l) => [l]
        case RightOnly(_) => []
        case Different(l, _) => [l]
        case Equal(l) => [l]
  }

  /** The lines an entry shows on the right: its right line, if it has one (an `Equal` line is on both sides). */
  function RightLines(out: seq<LineDiff>): seq<string> {
    if out == [] then []
    else
      var e := out[|out| - 1];
      RightLines(out[..|out| - 1]) +
        match e
        case LeftOnly(_) => []
        case RightOnly(r) => [r]
        case Different(_, r) => [r]
        case Equal(l) => [l]
  }

  lemma {:induction false} LeftLinesAppend(a: seq<LineDiff>, b: seq<LineDiff>)
    ensures LeftLines(a + b) == LeftLines(a) + LeftLines(b)
  {
    if b == [] {
      assert a + b == a;
    } else {
      assert (a + b)[..|a + b| - 1] == a + b[..|b| - 1];
      LeftLinesAppend(a, b[..|b| - 1]);
    }
  }

  lemma {:induction false} RightLinesAppend(a: seq<LineDiff>, b: seq<LineDiff>)
    ensures RightLines(a + b) == RightLines(a) + RightLines(b)
  {
    if b == [] {
      assert a + b == a;
    } else {
      assert (a + b)[..|a + b| - 1] == a + b[..|b| - 1];
      RightLinesAppend(a, b[..|b| - 1]);
    }
  }

  /** The left lines of the regrouped first `n` items are the left lines of those items. */
  lemma {:induction false} RegroupedLeftLines(items: seq<Edit<string>>, n: nat)
    requires n <= |items|
    ensures LeftLines(Regrouped(items, n)) == LeftSide(items[..n])
  {
    if n > 0 {
      RegroupedLeftLines(items, n - 1);
      LeftLinesAppend(Regrouped(items, n - 1), EntriesAt(items, n - 1));
      assert items[..n][..n - 1] == items[..n - 1];
      EntryLeftLines(items, n - 1);
    }
  }

  /** The left lines of one item's entries: its left line, unless it is a right line. */
  lemma EntryLeftLines(items: seq<Edit<string>>, i: nat)
    requires i < |items|
    ensures LeftLines(EntriesAt(items, i)) == if items[i].Right? then [] else [items[i].left]
  {
    var e := EntriesAt(items, i);
    if e != [] {
      assert e[..0] == [];
    }
  }

  /** Every `Both` item pairs equal lines, as the line diff guarantees. */
  predicate BothEqual(items: seq<Edit<string>>) {
    items == [] || (BothEqual(items[..|items| - 1]) && (items[|items| - 1].Both? ==> items[|items| - 1].left == items[|items| - 1].right))
  }

  /** A right line already shown by the `Different` entry before it, as a list of at most one line. */
  function PairedRight(items: seq<Edit<string>>, i: int): seq<string>
    requires i + 1 <= |items|
  {
    if Paired(items, i) then [items[i + 1].right] else []
  }

  /** The right lines of one item's entries, accounting for a right line its predecessor's entry already showed. */
  lemma {:induction false} EntryRightLines(items: seq<Edit<string>>, i: nat)
    requires i < |items|
    requires items[i].Both? ==> items[i].left == items[i].right
    ensures PairedRight(items, i - 1) + RightLines(EntriesAt(items, i)) == RightSide([items[i]]) + PairedRight(items, i)
  {
    var e := EntriesAt(items, i);
    assert [items[i]][..0] == [];
    match items[i]
    case Left(l) =>
      assert !Paired(items, i - 1);
      if Paired(items, i) {
        assert RightLines(e) == RightLines([]) + [items[i + 1].right];
      } else {
        assert RightLines(e) == RightLines([]) + [];
      }
    case Right(r) =>
      assert !Paired(items, i);
      if !Paired(items, i - 1) {
        assert RightLines(e) == RightLines([]) + [r];
      }
    case Both(l, r) =>
      assert !Paired(items, i) && !Paired(items, i - 1);
      assert RightLines(e) == RightLines([]) + [l];
  }

  /**
   * The right lines of the regrouped first `n` items are the right lines of
   * those items, plus the right line of item `n` when it is paired with the
   * item before it (the `Different` entry already shows it).
   */
  lemma {:induction false} RegroupedRightLines(items: seq<Edit<string>>, n: nat)
    requires n <= |items| && BothEqual(items[..n])
    ensures RightLines(Regrouped(items, n)) == RightSide(items[..n]) + PairedRight(items, n - 1)
  {
    if n > 0 {
      var prev := Regrouped(items, n - 1);
      var e := EntriesAt(items, n - 1);
      assert items[..n][..n - 1] == items[..n - 1];
      RegroupedRightLines(items, n - 1);
      RightLinesAppend(prev, e);
      EntryRightLines(items, n - 1);
      var x := items[n - 1];
      assert RightSide([x]) == (if x.Left? then [] else [x.right]) by {
        assert [x][..0] == [];
      }
      assert RightSide(items[..n]) == RightSide(items[..n - 1]) + RightSide([x]);
      assert RightLines(Regrouped(items, n)) == RightLines(prev) + RightLines(e);
      var A, B, C, D, E := RightSide(items[..n - 1]), PairedRight(items, n - 2), RightLines(e), RightSide([x]), PairedRight(items, n - 1);
      assert B + C == D + E;
      assert RightLines(prev) == A + B;
      SeqAssoc(A, B, C);
      SeqAssoc(A, D, E);
      assert RightLines(Regrouped(items, n)) == (A + B) + C;
      assert (A + B) + C == (A + D) + E;
      assert RightSide(items[..n]) == A + D;
    }
  }

  /**
   * Regrouping preserves both sides: the left lines of the entries are the
   * left lines of the script, and the right lines the right lines.
   */
  lemma RegroupSides(items: seq<Edit<string>>)
    requires BothEqual(items)
    ensures LeftLines(Regroup(items)) == LeftSide(items)
    ensures RightLines(Regroup(items)) == RightSide(items)
  {
    RegroupedLeftLines(items, |items|);
    assert items[..|items|] == items;
    RegroupedRightLines(items, |items|);
  }

  /** The shapes of `from_diff`'s output on small scripts. */
  lemma RegroupExamples(a: string, b: string, c: string, x: string)
    ensures Regroup([Left(a), Right(b)]) == [Different(a, b)]
    ensures Regroup([Left(a), Right(b), Right(c)]) == [LeftOnly(a), RightOnly(b), RightOnly(c)]
    ensures Regroup([Left(a), Left(b), Right(c)]) == [LeftOnly(a), LeftOnly(b), RightOnly(c)]
    ensures Regroup([Both(x, x), Left(a), Right(b), Both(x, x)]) == [Equal(x), Different(a, b), Equal(x)]
    ensures Regroup([Right(b), Left(a)]) == [RightOnly(b), LeftOnly(a)]
  {
    var s1: seq<Edit<string>> := [Left(a), Right(b)];
    assert Paired(s1, 0);
    assert Regrouped(s1, 1) == [Different(a, b)];
    var s2: seq<Edit<string>> := [Left(a), Right(b), Right(c)];
    assert !Paired(s2, 0) && !Paired(s2, 1);
    assert Regrouped(s2, 1) == [LeftOnly(a)];
    assert Regrouped(s2, 2) == [LeftOnly(a), RightOnly(b)];
    var s3: seq<Edit<string>> := [Left(a), Left(b), Right(c)];
    assert !Paired(s3, 0) && !Paired(s3, 1);
    assert Regrouped(s3, 1) == [LeftOnly(a)];
    assert Regrouped(s3, 2) == [LeftOnly(a), LeftOnly(b)];
    var s4: seq<Edit<string>> := [Both(x, x), Left(a), Right(b), Both(x, x)];
    assert Paired(s4, 1);
    assert Regrouped(s4, 1) == [Equal(x)];
    assert Regrouped(s4, 2) == [Equal(x), Different(a, b)];
    assert Regrouped(s4, 3) == [Equal(x), Different(a, b)];
    var s5: seq<Edit<string>> := [Right(b), Left(a)];
    assert !Paired(s5, 0);
    assert Regrouped(s5, 1) == [RightOnly(b)];
  }

  // ---------------------------------------------------------------------
  // The multi-line diff

  /** The styles of whole lines in a multi-line diff: removed, added and unchanged lines. */
  datatype LineStyles = LineStyles(left: Style, right: Style, equal: Style)

  /** The pieces `write_interleaved` writes for one entry, each line ended by an unstyled line break. */
  function EntryPieces(t: CharTable, differ: Differ, words: WordStyles, lines: LineStyles, d: LineDiff): seq<Styled>
    requires IsDiffer(differ)
  {
    match d
    case LeftOnly(l) => [Styled("< " + l, lines.left), Styled("\n", PlainStyle)]
    case RightOnly(r) => [Styled("> " + r, lines.right), Styled("\n", PlainStyle)]
    case Equal(text) => [Styled("  ", PlainStyle), Styled(text, lines.equal), Styled("\n", PlainStyle)]
    case Different(l, r) =>
      [Styled("<", words.leftNormal), Styled(" ", PlainStyle)]
        + WordDiffPieces(t, differ, words, l, r, true)
        + [Styled("\n", PlainStyle), Styled(">", words.rightNormal), Styled(" ", PlainStyle)]
        + WordDiffPieces(t, differ, words, l, r, false)
        + [Styled("\n", PlainStyle)]
  }

  /** What `write_left` (or `write_right`) of the word diff of `l` and `r` writes; without styles it is that line. */
  function WordDiffPieces(t: CharTable, differ: Differ, words: WordStyles, l: string, r: string, onLeft: bool): (pieces: seq<Styled>)
    requires IsDiffer(differ)
    ensures PlainText(pieces) == if onLeft then l else r
  {
    var script := differ(Words(t, l), Words(t, r));
    WordsConcat(t, l);
    WordsConcat(t, r);
    SideRunsCover(script, onLeft);
    var runs := SideRuns(script, onLeft);
    if onLeft then
      HighlightedPiecesSpec(runs, l, words.leftNormal, words.leftHighlight);
      HighlightedPieces(runs, l, words.leftNormal, words.leftHighlight)
    else
      HighlightedPiecesSpec(runs, r, words.rightNormal, words.rightHighlight);
      HighlightedPieces(runs, r, words.rightNormal, words.rightHighlight)
  }

  /** The pieces of all entries, in order. */
  function InterleavedPieces(t: CharTable, differ: Differ, words: WordStyles, lines: LineStyles, diffs: seq<LineDiff>): seq<Styled>
    requires IsDiffer(differ)
  {
    if diffs == [] then []
    else InterleavedPieces(t, differ, words, lines, diffs[..|diffs| - 1]) + EntryPieces(t, differ, words, lines, diffs[|diffs| - 1])
  }

  /** Reference: the text lines of the interleaved diff, one per entry and two for a `Different` entry. */
  function InterleavedLines(diffs: seq<LineDiff>): seq<string> {
    if diffs == [] then [] else InterleavedLines(diffs[..|diffs| - 1]) + EntryLines(diffs[|diffs| - 1])
  }

  /** The text lines of one entry. */
  function EntryLines(d: LineDiff): seq<string> {
    match d
    case LeftOnly(l) => ["< " + l]
    case RightOnly(r) => ["> " + r]
    case Equal(text) => ["  " + text]
    case Different(l, r) => ["< " + l, "> " + r]
  }

  /** The number of `Different` entries. */
  function CountDifferent(diffs: seq<LineDiff>): nat {
    if diffs == [] then 0 else CountDifferent(diffs[..|diffs| - 1]) + (if diffs[|diffs| - 1].Different? then 1 else 0)
  }

  /** One line per entry, and a second one for every `Different` entry. */
  lemma {:induction false} InterleavedLinesCount(diffs: seq<LineDiff>)
    ensures |InterleavedLines(diffs)| == |diffs| + CountDifferent(diffs)
  {
    if diffs != [] {
      InterleavedLinesCount(diffs[..|diffs| - 1]);
    }
  }

  lemma PlainTextSmall(a: Styled, b: Styled, c: Styled)
    ensures PlainText([a]) == a.text
    ensures PlainText([a, b]) == a.text + b.text
    ensures PlainText([a, b, c]) == a.text + b.text + c.text
  {
    assert [a, b, c][..2] == [a, b];
    assert [a, b][..1] == [a];
    assert [a][..0] == [];
  }

  lemma TerminatedSmall(x: string, y: string)
    ensures Terminated([x]) == x + "\n"
    ensures Terminated([x, y]) == x + "\n" + y + "\n"
  {
    assert [x, y][..1] == [x];
    assert [x][..0] == [];
  }

  /** Without colours, a `Different` entry is its two lines, each with a line break. */
  lemma DifferentPiecesPlain(t: CharTable, differ: Differ, words: WordStyles, l: string, r: string)
    requires IsDiffer(differ)
    ensures PlainText(EntryPieces(t, differ, words, LineStyles(PlainStyle, PlainStyle, PlainStyle), Different(l, r)))
      == Terminated(["< " + l, "> " + r])
  {
    var lp := WordDiffPieces(t, differ, words, l, r, true);
    var rp := WordDiffPieces(t, differ, words, l, r, false);
    var p1: seq<Styled> := [Styled("<", words.leftNormal), Styled(" ", PlainStyle)];
    var p2: seq<Styled> := [Styled("\n", PlainStyle), Styled(">", words.rightNormal), Styled(" ", PlainStyle)];
    var p3: seq<Styled> := [Styled("\n", PlainStyle)];
    PlainTextSmall(p1[0], p1[1], p1[1]);
    PlainTextSmall(p2[0], p2[1], p2[2]);
    PlainTextSmall(p3[0], p3[0], p3[0]);
    PlainTextAppend(p1 + lp + p2 + rp, p3);
    PlainTextAppend(p1 + lp + p2, rp);
    PlainTextAppend(p1 + lp, p2);
    PlainTextAppend(p1, lp);
    TerminatedSmall("< " + l, "> " + r);
    assert "<" + " " == "< ";
    assert "\n" + ">" + " " == "\n> ";
    var A, B, C, D, E := "<" + " ", l, "\n" + ">" + " ", r, "\n";
    assert PlainText(p1 + lp + p2 + rp + p3) == A + B + C + D + E;
    assert C == "\n" + "> ";
    SeqAssoc("< " + l, "\n", "> ");
    SeqAssoc("< " + l + "\n", "> ", r);
    assert A + B + C == "< " + l + "\n" + "> ";
    assert A + B + C + D == ("< " + l + "\n") + ("> " + r);
  }

  /** Without colours, one entry's pieces are its text lines, each with a line break. */
  lemma EntryPiecesPlain(t: CharTable, differ: Differ, words: WordStyles, lines: LineStyles, d: LineDiff)
    requires IsDiffer(differ)
    ensures PaintAll(EntryPieces(t, differ, words, lines, d), false) == Terminated(EntryLines(d))
  {
    var pieces := EntryPieces(t, differ, words, lines, d);
    PaintAllPlain(pieces);
    match d
    case LeftOnly(l) =>
      PlainTextSmall(pieces[0], pieces[1], pieces[1]);
      TerminatedSmall("< " + l, "");
    case RightOnly(r) =>
      PlainTextSmall(pieces[0], pieces[1], pieces[1]);
      TerminatedSmall("> " + r, "");
    case Equal(text) =>
      PlainTextSmall(pieces[0], pieces[1], pieces[2]);
      TerminatedSmall("  " + text, "");
    case Different(l, r) =>
      DifferentPiecesPlain(t, differ, words, l, r);
      assert pieces == EntryPieces(t, differ, words, LineStyles(PlainStyle, PlainStyle, PlainStyle), Different(l, r));
  }

  /** Without colours, the pieces of all entries are the text lines, each with a line break. */
  lemma {:induction false} InterleavedPiecesPlain(t: CharTable, differ: Differ, words: WordStyles, lines: LineStyles, diffs: seq<LineDiff>)
    requires IsDiffer(differ)
    ensures PaintAll(InterleavedPieces(t, differ, words, lines, diffs), false) == Terminated(InterleavedLines(diffs))
  {
    if diffs != [] {
      var init := diffs[..|diffs| - 1];
      var d := diffs[|diffs| - 1];
      InterleavedPiecesPlain(t, differ, words, lines, init);
      EntryPiecesPlain(t, differ, words, lines, d);
      PaintTerminatedAppend(InterleavedPieces(t, differ, words, lines, init), EntryPieces(t, differ, words, lines, d),
        InterleavedLines(init), EntryLines(d));
    }
  }

  /** Two runs of pieces that each spell terminated lines spell the lines of both together. */
  lemma PaintTerminatedAppend(a: seq<Styled>, b: seq<Styled>, la: seq<string>, lb: seq<string>)
    requires PaintAll(a, false) == Terminated(la) && PaintAll(b, false) == Terminated(lb)
    ensures PaintAll(a + b, false) == Terminated(la + lb)
  {
    PaintAllAppend(a, b, false);
    TerminatedAppend(la, lb);
  }

  lemma InterleavedSnoc(t: CharTable, differ: Differ, words: WordStyles, lines: LineStyles, diffs: seq<LineDiff>, i: nat)
    requires IsDiffer(differ) && i < |diffs|
    ensures InterleavedPieces(t, differ, words, lines, diffs[..i + 1])
      == InterleavedPieces(t, differ, words, lines, diffs[..i]) + EntryPieces(t, differ, words, lines, diffs[i])
  {
    assert diffs[..i + 1][..i] == diffs[..i];
  }

  /** `MultiLineDiff`: the regrouped line diff of two multi-line texts. */
  class MultiLineDiff {
    const lineDiffs: seq<LineDiff>

    /**
     * `MultiLineDiff::new`: diff the lines of both texts and regroup the
     * result; the entries show exactly the lines of each text.
     */
    constructor (differ: Differ, left: string, right: string)
      requires IsDiffer(differ)
      ensures lineDiffs == Regroup(differ(Lines(left), Lines(right)))
      ensures LeftLines(lineDiffs) == Lines(left) && RightLines(lineDiffs) == Lines(right)
    {
      var script := differ(Lines(left), Lines(right));
      RegroupSides(script);
      var regrouped := FromDiff(script);
      lineDiffs := regrouped;
    }

    /**
     * `write_interleaved`: every entry's lines with their `< `, `> ` or
     * two-space prefixes, after which the last character (the final line
     * break) is removed again.
     */
    method WriteInterleaved(t: CharTable, differ: Differ, words: WordStyles, lines: LineStyles, colored: bool, buffer: string)
      returns (result: string)
      requires IsDiffer(differ)
      ensures result == DropLast(buffer + PaintAll(InterleavedPieces(t, differ, words, lines, lineDiffs), colored))
    {
      var out := buffer;
      for i := 0 to |lineDiffs|
        invariant out == buffer + PaintAll(InterleavedPieces(t, differ, words, lines, lineDiffs[..i]), colored)
      {
        InterleavedSnoc(t, differ, words, lines, lineDiffs, i);
        var pieces := WriteEntry(t, differ, words, lines, lineDiffs[i]);
        PaintAllAppend(InterleavedPieces(t, differ, words, lines, lineDiffs[..i]), pieces, colored);
        SeqAssoc(buffer, PaintAll(InterleavedPieces(t, differ, words, lines, lineDiffs[..i]), colored), PaintAll(pieces, colored));
        out := out + PaintAll(pieces, colored);
      }
      assert lineDiffs[..|lineDiffs|] == lineDiffs;
      result := DropLast(out);
    }
  }

  /** The body of the loop of `write_interleaved`: one entry, with a word diff for a `Different` entry. */
  method WriteEntry(t: CharTable, differ: Differ, words: WordStyles, lines: LineStyles, d: LineDiff) returns (pieces: seq<Styled>)
    requires IsDiffer(differ)
    ensures pieces == EntryPieces(t, differ, words, lines, d)
  {
    match d {
      case LeftOnly(l) =>
        pieces := [Styled("< " + l, lines.left), Styled("\n", PlainStyle)];
      case RightOnly(r) =>
        pieces := [Styled("> " + r, lines.right), Styled("\n", PlainStyle)];
      case Different(l, r) =>
        var diff := new SingleLineDiff(t, differ, words, l, r);
        var lp := diff.WriteLeft();
        var rp := diff.WriteRight();
        assert lp == WordDiffPieces(t, differ, words, l, r, true);
        assert rp == WordDiffPieces(t, differ, words, l, r, false);
        pieces := [Styled("<", diff.leftHighlights.normal), Styled(" ", PlainStyle)] + lp
          + [Styled("\n", PlainStyle), Styled(">", diff.rightHighlights.normal), Styled(" ", PlainStyle)] + rp
          + [Styled("\n", PlainStyle)];
      case Equal(text) =>
        pieces := [Styled("  ", PlainStyle), Styled(text, lines.equal), Styled("\n", PlainStyle)];
    }
  }

  /**
   * Without colours, a non-empty interleaved diff written to an empty buffer
   * is its text lines joined by line breaks, with no line break at the end.
   */
  lemma InterleavedText(t: CharTable, differ: Differ, words: WordStyles, lines: LineStyles, diffs: seq<LineDiff>)
    requires IsDiffer(differ) && diffs != []
    ensures DropLast("" + PaintAll(InterleavedPieces(t, differ, words, lines, diffs), false)) == Join(InterleavedLines(diffs))
    ensures |InterleavedLines(diffs)| == |diffs| + CountDifferent(diffs)
  {
    InterleavedPiecesPlain(t, differ, words, lines, diffs);
    InterleavedLinesCount(diffs);
    assert "" + PaintAll(InterleavedPieces(t, differ, words, lines, diffs), false) == Terminated(InterleavedLines(diffs));
    TerminatedDropLast(InterleavedLines(diffs));
  }
}
