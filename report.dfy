/**
 * The layout of the failure report: the header with the predicate chain,
 * and the expansion of the failed predicate (a word diff, a line diff, the
 * value of a `let` pattern, or `false`).
 *
 * Each writer call becomes an `Op`; the layout of a part of the report is
 * the sequence of `Op`s it issues (`AssertionOps`, `BinaryOps`, ...), and
 * the methods that drive a `WrappingWriter` are proved to leave it in the
 * state `RunOps` gives for that sequence. Properties of the layout are
 * stated on the `Op` sequences and on their text (`OpsText`).
 */
module Report {
  import opened Common
  import opened Writer
  import opened Diff
  import opened Options

  /** The named styles of the report, as opaque prefix and suffix strings. */
  datatype Palette = Palette(
    default: Style,
    error: Style,
    macroStyle: Style,
    op: Style,
    left: Style,
    right: Style,
    note: Style,
    dimmed: Style)

  // ---------------------------------------------------------------------
  // Decimal numbers

  function Digit(d: nat): (c: char)
    requires d < 10
    ensures IsAsciiDigit(c) && c as int - '0' as int == d
  {
    ('0' as int + d) as char
  }

  /** `Display` for an unsigned integer: its decimal digits, without leading zeros. */
  function DecimalText(n: nat): (s: string)
    ensures s != [] && forall i :: 0 <= i < |s| ==> IsAsciiDigit(s[i])
    ensures |s| > 1 ==> s[0] != '0'
  {
    if n < 10 then [Digit(n)] else DecimalText(n / 10) + [Digit(n % 10)]
  }

  /** The value of a string of decimal digits. */
  function DecimalValue(s: string): nat
    requires forall i :: 0 <= i < |s| ==> IsAsciiDigit(s[i])
  {
    if s == [] then 0
    else
      assert IsAsciiDigit(s[|s| - 1]);
      DecimalValue(s[..|s| - 1]) * 10 + (s[|s| - 1] as int - '0' as int)
  }

  /** Reading the digits back gives the number. */
  lemma {:induction false} DecimalRoundTrip(n: nat)
    ensures DecimalValue(DecimalText(n)) == n
  {
    if n >= 10 {
      DecimalRoundTrip(n / 10);
      var s := DecimalText(n);
      assert s[..|s| - 1] == DecimalText(n / 10);
    } else {
      assert DecimalText(n)[..0] == [];
    }
  }

  // ---------------------------------------------------------------------
  // Writer operations

  /** One call on the writer: write a snippet, flush the line, or pop the buffer's last character. */
  datatype Op = Put(snippet: Snippet) | Flush | Pop

  /** `write`. */
  function Plain(text: string): Op {
    Put(NewSnippet(text))
  }

  /** `write_styled`. */
  function InStyle(text: string, style: Style): Op {
    Put(WithStyle(NewSnippet(text), style))
  }

  /** The state after one call. */
  function Apply(t: CharTable, st: WriterState, op: Op): (r: WriterState)
    requires Inv(st)
    ensures Inv(r) && r.width == st.width && r.indent == st.indent && r.stylingEnabled == st.stylingEnabled
  {
    match op
    case Put(s) =>
      WriteSnippetInv(t, st, s.content, s.style, s.undercurl);
      WriteSnippetF(t, st, s.content, s.style, s.undercurl)
    case Flush =>
      FlushLineSpec(st);
      FlushLineF(st)
    case Pop => st.(buffer := DropLast(st.buffer))
  }

  /** The state after the calls, in order. */
  function RunOps(t: CharTable, st: WriterState, ops: seq<Op>): (r: WriterState)
    requires Inv(st)
    ensures Inv(r) && r.width == st.width && r.indent == st.indent && r.stylingEnabled == st.stylingEnabled
  {
    if ops == [] then st else Apply(t, RunOps(t, st, ops[..|ops| - 1]), ops[|ops| - 1])
  }

  lemma RunOpsSnoc(t: CharTable, st: WriterState, ops: seq<Op>, op: Op)
    requires Inv(st)
    ensures RunOps(t, st, ops + [op]) == Apply(t, RunOps(t, st, ops), op)
  {
    assert (ops + [op])[..|ops|] == ops;
  }

  /** Running two sequences of calls one after the other is running their concatenation. */
  lemma {:induction false} RunOpsAppend(t: CharTable, st: WriterState, a: seq<Op>, b: seq<Op>)
    requires Inv(st)
    ensures RunOps(t, st, a + b) == RunOps(t, RunOps(t, st, a), b)
  {
    if b == [] {
      assert a + b == a;
    } else {
      var init := b[..|b| - 1];
      assert (a + b)[..|a + b| - 1] == a + init;
      RunOpsAppend(t, st, a, init);
    }
  }

  /** The text a call adds, ignoring wrapping, styles and underlines. */
  function Render(acc: string, op: Op): string {
    match op
    case Put(s) => acc + s.content
    case Flush => acc + "\n"
    case Pop => DropLast(acc)
  }

  /** The text of the calls after `acc`. */
  function OpsText(acc: string, ops: seq<Op>): string {
    if ops == [] then acc else Render(OpsText(acc, ops[..|ops| - 1]), ops[|ops| - 1])
  }

  lemma {:induction false} OpsTextAppend(acc: string, a: seq<Op>, b: seq<Op>)
    ensures OpsText(acc, a + b) == OpsText(OpsText(acc, a), b)
  {
    if b == [] {
      assert a + b == a;
    } else {
      var init := b[..|b| - 1];
      assert (a + b)[..|a + b| - 1] == a + init;
      OpsTextAppend(acc, a, init);
    }
  }

  /** Calls that never pop only append to the text. */
  lemma {:induction false} OpsTextNoPop(acc: string, ops: seq<Op>)
    requires forall i :: 0 <= i < |ops| ==> !ops[i].Pop?
    ensures OpsText(acc, ops) == acc + OpsText("", ops)
  {
    if ops != [] {
      OpsTextNoPop(acc, ops[..|ops| - 1]);
      SeqAssoc(acc, OpsText("", ops[..|ops| - 1]), if ops[|ops| - 1].Put? then ops[|ops| - 1].snippet.content else "\n");
    }
  }

  /** The cells taken on the current line after the calls, when nothing wraps. */
  function OpsLineWidth(t: CharTable, used: nat, ops: seq<Op>): nat {
    if ops == [] then used
    else
      var before := OpsLineWidth(t, used, ops[..|ops| - 1]);
      match ops[|ops| - 1]
      case Put(s) => LaidOutWidth(t, before, s.content)
      case Flush => 0
      case Pop => before
  }

  /** No call underlines, and every line the calls write fits in `width` cells. */
  predicate OpsFit(t: CharTable, used: nat, width: nat, ops: seq<Op>) {
    ops == [] ||
      (OpsFit(t, used, width, ops[..|ops| - 1]) &&
        match ops[|ops| - 1]
        case Put(s) => s.undercurl.None? && LinesFit(t, OpsLineWidth(t, used, ops[..|ops| - 1]), width, s.content)
        case _ => true)
  }

  /**
   * `OpsText` is what the writer really writes when styling is off, there
   * is no indentation, no call underlines and every line fits: no line is
   * wrapped and no underline row is added.
   */
  lemma {:induction false} RunOpsText(t: CharTable, st: WriterState, ops: seq<Op>)
    requires Inv(st) && !st.stylingEnabled && st.indent == 0 && st.marks == []
    requires OpsFit(t, st.lineWidth, st.width, ops)
    ensures var r := RunOps(t, st, ops);
      && r.buffer == OpsText(st.buffer, ops)
      && r.marks == []
      && r.lineWidth == OpsLineWidth(t, st.lineWidth, ops)
  {
    if ops != [] {
      var init, op := ops[..|ops| - 1], ops[|ops| - 1];
      RunOpsText(t, st, init);
      var mid := RunOps(t, st, init);
      match op
      case Put(s) =>
        assert s.undercurl == None;
        WriteSnippetText(t, mid, s.content, s.style);
      case Flush =>
        FlushWithoutMarks(mid);
      case Pop =>
    }
  }

  /** The pieces of a diff as writer calls: each piece in its style. */
  function PiecesOps(pieces: seq<Styled>): (ops: seq<Op>)
    ensures |ops| == |pieces|
    ensures forall i :: 0 <= i < |pieces| ==> ops[i] == InStyle(pieces[i].text, pieces[i].style)
  {
    if pieces == [] then []
    else PiecesOps(pieces[..|pieces| - 1]) + [InStyle(pieces[|pieces| - 1].text, pieces[|pieces| - 1].style)]
  }

  /** Written to the writer, the pieces of a diff give the same text as without styles. */
  lemma {:induction false} PiecesOpsText(acc: string, pieces: seq<Styled>)
    ensures OpsText(acc, PiecesOps(pieces)) == acc + PlainText(pieces)
  {
    if pieces != [] {
      var init := pieces[..|pieces| - 1];
      PiecesOpsText(acc, init);
      assert PiecesOps(pieces)[..|pieces| - 1] == PiecesOps(init);
      SeqAssoc(acc, PlainText(init), pieces[|pieces| - 1].text);
    }
  }

  /** One writer call, extending the calls made so far. */
  method Emit(w: WrappingWriter, t: CharTable, ghost st0: WriterState, ghost done: seq<Op>, op: Op)
    requires w.Valid() && Inv(st0) && w.State() == RunOps(t, st0, done)
    modifies w
    ensures w.Valid() && w.State() == RunOps(t, st0, done + [op])
  {
    RunOpsSnoc(t, st0, done, op);
    match op {
      case Put(s) => w.WriteSnippet(t, s);
      case Flush => w.FlushLine();
      case Pop => w.PopBuffer();
    }
  }

  lemma PiecesOpsSnoc(pieces: seq<Styled>, i: nat)
    requires i < |pieces|
    ensures PiecesOps(pieces[..i + 1]) == PiecesOps(pieces[..i]) + [InStyle(pieces[i].text, pieces[i].style)]
  {
    assert pieces[..i + 1][..i] == pieces[..i];
  }

  /** The pieces of a diff, each written in its style. */
  method EmitPieces(w: WrappingWriter, t: CharTable, ghost st0: WriterState, ghost done: seq<Op>, pieces: seq<Styled>)
    requires w.Valid() && Inv(st0) && w.State() == RunOps(t, st0, done)
    modifies w
    ensures w.Valid() && w.State() == RunOps(t, st0, done + PiecesOps(pieces))
  {
    ghost var sofar := done;
    for i := 0 to |pieces|
      invariant sofar == done + PiecesOps(pieces[..i])
      invariant w.Valid() && w.State() == RunOps(t, st0, sofar)
    {
      var op := InStyle(pieces[i].text, pieces[i].style);
      PiecesOpsSnoc(pieces, i);
      SeqAssoc(done, PiecesOps(pieces[..i]), [op]);
      Emit(w, t, st0, sofar, op);
      sofar := sofar + [op];
    }
    assert pieces[..|pieces|] == pieces;
  }

  // ---------------------------------------------------------------------
  // Predicates

  /** One checked predicate, as source text. */
  datatype Predicate =
    | Binary(left: string, operator: string, right: string)
    | Let(pattern: string, expression: string)
    | Bool(expression: string)

  /**
   * `make_snippet`: the failed predicate's parts keep their own style and
   * are underlined in the error style when asked; the other predicates are
   * dimmed and never underlined.
   */
  function MakeSnippet(p: Palette, data: string, style: Style, failed: bool, undercurl: bool): (s: Snippet)
    ensures s.content == data
    ensures failed ==> s.style == style && s.undercurl == (if undercurl then Some(p.error) else None)
    ensures !failed ==> s.style == p.dimmed && s.undercurl == None
  {
    var snippet := NewSnippet(data);
    if failed then
      var styled := WithStyle(snippet, style);
      if undercurl then WithUndercurl(styled, p.error) else styled
    else
      WithStyle(snippet, p.dimmed)
  }

  /** The snippets `Predicate::write` writes, in order. */
  function PredicateSnippets(p: Palette, pred: Predicate, failed: bool, undercurl: bool): seq<Snippet> {
    match pred
    case Binary(left, operator, right) =>
      [MakeSnippet(p, left, p.left, failed, undercurl), MakeSnippet(p, " ", p.default, failed, undercurl),
       MakeSnippet(p, operator, p.op, failed, undercurl), MakeSnippet(p, " ", p.default, failed, undercurl),
       MakeSnippet(p, right, p.right, failed, undercurl)]
    case Let(pattern, expression) =>
      [MakeSnippet(p, "let ", p.op, failed, undercurl), MakeSnippet(p, pattern, p.left, failed, undercurl),
       MakeSnippet(p, " = ", p.op, failed, undercurl), MakeSnippet(p, expression, p.right, failed, undercurl)]
    case Bool(expression) =>
      [MakeSnippet(p, expression, p.right, failed, undercurl)]
  }

  /** The source text of a predicate. */
  function PredicateText(pred: Predicate): string {
    match pred
    case Binary(left, operator, right) => left + " " + operator + " " + right
    case Let(pattern, expression) => "let " + pattern + " = " + expression
    case Bool(expression) => expression
  }

  function PutAll(snippets: seq<Snippet>): (ops: seq<Op>)
    ensures |ops| == |snippets| && forall i :: 0 <= i < |snippets| ==> ops[i] == Put(snippets[i])
  {
    if snippets == [] then [] else PutAll(snippets[..|snippets| - 1]) + [Put(snippets[|snippets| - 1])]
  }

  /** The snippet of every part of a predicate follows the `make_snippet` rule. */
  ghost predicate SnippetRule(p: Palette, s: Snippet, failed: bool, undercurl: bool) {
    && (failed ==> s.undercurl == (if undercurl then Some(p.error) else None))
    && (!failed ==> s.style == p.dimmed && s.undercurl == None)
  }

  /**
   * A predicate is written as its source text, and every part of it is
   * styled by the `make_snippet` rule.
   */
  lemma PredicateSnippetsSpec(p: Palette, pred: Predicate, failed: bool, undercurl: bool)
    ensures OpsText("", PutAll(PredicateSnippets(p, pred, failed, undercurl))) == PredicateText(pred)
    ensures forall s :: s in PredicateSnippets(p, pred, failed, undercurl) ==> SnippetRule(p, s, failed, undercurl)
  {
    var ss := PredicateSnippets(p, pred, failed, undercurl);
    SnippetsTextOps(ss, |ss|);
    assert PutAll(ss)[..|ss|] == PutAll(ss) && ss[..|ss|] == ss;
    PredicateSnippetsText(p, pred, failed, undercurl);
    PredicateSnippetsRule(p, pred, failed, undercurl);
  }

  lemma PredicateSnippetsRule(p: Palette, pred: Predicate, failed: bool, undercurl: bool)
    ensures forall s :: s in PredicateSnippets(p, pred, failed, undercurl) ==> SnippetRule(p, s, failed, undercurl)
  {
    var ss := PredicateSnippets(p, pred, failed, undercurl);
    forall i | 0 <= i < |ss|
      ensures SnippetRule(p, ss[i], failed, undercurl)
    {
      match pred {
        case Binary(left, operator, right) =>
          assert ss[i] in {MakeSnippet(p, left, p.left, failed, undercurl), MakeSnippet(p, " ", p.default, failed, undercurl),
            MakeSnippet(p, operator, p.op, failed, undercurl), MakeSnippet(p, right, p.right, failed, undercurl)};
        case Let(pattern, expression) =>
          assert ss[i] in {MakeSnippet(p, "let ", p.op, failed, undercurl), MakeSnippet(p, pattern, p.left, failed, undercurl),
            MakeSnippet(p, " = ", p.op, failed, undercurl), MakeSnippet(p, expression, p.right, failed, undercurl)};
        case Bool(expression) =>
      }
    }
  }

  lemma PredicateSnippetsText(p: Palette, pred: Predicate, failed: bool, undercurl: bool)
    ensures SnippetsText(PredicateSnippets(p, pred, failed, undercurl)) == PredicateText(pred)
  {
    var ss := PredicateSnippets(p, pred, failed, undercurl);
    match pred {
      case Binary(left, operator, right) =>
        SnippetsText5(ss);
      case Let(pattern, expression) =>
        SnippetsText4(ss);
      case Bool(expression) =>
        assert ss[..0] == [];
    }
  }

  /** The contents of the snippets, in order. */
  function SnippetsText(ss: seq<Snippet>): string {
    if ss == [] then "" else SnippetsText(ss[..|ss| - 1]) + ss[|ss| - 1].content
  }

  lemma {:induction false} SnippetsTextOps(ss: seq<Snippet>, n: nat)
    requires n <= |ss|
    ensures OpsText("", PutAll(ss)[..n]) == SnippetsText(ss[..n])
  {
    if n > 0 {
      SnippetsTextOps(ss, n - 1);
      assert PutAll(ss)[..n][..n - 1] == PutAll(ss)[..n - 1];
      assert ss[..n][..n - 1] == ss[..n - 1];
    }
  }

  lemma SnippetsText4(ss: seq<Snippet>)
    requires |ss| == 4
    ensures SnippetsText(ss) == ss[0].content + ss[1].content + ss[2].content + ss[3].content
  {
    var s3, s2, s1 := ss[..3], ss[..2], ss[..1];
    assert s3[..2] == s2 && s2[..1] == s1 && s1[..0] == [];
    assert SnippetsText(s1) == ss[0].content;
    assert SnippetsText(s2) == SnippetsText(s1) + ss[1].content;
    assert SnippetsText(s3) == SnippetsText(s2) + ss[2].content;
    assert SnippetsText(ss) == SnippetsText(s3) + ss[3].content;
  }

  lemma SnippetsText5(ss: seq<Snippet>)
    requires |ss| == 5
    ensures SnippetsText(ss) == ss[0].content + ss[1].content + ss[2].content + ss[3].content + ss[4].content
  {
    var s4 := ss[..4];
    SnippetsText4(s4);
    assert SnippetsText(ss) == SnippetsText(s4) + ss[4].content;
  }

  /** `Predicate::write`: each snippet of the predicate, in order. */
  method WritePredicate(w: WrappingWriter, t: CharTable, ghost st0: WriterState, ghost done: seq<Op>,
                        p: Palette, pred: Predicate, failed: bool, undercurl: bool)
    requires w.Valid() && Inv(st0) && w.State() == RunOps(t, st0, done)
    modifies w
    ensures w.Valid() && w.State() == RunOps(t, st0, done + PutAll(PredicateSnippets(p, pred, failed, undercurl)))
  {
    var snippets := PredicateSnippets(p, pred, failed, undercurl);
    WriteSnippets(w, t, st0, done, snippets);
  }

  /** The loop of `Predicate::write` over its snippets. */
  method WriteSnippets(w: WrappingWriter, t: CharTable, ghost st0: WriterState, ghost done: seq<Op>, snippets: seq<Snippet>)
    requires w.Valid() && Inv(st0) && w.State() == RunOps(t, st0, done)
    modifies w
    ensures w.Valid() && w.State() == RunOps(t, st0, done + PutAll(snippets))
  {
    ghost var sofar := done;
    for i := 0 to |snippets|
      invariant sofar == done + PutAll(snippets[..i])
      invariant w.Valid() && w.State() == RunOps(t, st0, sofar)
    {
      PutAllSnoc(done, snippets, i);
      Emit(w, t, st0, sofar, Put(snippets[i]));
      sofar := sofar + [Put(snippets[i])];
    }
    assert snippets[..|snippets|] == snippets;
  }

  lemma PutAllSnoc(done: seq<Op>, snippets: seq<Snippet>, i: nat)
    requires i < |snippets|
    ensures done + PutAll(snippets[..i + 1]) == done + PutAll(snippets[..i]) + [Put(snippets[i])]
  {
    assert snippets[..i + 1][..i] == snippets[..i];
    SeqAssoc(done, PutAll(snippets[..i]), [Put(snippets[i])]);
  }

  // ---------------------------------------------------------------------
  // print_assertion

  /** The failed check as the report shows it. */
  datatype FailedCheck = FailedCheck(
    macroName: string,
    file: string,
    line: nat,
    column: nat,
    predicates: seq<Predicate>,
    failed: nat,
    customMessage: Option<string>,
    expansion: Expansion,
    fragments: seq<Fragment>)

  /** A macro argument of the failed check, by name, with what it expanded to. */
  datatype Fragment = Fragment(name: string, expansion: string)

  /** The first `n` predicates, separated by dimmed `" && "`; predicate `failed` is the failed one. */
  function ChainOps(p: Palette, preds: seq<Predicate>, failed: nat, n: nat): seq<Op>
    requires n <= |preds|
  {
    if n == 0 then []
    else
      ChainOps(p, preds, failed, n - 1)
        + (if n - 1 > 0 then [InStyle(" && ", p.dimmed)] else [])
        + PutAll(PredicateSnippets(p, preds[n - 1], n - 1 == failed, |preds| > 1))
  }

  /** `print_assertion`: the location line, then the macro call with the predicates up to the failed one. */
  function AssertionOps(p: Palette, fc: FailedCheck): seq<Op>
    requires fc.failed < |fc.predicates|
  {
    [InStyle("Assertion failed", p.error), Plain(" at "), InStyle(fc.file, p.note),
     Plain(":" + DecimalText(fc.line) + ":" + DecimalText(fc.column)), Flush,
     Plain("  "), InStyle(fc.macroName, p.macroStyle), InStyle("!( ", p.macroStyle)]
      + ChainOps(p, fc.predicates, fc.failed, fc.failed + 1)
      + (if fc.failed + 1 < |fc.predicates| then [InStyle(" && ...", p.dimmed)] else [])
      + [InStyle(" )", p.macroStyle), Flush]
  }

  /** The source texts of the predicates. */
  function PredicateTexts(preds: seq<Predicate>): (r: seq<string>)
    ensures |r| == |preds| && forall i :: 0 <= i < |preds| ==> r[i] == PredicateText(preds[i])
  {
    if preds == [] then [] else PredicateTexts(preds[..|preds| - 1]) + [PredicateText(preds[|preds| - 1])]
  }

  lemma {:induction false} JoinWithSnoc(parts: seq<string>, sep: string, x: string)
    requires parts != []
    ensures JoinWith(parts + [x], sep) == JoinWith(parts, sep) + sep + x
  {
    if |parts| == 1 {
      assert (parts + [x])[1..] == [x];
    } else {
      assert (parts + [x])[1..] == parts[1..] + [x];
      JoinWithSnoc(parts[1..], sep, x);
      SeqAssoc(parts[0] + sep, JoinWith(parts[1..], sep), sep + x);
      SeqAssoc(parts[0] + sep + JoinWith(parts[1..], sep), sep, x);
    }
  }

  /** The chain is the predicates' texts joined by `" && "`. */
  lemma {:induction false} ChainText(p: Palette, preds: seq<Predicate>, failed: nat, n: nat)
    requires n <= |preds|
    ensures OpsText("", ChainOps(p, preds, failed, n)) == JoinWith(PredicateTexts(preds[..n]), " && ")
  {
    if n > 0 {
      ChainText(p, preds, failed, n - 1);
      var before := ChainOps(p, preds, failed, n - 1);
      var sep: seq<Op> := if n - 1 > 0 then [InStyle(" && ", p.dimmed)] else [];
      var own := PutAll(PredicateSnippets(p, preds[n - 1], n - 1 == failed, |preds| > 1));
      PredicateSnippetsSpec(p, preds[n - 1], n - 1 == failed, |preds| > 1);
      OpsTextAppend("", before + sep, own);
      OpsTextAppend("", before, sep);
      OpsTextNoPop(OpsText("", before + sep), own);
      assert PredicateTexts(preds[..n]) == PredicateTexts(preds[..n - 1]) + [PredicateText(preds[n - 1])] by {
        assert preds[..n][..n - 1] == preds[..n - 1];
      }
      if n - 1 > 0 {
        JoinWithSnoc(PredicateTexts(preds[..n - 1]), " && ", PredicateText(preds[n - 1]));
        assert OpsText(OpsText("", before), sep) == OpsText("", before) + " && " by {
          assert sep[..0] == [];
        }
      } else {
        assert preds[..0] == [];
      }
    }
  }

  /** No call of the chain pops the buffer. */
  lemma {:induction false} ChainNoPop(p: Palette, preds: seq<Predicate>, failed: nat, n: nat)
    requires n <= |preds|
    ensures forall i :: 0 <= i < |ChainOps(p, preds, failed, n)| ==> ChainOps(p, preds, failed, n)[i].Put?
  {
    if n > 0 {
      ChainNoPop(p, preds, failed, n - 1);
    }
  }

  /** The header line and the opening of the macro call. */
  function HeaderOps(p: Palette, fc: FailedCheck): seq<Op> {
    [InStyle("Assertion failed", p.error), Plain(" at "), InStyle(fc.file, p.note),
     Plain(":" + DecimalText(fc.line) + ":" + DecimalText(fc.column)), Flush,
     Plain("  "), InStyle(fc.macroName, p.macroStyle), InStyle("!( ", p.macroStyle)]
  }

  /** The calls after the chain: the ellipsis when predicates were left unchecked, and the closing of the call. */
  function TailOps(p: Palette, fc: FailedCheck): seq<Op> {
    (if fc.failed + 1 < |fc.predicates| then [InStyle(" && ...", p.dimmed)] else [])
      + [InStyle(" )", p.macroStyle), Flush]
  }

  lemma AssertionOpsParts(p: Palette, fc: FailedCheck)
    requires fc.failed < |fc.predicates|
    ensures AssertionOps(p, fc) == HeaderOps(p, fc) + ChainOps(p, fc.predicates, fc.failed, fc.failed + 1) + TailOps(p, fc)
  {
  }

  lemma OpsTextSnoc(acc: string, ops: seq<Op>, op: Op)
    ensures OpsText(acc, ops + [op]) == Render(OpsText(acc, ops), op)
  {
    assert (ops + [op])[..|ops|] == ops;
  }

  lemma HeaderText(p: Palette, fc: FailedCheck)
    ensures OpsText("", HeaderOps(p, fc))
      == "Assertion failed" + " at " + fc.file + (":" + DecimalText(fc.line) + ":" + DecimalText(fc.column))
         + "\n" + "  " + fc.macroName + "!( "
  {
    var h := HeaderOps(p, fc);
    var loc := ":" + DecimalText(fc.line) + ":" + DecimalText(fc.column);
    assert h[..0] == [];
    TakeSnoc(h, 0);
    OpsTextSnoc("", h[..0], h[0]);
    assert OpsText("", h[..1]) == "Assertion failed";
    TakeSnoc(h, 1);
    OpsTextSnoc("", h[..1], h[1]);
    TakeSnoc(h, 2);
    OpsTextSnoc("", h[..2], h[2]);
    TakeSnoc(h, 3);
    OpsTextSnoc("", h[..3], h[3]);
    assert OpsText("", h[..4]) == "Assertion failed" + " at " + fc.file + loc;
    TakeSnoc(h, 4);
    OpsTextSnoc("", h[..4], h[4]);
    TakeSnoc(h, 5);
    OpsTextSnoc("", h[..5], h[5]);
    TakeSnoc(h, 6);
    OpsTextSnoc("", h[..6], h[6]);
    TakeSnoc(h, 7);
    OpsTextSnoc("", h[..7], h[7]);
    assert h[..8] == h;
  }

  lemma TakeSnoc<T>(s: seq<T>, k: nat)
    requires k < |s|
    ensures s[..k + 1] == s[..k] + [s[k]]
  {
  }

  lemma TailText(p: Palette, fc: FailedCheck)
    ensures OpsText("", TailOps(p, fc)) == (if fc.failed + 1 < |fc.predicates| then " && ..." else "") + " )" + "\n"
  {
    var more: seq<Op> := if fc.failed + 1 < |fc.predicates| then [InStyle(" && ...", p.dimmed)] else [];
    var moreText := if fc.failed + 1 < |fc.predicates| then " && ..." else "";
    assert OpsText("", more) == moreText by {
      assert more == [] || more[..0] == [];
    }
    OpsTextSnoc("", more, InStyle(" )", p.macroStyle));
    OpsTextSnoc("", more + [InStyle(" )", p.macroStyle)], Flush);
    assert TailOps(p, fc) == more + [InStyle(" )", p.macroStyle)] + [Flush];
  }

  /**
   * The text of the header: the location, then the macro call with the
   * predicates up to and including the failed one, joined by `" && "`, and
   * `" && ..."` exactly when some predicates were not checked.
   */
  lemma AssertionText(p: Palette, fc: FailedCheck)
    requires fc.failed < |fc.predicates|
    ensures OpsText("", AssertionOps(p, fc))
      == OpsText("", HeaderOps(p, fc)) + JoinWith(PredicateTexts(fc.predicates[..fc.failed + 1]), " && ")
         + OpsText("", TailOps(p, fc))
  {
    var h := HeaderOps(p, fc);
    var c := ChainOps(p, fc.predicates, fc.failed, fc.failed + 1);
    var tl := TailOps(p, fc);
    AssertionOpsParts(p, fc);
    ChainText(p, fc.predicates, fc.failed, fc.failed + 1);
    ChainNoPop(p, fc.predicates, fc.failed, fc.failed + 1);
    assert forall i :: 0 <= i < |tl| ==> !tl[i].Pop?;
    ThreePartsText(h, c, tl);
  }

  /** Two lists of calls that never pop add their texts to whatever came before. */
  lemma ThreePartsText(h: seq<Op>, c: seq<Op>, tl: seq<Op>)
    requires forall i :: 0 <= i < |c| ==> !c[i].Pop?
    requires forall i :: 0 <= i < |tl| ==> !tl[i].Pop?
    ensures OpsText("", h + c + tl) == OpsText("", h) + OpsText("", c) + OpsText("", tl)
  {
    OpsTextAppend("", h + c, tl);
    OpsTextAppend("", h, c);
    OpsTextNoPop(OpsText("", h), c);
    OpsTextNoPop(OpsText("", h + c), tl);
  }

  /** The predicates before the failed one are written dimmed and without an underline. */
  lemma {:induction false} ChainBeforeFailedDimmed(p: Palette, preds: seq<Predicate>, failed: nat, n: nat)
    requires n <= failed && n <= |preds|
    ensures forall i :: 0 <= i < |ChainOps(p, preds, failed, n)| ==>
      ChainOps(p, preds, failed, n)[i].Put?
      && ChainOps(p, preds, failed, n)[i].snippet.style == p.dimmed
      && ChainOps(p, preds, failed, n)[i].snippet.undercurl == None
  {
    if n > 0 {
      ChainBeforeFailedDimmed(p, preds, failed, n - 1);
      PredicateSnippetsRule(p, preds[n - 1], false, |preds| > 1);
      var own := PredicateSnippets(p, preds[n - 1], false, |preds| > 1);
      assert forall i :: 0 <= i < |own| ==> own[i] in own;
    }
  }

  /**
   * The failed predicate is written last in the chain, in its own styles,
   * and underlined in the error style exactly when there is more than one
   * predicate.
   */
  lemma FailedPredicateLast(p: Palette, preds: seq<Predicate>, failed: nat)
    requires failed < |preds|
    ensures ChainOps(p, preds, failed, failed + 1)
      == ChainOps(p, preds, failed, failed) + (if failed > 0 then [InStyle(" && ", p.dimmed)] else [])
         + PutAll(PredicateSnippets(p, preds[failed], true, |preds| > 1))
    ensures forall s :: s in PredicateSnippets(p, preds[failed], true, |preds| > 1) ==>
      s.undercurl == (if |preds| > 1 then Some(p.error) else None)
  {
    PredicateSnippetsSpec(p, preds[failed], true, |preds| > 1);
  }

  /** A fixed list of writer calls, in order. */
  method EmitAll(w: WrappingWriter, t: CharTable, ghost st0: WriterState, ghost done: seq<Op>, ops: seq<Op>)
    requires w.Valid() && Inv(st0) && w.State() == RunOps(t, st0, done)
    modifies w
    ensures w.Valid() && w.State() == RunOps(t, st0, done + ops)
  {
    ghost var sofar := done;
    for k := 0 to |ops|
      invariant sofar == done + ops[..k]
      invariant w.Valid() && w.State() == RunOps(t, st0, sofar)
    {
      var op := ops[k];
      TakeSnoc(ops, k);
      SeqAssoc(done, ops[..k], [op]);
      Emit(w, t, st0, sofar, op);
      sofar := sofar + [op];
    }
    assert ops[..|ops|] == ops;
  }

  /** The loop of `print_assertion` over the predicates up to and including the failed one. */
  method WriteChain(w: WrappingWriter, t: CharTable, ghost st0: WriterState, ghost done: seq<Op>,
                    p: Palette, preds: seq<Predicate>, failed: nat)
    requires w.Valid() && Inv(st0) && w.State() == RunOps(t, st0, done) && failed < |preds|
    modifies w
    ensures w.Valid() && w.State() == RunOps(t, st0, done + ChainOps(p, preds, failed, failed + 1))
  {
    ghost var sofar := done;
    for i := 0 to failed + 1
      invariant sofar == done + ChainOps(p, preds, failed, i)
      invariant w.Valid() && w.State() == RunOps(t, st0, sofar)
    {
      var sep: seq<Op> := if i > 0 then [InStyle(" && ", p.dimmed)] else [];
      var own := PutAll(PredicateSnippets(p, preds[i], i == failed, |preds| > 1));
      if i > 0 {
        Emit(w, t, st0, sofar, InStyle(" && ", p.dimmed));
      }
      WritePredicate(w, t, st0, sofar + sep, p, preds[i], i == failed, |preds| > 1);
      assert ChainOps(p, preds, failed, i + 1) == ChainOps(p, preds, failed, i) + sep + own;
      SeqAssoc(done, ChainOps(p, preds, failed, i) + sep, own);
      SeqAssoc(done, ChainOps(p, preds, failed, i), sep);
      sofar := sofar + sep + own;
    }
  }

  /** `print_assertion`. */
  method PrintAssertion(w: WrappingWriter, t: CharTable, p: Palette, fc: FailedCheck)
    requires w.Valid() && fc.failed < |fc.predicates|
    modifies w
    ensures w.Valid() && w.State() == RunOps(t, old(w.State()), AssertionOps(p, fc))
  {
    ghost var st0 := w.State();
    ghost var chain := ChainOps(p, fc.predicates, fc.failed, fc.failed + 1);
    var header := HeaderOps(p, fc);
    var tail := TailOps(p, fc);
    assert RunOps(t, st0, []) == st0;
    EmitAll(w, t, st0, [], header);
    assert [] + header == header;
    WriteChain(w, t, st0, header, p, fc.predicates, fc.failed);
    EmitAll(w, t, st0, header + chain, tail);
    AssertionOpsParts(p, fc);
  }

  // ---------------------------------------------------------------------
  // Expansions

  /** Everything the expansion of a failed predicate is rendered with. */
  datatype Look = Look(
    t: CharTable,
    differ: Differ,
    words: WordStyles,
    lines: LineStyles,
    palette: Palette,
    options: AssertOptions)

  /** The evaluated operands of the failed predicate, as their Debug text. */
  datatype Expansion =
    | BinaryExpansion(left: Debugged, operator: string, right: Debugged)
    | LetExpansion(expression: Debugged)
    | BoolExpansion

  const UnequalNote := "Note: Left and right compared as unequal, but the Debug output of left and right is identical!"
  const IdenticalNote := "Note: Debug output of left and right is identical."

  /** The compact form of a binary expansion: the word diff on one line, and a note when both sides look the same. */
  function CompactOps(k: Look, left: string, operator: string, right: string): seq<Op>
    requires IsDiffer(k.differ)
  {
    CompactLayout(k.palette, WordDiffPieces(k.t, k.differ, k.words, left, right, true), operator,
      WordDiffPieces(k.t, k.differ, k.words, left, right, false), left == right)
  }

  /** The calls of the compact form, given the pieces of both sides and whether their texts are equal. */
  function CompactLayout(p: Palette, leftPieces: seq<Styled>, operator: string, rightPieces: seq<Styled>, same: bool): seq<Op> {
    [Plain("with expansion:\n"), Plain("  ")]
      + PiecesOps(leftPieces)
      + [Plain(" "), InStyle(operator, p.op), Plain(" ")]
      + PiecesOps(rightPieces)
      + NoteOps(p, operator, same)
  }

  /** The note after the compact form, when both sides have the same text. */
  function NoteOps(p: Palette, operator: string, same: bool): seq<Op> {
    if same then [Flush, if operator == "==" then InStyle(UnequalNote, p.error) else InStyle(IdenticalNote, p.note)]
    else []
  }

  /** The line diff of the pretty forms. */
  function PrettyDiff(k: Look, left: string, right: string): seq<LineDiff>
    requires IsDiffer(k.differ)
  {
    Regroup(k.differ(Lines(left), Lines(right)))
  }

  /** The pretty form of a binary expansion: the interleaved line diff, without its last line break. */
  function PrettyOps(k: Look, left: string, right: string): seq<Op>
    requires IsDiffer(k.differ)
  {
    [Plain("with diff:\n")]
      + PiecesOps(InterleavedPieces(k.t, k.differ, k.words, k.lines, PrettyDiff(k, left, right)))
      + [Pop]
  }

  /** `write_binary`: the compact form when the format allows it and the compact texts are good, else the pretty form. */
  function BinaryOps(k: Look, left: Debugged, operator: string, right: Debugged): seq<Op>
    requires IsDiffer(k.differ)
  {
    if UseCompact(k.options.expand, [left.compact, right.compact]) then CompactOps(k, left.compact, operator, right.compact)
    else PrettyOps(k, left.pretty, right.pretty)
  }

  /** `write_bool`. */
  function BoolOps(k: Look): seq<Op> {
    [Plain("with expansion:\n"), Plain("  "), InStyle("false", k.palette.right)]
  }

  /** Each line indented by two spaces and followed by a flush. */
  function LineOps(k: Look, lines: seq<string>): (ops: seq<Op>)
    ensures |ops| == 3 * |lines|
  {
    if lines == [] then []
    else LineOps(k, lines[..|lines| - 1]) + [Plain("  "), InStyle(lines[|lines| - 1], k.palette.right), Flush]
  }

  /** The text `write_let` expands to: the chosen form of the value. */
  function LetValue(k: Look, e: Debugged): string {
    ExpandAll(k.options.expand, [e])[0]
  }

  /** `write_let`: every line of the value, then the last line break removed. */
  function LetOps(k: Look, e: Debugged): seq<Op> {
    [Plain("with expansion:\n")] + LineOps(k, Lines(LetValue(k, e))) + [Pop]
  }

  /** `Expansion::write`. */
  function ExpansionOps(k: Look, e: Expansion): seq<Op>
    requires IsDiffer(k.differ)
  {
    match e
    case BinaryExpansion(left, operator, right) => BinaryOps(k, left, operator, right)
    case LetExpansion(expression) => LetOps(k, expression)
    case BoolExpansion => BoolOps(k)
  }

  /**
   * The choice of form: Pretty always takes the line diff, Compact always
   * the word diff, and Auto the word diff exactly when both compact texts
   * are at most 40 bytes and on one line.
   */
  lemma CompactChoice(f: ExpansionFormat, left: string, right: string)
    ensures f == Pretty ==> !UseCompact(f, [left, right])
    ensures f == Compact ==> UseCompact(f, [left, right])
    ensures f == Auto ==>
      (UseCompact(f, [left, right]) <==> ByteLen(left) <= 40 && ByteLen(right) <= 40 && '\n' !in left && '\n' !in right)
  {
    var pair := [left, right];
    assert pair[0] == left && pair[1] == right;
  }

  /** The pieces of a diff never flush and never pop. */
  lemma PiecesOpsPut(pieces: seq<Styled>)
    ensures forall i :: 0 <= i < |PiecesOps(pieces)| ==> PiecesOps(pieces)[i].Put?
  {
  }

  /** The text of a short list of calls that only write. */
  lemma OpsTextPuts(acc: string, a: Snippet, b: Snippet, c: Snippet)
    ensures OpsText(acc, [Put(a)]) == acc + a.content
    ensures OpsText(acc, [Put(a), Put(b)]) == acc + a.content + b.content
    ensures OpsText(acc, [Put(a), Put(b), Put(c)]) == acc + a.content + b.content + c.content
  {
    assert [Put(a), Put(b), Put(c)][..2] == [Put(a), Put(b)];
    assert [Put(a), Put(b)][..1] == [Put(a)];
    assert [Put(a)][..0] == [];
  }

  /**
   * The compact form reads `with expansion:`, then on the next line the
   * left text, the operator and the right text; when both texts are equal
   * a note follows on a line of its own.
   */
  lemma CompactLayoutText(p: Palette, lp: seq<Styled>, operator: string, rp: seq<Styled>, same: bool)
    ensures OpsText("", CompactLayout(p, lp, operator, rp, same))
      == "with expansion:\n" + "  " + PlainText(lp) + " " + operator + " " + PlainText(rp)
         + (if same then "\n" + (if operator == "==" then UnequalNote else IdenticalNote) else "")
  {
    var front := [Plain("with expansion:\n"), Plain("  ")] + PiecesOps(lp) + [Plain(" "), InStyle(operator, p.op), Plain(" ")];
    CompactFrontText(p, lp, operator);
    var tc := "with expansion:\n" + "  " + PlainText(lp) + " " + operator + " ";
    OpsTextAppend("", front, PiecesOps(rp));
    PiecesOpsText(tc, rp);
    var td := tc + PlainText(rp);
    var c := NoteOps(p, operator, same);
    OpsTextAppend("", front + PiecesOps(rp), c);
    assert CompactLayout(p, lp, operator, rp, same) == front + PiecesOps(rp) + c;
    NoteText(p, operator, same, td);
  }

  lemma CompactFrontText(p: Palette, lp: seq<Styled>, operator: string)
    ensures OpsText("", [Plain("with expansion:\n"), Plain("  ")] + PiecesOps(lp) + [Plain(" "), InStyle(operator, p.op), Plain(" ")])
      == "with expansion:\n" + "  " + PlainText(lp) + " " + operator + " "
  {
    var a: seq<Op> := [Plain("with expansion:\n"), Plain("  ")];
    var b: seq<Op> := [Plain(" "), InStyle(operator, p.op), Plain(" ")];
    OpsTextPuts("", a[0].snippet, a[1].snippet, a[1].snippet);
    assert "" + "with expansion:\n" == "with expansion:\n";
    var ta := "with expansion:\n" + "  ";
    OpsTextAppend("", a, PiecesOps(lp));
    PiecesOpsText(ta, lp);
    var tb := ta + PlainText(lp);
    OpsTextAppend("", a + PiecesOps(lp), b);
    OpsTextPuts(tb, b[0].snippet, b[1].snippet, b[2].snippet);
  }

  lemma NoteText(p: Palette, operator: string, same: bool, acc: string)
    ensures OpsText(acc, NoteOps(p, operator, same))
      == acc + (if same then "\n" + (if operator == "==" then UnequalNote else IdenticalNote) else "")
  {
    var c := NoteOps(p, operator, same);
    if same {
      OpsTextSnoc(acc, [Flush], c[1]);
      OpsTextSnoc(acc, [], Flush);
      assert [Flush] + [c[1]] == c && [] + [Flush] == [Flush];
    }
  }

  /** The word diff of the compact form spells the two compact texts. */
  lemma CompactText(k: Look, left: string, operator: string, right: string)
    requires IsDiffer(k.differ)
    ensures OpsText("", CompactOps(k, left, operator, right))
      == "with expansion:\n" + "  " + left + " " + operator + " " + right
         + (if left == right then "\n" + (if operator == "==" then UnequalNote else IdenticalNote) else "")
  {
    CompactLayoutText(k.palette, WordDiffPieces(k.t, k.differ, k.words, left, right, true), operator,
      WordDiffPieces(k.t, k.differ, k.words, left, right, false), left == right);
  }

  /** The compact form flushes a line (before its note) exactly when both sides have the same text. */
  lemma CompactNote(p: Palette, lp: seq<Styled>, operator: string, rp: seq<Styled>, same: bool)
    ensures Flush in CompactLayout(p, lp, operator, rp, same) <==> same
    ensures same ==>
      CompactLayout(p, lp, operator, rp, same)[|CompactLayout(p, lp, operator, rp, same)| - 1]
        == if operator == "==" then InStyle(UnequalNote, p.error) else InStyle(IdenticalNote, p.note)
  {
    PiecesOpsPut(lp);
    PiecesOpsPut(rp);
    var front := [Plain("with expansion:\n"), Plain("  ")] + PiecesOps(lp)
      + [Plain(" "), InStyle(operator, p.op), Plain(" ")] + PiecesOps(rp);
    assert forall i :: 0 <= i < |front| ==> front[i].Put?;
    assert Flush !in front;
    assert CompactLayout(p, lp, operator, rp, same) == front + NoteOps(p, operator, same);
  }

  lemma {:induction false} DropLastAppend(a: string, b: string)
    requires b != []
    ensures DropLast(a + b) == a + DropLast(b)
  {
    assert (a + b)[..|a + b| - 1] == a + b[..|b| - 1];
  }

  /**
   * The pretty form reads `with diff:`, then the interleaved lines of the
   * line diff; the entries of the line diff show exactly the lines of each
   * pretty text.
   */
  lemma PrettyText(k: Look, left: string, right: string)
    requires IsDiffer(k.differ)
    ensures LeftLines(PrettyDiff(k, left, right)) == Lines(left)
    ensures RightLines(PrettyDiff(k, left, right)) == Lines(right)
    ensures PrettyDiff(k, left, right) != [] ==>
      OpsText("", PrettyOps(k, left, right)) == "with diff:\n" + Join(InterleavedLines(PrettyDiff(k, left, right)))
  {
    var script := k.differ(Lines(left), Lines(right));
    assert IsEditScript(script, Lines(left), Lines(right));
    RegroupSides(script);
    var diffs := PrettyDiff(k, left, right);
    if diffs != [] {
      var pieces := InterleavedPieces(k.t, k.differ, k.words, k.lines, diffs);
      InterleavedPiecesPlain(k.t, k.differ, k.words, k.lines, diffs);
      PaintAllPlain(pieces);
      InterleavedLinesCount(diffs);
      TerminatedDropLast(InterleavedLines(diffs));
      HeadPiecesPop("with diff:\n", pieces);
    }
  }

  /** A heading, then pieces whose last character the pop removes. */
  lemma HeadPiecesPop(head: string, pieces: seq<Styled>)
    requires PlainText(pieces) != []
    ensures OpsText("", [Plain(head)] + PiecesOps(pieces) + [Pop]) == head + DropLast(PlainText(pieces))
  {
    assert OpsText("", [Plain(head)]) == head by {
      OpsTextSnoc("", [], Plain(head));
      assert [] + [Plain(head)] == [Plain(head)];
    }
    OpsTextAppend("", [Plain(head)], PiecesOps(pieces));
    PiecesOpsText(head, pieces);
    OpsTextSnoc("", [Plain(head)] + PiecesOps(pieces), Pop);
    DropLastAppend(head, PlainText(pieces));
  }

  /** `write_bool` reads `with expansion:`, then `false` on the next line. */
  lemma BoolText(k: Look)
    ensures OpsText("", BoolOps(k)) == "" + "with expansion:\n" + "  " + "false"
  {
    var ops := BoolOps(k);
    OpsTextPuts("", ops[0].snippet, ops[1].snippet, ops[2].snippet);
  }

  /** Every line, indented by two spaces. */
  function Indented(lines: seq<string>): (r: seq<string>)
    ensures |r| == |lines| && forall i :: 0 <= i < |lines| ==> r[i] == "  " + lines[i]
  {
    if lines == [] then [] else Indented(lines[..|lines| - 1]) + ["  " + lines[|lines| - 1]]
  }

  /** Written line by line, the lines come out indented, each followed by a line break. */
  lemma {:induction false} LineOpsText(acc: string, k: Look, lines: seq<string>)
    ensures OpsText(acc, LineOps(k, lines)) == acc + Terminated(Indented(lines))
  {
    if lines != [] {
      var init := lines[..|lines| - 1];
      var last := lines[|lines| - 1];
      LineOpsText(acc, k, init);
      var step: seq<Op> := [Plain("  "), InStyle(last, k.palette.right), Flush];
      OpsTextAppend(acc, LineOps(k, init), step);
      LineStepText(acc + Terminated(Indented(init)), last, k.palette.right);
      IndentedSnoc(lines);
      SeqAssoc(acc, Terminated(Indented(init)), "  " + last + "\n");
    }
  }

  /** One line of `write_let`: two spaces, the line, and a line break. */
  lemma LineStepText(before: string, line: string, style: Style)
    ensures OpsText(before, [Plain("  "), InStyle(line, style), Flush]) == before + ("  " + line + "\n")
  {
    var step: seq<Op> := [Plain("  "), InStyle(line, style), Flush];
    OpsTextPuts(before, step[0].snippet, step[1].snippet, step[1].snippet);
    OpsTextSnoc(before, step[..2], Flush);
    assert step[..2] + [Flush] == step;
  }

  /** The indented lines, terminated, grow by the last one. */
  lemma IndentedSnoc(lines: seq<string>)
    requires lines != []
    ensures Terminated(Indented(lines)) == Terminated(Indented(lines[..|lines| - 1])) + ("  " + lines[|lines| - 1] + "\n")
  {
    var xs := Indented(lines);
    var init := Indented(lines[..|lines| - 1]);
    assert xs[..|xs| - 1] == init;
    TerminatedLast(xs, init, "  " + lines[|lines| - 1]);
  }

  lemma TerminatedLast(xs: seq<string>, init: seq<string>, last: string)
    requires xs != [] && xs[..|xs| - 1] == init && xs[|xs| - 1] == last
    ensures Terminated(xs) == Terminated(init) + (last + "\n")
  {
  }

  /** The value `write_let` shows: the compact form unless the format or the heuristic asks for the pretty one. */
  lemma LetValueChoice(k: Look, e: Debugged)
    ensures LetValue(k, e) == if UseCompact(k.options.expand, [e.compact]) then e.compact else e.pretty
  {
    assert Compacts([e]) == [e.compact];
  }

  /**
   * `write_let` reads `with expansion:`, then every line of the value
   * indented by two spaces, without a line break after the last one.
   */
  lemma LetText(k: Look, e: Debugged)
    requires Lines(LetValue(k, e)) != []
    ensures OpsText("", LetOps(k, e)) == "with expansion:\n" + Join(Indented(Lines(LetValue(k, e))))
  {
    var head := "with expansion:\n";
    var lines := Lines(LetValue(k, e));
    OpsTextPuts("", Plain(head).snippet, Plain(head).snippet, Plain(head).snippet);
    assert "" + head == head;
    OpsTextAppend("", [Plain(head)], LineOps(k, lines));
    LineOpsText(head, k, lines);
    OpsTextSnoc("", [Plain(head)] + LineOps(k, lines), Pop);
    TerminatedDropLast(Indented(lines));
    DropLastAppend(head, Terminated(Indented(lines)));
  }

  /** `write_binary` on its compact path. */
  method WriteCompact(w: WrappingWriter, k: Look, ghost st0: WriterState, ghost done: seq<Op>,
                      left: string, operator: string, right: string)
    requires w.Valid() && Inv(st0) && w.State() == RunOps(k.t, st0, done) && IsDiffer(k.differ)
    modifies w
    ensures w.Valid() && w.State() == RunOps(k.t, st0, done + CompactOps(k, left, operator, right))
  {
    var diff := new SingleLineDiff(k.t, k.differ, k.words, left, right);
    var lp := diff.WriteLeft();
    var rp := diff.WriteRight();
    ghost var sofar := done;
    var a := [Plain("with expansion:\n"), Plain("  ")];
    EmitAll(w, k.t, st0, sofar, a);
    sofar := sofar + a;
    EmitPieces(w, k.t, st0, sofar, lp);
    sofar := sofar + PiecesOps(lp);
    var b := [Plain(" "), InStyle(operator, k.palette.op), Plain(" ")];
    EmitAll(w, k.t, st0, sofar, b);
    sofar := sofar + b;
    EmitPieces(w, k.t, st0, sofar, rp);
    sofar := sofar + PiecesOps(rp);
    var c: seq<Op> := [];
    if left == right {
      if operator == "==" {
        c := [Flush, InStyle(UnequalNote, k.palette.error)];
      } else {
        c := [Flush, InStyle(IdenticalNote, k.palette.note)];
      }
    }
    EmitAll(w, k.t, st0, sofar, c);
    sofar := sofar + c;
    CompactCalls(k.palette, operator, left == right, done, lp, rp, c);
    assert lp == WordDiffPieces(k.t, k.differ, k.words, left, right, true);
    assert rp == WordDiffPieces(k.t, k.differ, k.words, left, right, false);
  }

  lemma CompactCalls(p: Palette, operator: string, same: bool, done: seq<Op>, lp: seq<Styled>, rp: seq<Styled>, c: seq<Op>)
    requires c == NoteOps(p, operator, same)
    ensures done + [Plain("with expansion:\n"), Plain("  ")] + PiecesOps(lp) + [Plain(" "), InStyle(operator, p.op), Plain(" ")]
      + PiecesOps(rp) + c == done + CompactLayout(p, lp, operator, rp, same)
  {
    var a := [Plain("with expansion:\n"), Plain("  ")];
    var b := [Plain(" "), InStyle(operator, p.op), Plain(" ")];
    SeqAssoc(done, a, PiecesOps(lp));
    SeqAssoc(done, a + PiecesOps(lp), b);
    SeqAssoc(done, a + PiecesOps(lp) + b, PiecesOps(rp));
    SeqAssoc(done, a + PiecesOps(lp) + b + PiecesOps(rp), c);
  }

  lemma PiecesOpsAppend(a: seq<Styled>, b: seq<Styled>)
    ensures PiecesOps(a + b) == PiecesOps(a) + PiecesOps(b)
  {
    assert forall i :: 0 <= i < |a + b| ==> PiecesOps(a + b)[i] == (PiecesOps(a) + PiecesOps(b))[i];
  }

  /** `write_binary` on its pretty path: the interleaved line diff, entry by entry, then one character popped. */
  method WritePretty(w: WrappingWriter, k: Look, ghost st0: WriterState, ghost done: seq<Op>, left: string, right: string)
    requires w.Valid() && Inv(st0) && w.State() == RunOps(k.t, st0, done) && IsDiffer(k.differ)
    modifies w
    ensures w.Valid() && w.State() == RunOps(k.t, st0, done + PrettyOps(k, left, right))
  {
    var diff := new MultiLineDiff(k.differ, left, right);
    var entries := diff.lineDiffs;
    Emit(w, k.t, st0, done, Plain("with diff:\n"));
    ghost var start := done + [Plain("with diff:\n")];
    EmitEntries(w, k, st0, start, entries);
    ghost var body := PiecesOps(InterleavedPieces(k.t, k.differ, k.words, k.lines, entries));
    Emit(w, k.t, st0, start + body, Pop);
    PrettyCalls(k, left, right, done, entries);
  }

  /** The loop of `write_interleaved` over the entries of the line diff. */
  method EmitEntries(w: WrappingWriter, k: Look, ghost st0: WriterState, ghost start: seq<Op>, entries: seq<LineDiff>)
    requires w.Valid() && Inv(st0) && w.State() == RunOps(k.t, st0, start) && IsDiffer(k.differ)
    modifies w
    ensures w.Valid()
    ensures w.State() == RunOps(k.t, st0, start + PiecesOps(InterleavedPieces(k.t, k.differ, k.words, k.lines, entries)))
  {
    ghost var sofar := start;
    for i := 0 to |entries|
      invariant sofar == start + PiecesOps(InterleavedPieces(k.t, k.differ, k.words, k.lines, entries[..i]))
      invariant w.Valid() && w.State() == RunOps(k.t, st0, sofar)
    {
      var pieces := WriteEntry(k.t, k.differ, k.words, k.lines, entries[i]);
      EmitPieces(w, k.t, st0, sofar, pieces);
      InterleavedStep(k, entries, i, start, pieces);
      sofar := sofar + PiecesOps(pieces);
    }
    assert entries[..|entries|] == entries;
  }

  lemma InterleavedStep(k: Look, entries: seq<LineDiff>, i: nat, start: seq<Op>, pieces: seq<Styled>)
    requires IsDiffer(k.differ) && i < |entries|
    requires pieces == EntryPieces(k.t, k.differ, k.words, k.lines, entries[i])
    ensures start + PiecesOps(InterleavedPieces(k.t, k.differ, k.words, k.lines, entries[..i])) + PiecesOps(pieces)
      == start + PiecesOps(InterleavedPieces(k.t, k.differ, k.words, k.lines, entries[..i + 1]))
  {
    var before := InterleavedPieces(k.t, k.differ, k.words, k.lines, entries[..i]);
    InterleavedSnoc(k.t, k.differ, k.words, k.lines, entries, i);
    PiecesOpsAppend(before, pieces);
    SeqAssoc(start, PiecesOps(before), PiecesOps(pieces));
  }

  lemma PrettyCalls(k: Look, left: string, right: string, done: seq<Op>, entries: seq<LineDiff>)
    requires IsDiffer(k.differ) && entries == PrettyDiff(k, left, right)
    ensures done + [Plain("with diff:\n")] + PiecesOps(InterleavedPieces(k.t, k.differ, k.words, k.lines, entries)) + [Pop]
      == done + PrettyOps(k, left, right)
  {
    var body := PiecesOps(InterleavedPieces(k.t, k.differ, k.words, k.lines, entries));
    SeqAssoc(done, [Plain("with diff:\n")], body);
    SeqAssoc(done, [Plain("with diff:\n")] + body, [Pop]);
  }

  /** `write_binary`. */
  method WriteBinary(w: WrappingWriter, k: Look, ghost st0: WriterState, ghost done: seq<Op>,
                     left: Debugged, operator: string, right: Debugged)
    requires w.Valid() && Inv(st0) && w.State() == RunOps(k.t, st0, done) && IsDiffer(k.differ)
    modifies w
    ensures w.Valid() && w.State() == RunOps(k.t, st0, done + BinaryOps(k, left, operator, right))
  {
    if !ForcePretty(k.options.expand) {
      var good := IsCompactGood([left.compact, right.compact]);
      if ForceCompact(k.options.expand) || good {
        WriteCompact(w, k, st0, done, left.compact, operator, right.compact);
        return;
      }
    }
    WritePretty(w, k, st0, done, left.pretty, right.pretty);
  }

  /** `write_bool`. */
  method WriteBool(w: WrappingWriter, k: Look, ghost st0: WriterState, ghost done: seq<Op>)
    requires w.Valid() && Inv(st0) && w.State() == RunOps(k.t, st0, done)
    modifies w
    ensures w.Valid() && w.State() == RunOps(k.t, st0, done + BoolOps(k))
  {
    EmitAll(w, k.t, st0, done, [Plain("with expansion:\n"), Plain("  "), InStyle("false", k.palette.right)]);
  }

  /** `write_let`: the chosen form of the value, line by line, then the last line break popped. */
  method WriteLet(w: WrappingWriter, k: Look, ghost st0: WriterState, ghost done: seq<Op>, e: Debugged)
    requires w.Valid() && Inv(st0) && w.State() == RunOps(k.t, st0, done)
    modifies w
    ensures w.Valid() && w.State() == RunOps(k.t, st0, done + LetOps(k, e))
  {
    var format := k.options.expand;
    var good := IsCompactGood([e.compact]);
    var value := if !ForcePretty(format) && (ForceCompact(format) || good) then e.compact else e.pretty;
    LetValueChoice(k, e);
    var lines := Lines(value);
    Emit(w, k.t, st0, done, Plain("with expansion:\n"));
    ghost var start := done + [Plain("with expansion:\n")];
    WriteLines(w, k, st0, start, lines);
    Emit(w, k.t, st0, start + LineOps(k, lines), Pop);
    LetCalls(k, e, done, lines);
  }

  /** The loop of `write_let`: each line indented, in the value's style, and flushed. */
  method WriteLines(w: WrappingWriter, k: Look, ghost st0: WriterState, ghost start: seq<Op>, lines: seq<string>)
    requires w.Valid() && Inv(st0) && w.State() == RunOps(k.t, st0, start)
    modifies w
    ensures w.Valid() && w.State() == RunOps(k.t, st0, start + LineOps(k, lines))
  {
    ghost var sofar := start;
    for i := 0 to |lines|
      invariant sofar == start + LineOps(k, lines[..i])
      invariant w.Valid() && w.State() == RunOps(k.t, st0, sofar)
    {
      var step := [Plain("  "), InStyle(lines[i], k.palette.right), Flush];
      EmitAll(w, k.t, st0, sofar, step);
      LineStep(k, lines, i, start);
      sofar := sofar + step;
    }
    assert lines[..|lines|] == lines;
  }

  lemma LineStep(k: Look, lines: seq<string>, i: nat, start: seq<Op>)
    requires i < |lines|
    ensures start + LineOps(k, lines[..i]) + [Plain("  "), InStyle(lines[i], k.palette.right), Flush]
      == start + LineOps(k, lines[..i + 1])
  {
    assert lines[..i + 1][..i] == lines[..i];
    SeqAssoc(start, LineOps(k, lines[..i]), [Plain("  "), InStyle(lines[i], k.palette.right), Flush]);
  }

  lemma LetCalls(k: Look, e: Debugged, done: seq<Op>, lines: seq<string>)
    requires lines == Lines(LetValue(k, e))
    ensures done + [Plain("with expansion:\n")] + LineOps(k, lines) + [Pop] == done + LetOps(k, e)
  {
    SeqAssoc(done, [Plain("with expansion:\n")], LineOps(k, lines));
    SeqAssoc(done, [Plain("with expansion:\n")] + LineOps(k, lines), [Pop]);
  }

  /** `Expansion::write`. */
  method WriteExpansion(w: WrappingWriter, k: Look, ghost st0: WriterState, ghost done: seq<Op>, e: Expansion)
    requires w.Valid() && Inv(st0) && w.State() == RunOps(k.t, st0, done) && IsDiffer(k.differ)
    modifies w
    ensures w.Valid() && w.State() == RunOps(k.t, st0, done + ExpansionOps(k, e))
  {
    match e {
      case BinaryExpansion(left, operator, right) => WriteBinary(w, k, st0, done, left, operator, right);
      case LetExpansion(expression) => WriteLet(w, k, st0, done, expression);
      case BoolExpansion => WriteBool(w, k, st0, done);
    }
  }

  // ---------------------------------------------------------------------
  // The whole report

  /** One line of the `with:` block: the macro argument and what it expanded to. */
  function FragmentOps(p: Palette, f: Fragment): seq<Op> {
    [Plain("  "), InStyle(f.name, p.macroStyle), Plain(" "), InStyle("=", p.op), Plain(" "),
     InStyle(f.expansion, p.macroStyle), Flush]
  }

  function FragmentLinesOps(p: Palette, fragments: seq<Fragment>): seq<Op> {
    if fragments == [] then []
    else FragmentLinesOps(p, fragments[..|fragments| - 1]) + FragmentOps(p, fragments[|fragments| - 1])
  }

  /** The `with:` block, present only when the check has fragments. */
  function FragmentsOps(p: Palette, fragments: seq<Fragment>): seq<Op> {
    if fragments == [] then [] else [Plain("with:\n")] + FragmentLinesOps(p, fragments)
  }

  /** The custom message, when there is one. */
  function MessageOps(p: Palette, message: Option<string>): seq<Op> {
    match message
    case None => []
    case Some(m) => [Plain("with message:\n  "), InStyle(m, p.note), Flush]
  }

  /** `FailedCheck::print`, up to the point where the buffer goes to standard error. */
  function ReportOps(k: Look, fc: FailedCheck): seq<Op>
    requires fc.failed < |fc.predicates| && IsDiffer(k.differ)
  {
    AssertionOps(k.palette, fc)
      + FragmentsOps(k.palette, fc.fragments)
      + ExpansionOps(k, fc.expansion)
      + [Flush]
      + MessageOps(k.palette, fc.customMessage)
      + [Flush]
  }

  /** The text of the report, from a writer over an empty buffer that is dropped at the end. */
  function ReportText(k: Look, fc: FailedCheck, width: nat): string
    requires fc.failed < |fc.predicates| && IsDiffer(k.differ)
  {
    DropF(RunOps(k.t, NewWriter("", width, k.options.color), ReportOps(k, fc))).buffer
  }

  /**
   * The report ends with an explicit flush, so dropping the writer adds
   * nothing; the report ends in a line break, and every report starts
   * with the `Assertion failed` header.
   */
  lemma ReportEnds(k: Look, fc: FailedCheck, width: nat)
    requires fc.failed < |fc.predicates| && IsDiffer(k.differ)
    ensures var st := RunOps(k.t, NewWriter("", width, k.options.color), ReportOps(k, fc));
      && DropF(st) == st
      && ReportText(k, fc, width) != []
      && ReportText(k, fc, width)[|ReportText(k, fc, width)| - 1] == '\n'
    ensures HeaderOps(k.palette, fc) <= ReportOps(k, fc)
  {
    ReportOpsShape(k, fc);
    EndsWithFlush(k.t, NewWriter("", width, k.options.color), ReportOps(k, fc));
  }

  /** The report's calls start with the header and end with a flush. */
  lemma ReportOpsShape(k: Look, fc: FailedCheck)
    requires fc.failed < |fc.predicates| && IsDiffer(k.differ)
    ensures ReportOps(k, fc) != [] && ReportOps(k, fc)[|ReportOps(k, fc)| - 1] == Flush
    ensures HeaderOps(k.palette, fc) <= ReportOps(k, fc)
  {
    var h := HeaderOps(k.palette, fc);
    var rest := ChainOps(k.palette, fc.predicates, fc.failed, fc.failed + 1) + TailOps(k.palette, fc);
    AssertionOpsParts(k.palette, fc);
    ReportShape(h, rest, FragmentsOps(k.palette, fc.fragments), ExpansionOps(k, fc.expansion),
      MessageOps(k.palette, fc.customMessage));
  }

  /** The layout of the report's calls: a prefix `h`, then the rest, with a flush at the end. */
  lemma ReportShape(h: seq<Op>, rest: seq<Op>, f: seq<Op>, e: seq<Op>, m: seq<Op>)
    ensures var ops := (h + rest) + f + e + [Flush] + m + [Flush];
      ops[|ops| - 1] == Flush && h <= ops
  {
    var ops := (h + rest) + f + e + [Flush] + m + [Flush];
    assert ops == h + (rest + f + e + [Flush] + m + [Flush]);
  }

  /** Calls that end with a flush leave nothing for the drop, and the buffer ends in a line break. */
  lemma EndsWithFlush(t: CharTable, st0: WriterState, ops: seq<Op>)
    requires Inv(st0) && ops != [] && ops[|ops| - 1] == Flush
    ensures var st := RunOps(t, st0, ops);
      && DropF(st) == st && st.buffer != [] && st.buffer[|st.buffer| - 1] == '\n'
  {
    var init := ops[..|ops| - 1];
    SplitLast(ops);
    RunOpsSnoc(t, st0, init, Flush);
    var before := RunOps(t, st0, init);
    assert Apply(t, before, Flush) == FlushLineF(before);
    FlushLineSpec(before);
    DropAfterFlush(before);
  }

  lemma SplitLast<T>(s: seq<T>)
    requires s != []
    ensures s == s[..|s| - 1] + [s[|s| - 1]]
  {
  }

  /** Every fragment takes one line of the `with:` block. */
  lemma {:induction false} FragmentLinesText(p: Palette, fragments: seq<Fragment>, acc: string)
    ensures OpsText(acc, FragmentLinesOps(p, fragments)) == acc + Terminated(FragmentLines(fragments))
  {
    if fragments != [] {
      var init := fragments[..|fragments| - 1];
      var f := fragments[|fragments| - 1];
      FragmentLinesText(p, init, acc);
      OpsTextAppend(acc, FragmentLinesOps(p, init), FragmentOps(p, f));
      FragmentText(p, f, acc + Terminated(FragmentLines(init)));
      assert FragmentLines(fragments)[..|fragments| - 1] == FragmentLines(init);
      SeqAssoc(acc, Terminated(FragmentLines(init)), "  " + f.name + " = " + f.expansion + "\n");
    }
  }

  /** The text of the fragment lines. */
  function FragmentLines(fragments: seq<Fragment>): (r: seq<string>)
    ensures |r| == |fragments|
    ensures forall i :: 0 <= i < |fragments| ==> r[i] == "  " + fragments[i].name + " = " + fragments[i].expansion
  {
    if fragments == [] then []
    else
      var f := fragments[|fragments| - 1];
      FragmentLines(fragments[..|fragments| - 1]) + ["  " + f.name + " = " + f.expansion]
  }

  lemma FragmentText(p: Palette, f: Fragment, acc: string)
    ensures OpsText(acc, FragmentOps(p, f)) == acc + ("  " + f.name + " = " + f.expansion + "\n")
  {
    var ops := FragmentOps(p, f);
    assert ops[..0] == [];
    TakeSnoc(ops, 0);
    OpsTextSnoc(acc, ops[..0], ops[0]);
    TakeSnoc(ops, 1);
    OpsTextSnoc(acc, ops[..1], ops[1]);
    TakeSnoc(ops, 2);
    OpsTextSnoc(acc, ops[..2], ops[2]);
    TakeSnoc(ops, 3);
    OpsTextSnoc(acc, ops[..3], ops[3]);
    TakeSnoc(ops, 4);
    OpsTextSnoc(acc, ops[..4], ops[4]);
    TakeSnoc(ops, 5);
    OpsTextSnoc(acc, ops[..5], ops[5]);
    TakeSnoc(ops, 6);
    OpsTextSnoc(acc, ops[..6], ops[6]);
    assert ops[..7] == ops;
    assert OpsText(acc, ops) == acc + "  " + f.name + " " + "=" + " " + f.expansion + "\n";
  }

  /** The custom message, when given, is written on the line after `with message:`. */
  lemma MessageText(p: Palette, message: Option<string>, acc: string)
    ensures OpsText(acc, MessageOps(p, message))
      == acc + (if message.Some? then "with message:\n  " + message.value + "\n" else "")
  {
    if message.Some? {
      var ops := MessageOps(p, message);
      OpsTextPuts(acc, ops[0].snippet, ops[1].snippet, ops[1].snippet);
      OpsTextSnoc(acc, ops[..2], Flush);
      assert ops[..2] + [Flush] == ops;
    }
  }

  /** The lines of the `with:` block. */
  method WriteFragments(w: WrappingWriter, t: CharTable, ghost st0: WriterState, ghost done: seq<Op>,
                        p: Palette, fragments: seq<Fragment>)
    requires w.Valid() && Inv(st0) && w.State() == RunOps(t, st0, done)
    modifies w
    ensures w.Valid() && w.State() == RunOps(t, st0, done + FragmentsOps(p, fragments))
  {
    if fragments != [] {
      Emit(w, t, st0, done, Plain("with:\n"));
      ghost var start := done + [Plain("with:\n")];
      ghost var sofar := start;
      for i := 0 to |fragments|
        invariant sofar == start + FragmentLinesOps(p, fragments[..i])
        invariant w.Valid() && w.State() == RunOps(t, st0, sofar)
      {
        EmitAll(w, t, st0, sofar, FragmentOps(p, fragments[i]));
        FragmentStep(p, fragments, i, start);
        sofar := sofar + FragmentOps(p, fragments[i]);
      }
      assert fragments[..|fragments|] == fragments;
      SeqAssoc(done, [Plain("with:\n")], FragmentLinesOps(p, fragments));
    } else {
      assert done + FragmentsOps(p, fragments) == done;
    }
  }

  lemma FragmentStep(p: Palette, fragments: seq<Fragment>, i: nat, start: seq<Op>)
    requires i < |fragments|
    ensures start + FragmentLinesOps(p, fragments[..i]) + FragmentOps(p, fragments[i])
      == start + FragmentLinesOps(p, fragments[..i + 1])
  {
    assert fragments[..i + 1][..i] == fragments[..i];
    SeqAssoc(start, FragmentLinesOps(p, fragments[..i]), FragmentOps(p, fragments[i]));
  }

  /** The custom message, when there is one, under `with message:`. */
  method WriteMessage(w: WrappingWriter, t: CharTable, ghost st0: WriterState, ghost done: seq<Op>,
                      p: Palette, message: Option<string>)
    requires w.Valid() && Inv(st0) && w.State() == RunOps(t, st0, done)
    modifies w
    ensures w.Valid() && w.State() == RunOps(t, st0, done + MessageOps(p, message))
  {
    match message {
      case Some(m) =>
        EmitAll(w, t, st0, done, [Plain("with message:\n  "), InStyle(m, p.note), Flush]);
      case None =>
        assert done + [] == done;
    }
  }

  /** Everything `FailedCheck::print` writes, in order. */
  method WriteReport(w: WrappingWriter, k: Look, fc: FailedCheck)
    requires w.Valid() && fc.failed < |fc.predicates| && IsDiffer(k.differ)
    modifies w
    ensures w.Valid() && w.State() == RunOps(k.t, old(w.State()), ReportOps(k, fc))
  {
    ghost var st0 := w.State();
    PrintAssertion(w, k.t, k.palette, fc);
    ghost var done := AssertionOps(k.palette, fc);
    WriteFragments(w, k.t, st0, done, k.palette, fc.fragments);
    done := done + FragmentsOps(k.palette, fc.fragments);
    WriteExpansion(w, k, st0, done, fc.expansion);
    done := done + ExpansionOps(k, fc.expansion);
    Emit(w, k.t, st0, done, Flush);
    done := done + [Flush];
    WriteMessage(w, k.t, st0, done, k.palette, fc.customMessage);
    done := done + MessageOps(k.palette, fc.customMessage);
    Emit(w, k.t, st0, done, Flush);
  }

  /**
   * `FailedCheck::print`: the report is laid out in a fresh writer over an
   * empty buffer, which is dropped before the buffer is returned.
   */
  method Print(k: Look, fc: FailedCheck, width: nat) returns (output: string)
    requires fc.failed < |fc.predicates| && IsDiffer(k.differ)
    ensures output == ReportText(k, fc, width)
  {
    var w := new WrappingWriter("", width, k.options.color);
    WriteReport(w, k, fc);
    w.Drop();
    output := w.buffer;
  }
}
