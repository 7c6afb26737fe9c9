/**
 * The tests of the wrapping writer, replayed on the model: every write of
 * each test as one step from the state before it to the state after it,
 * and the buffer the drop leaves. The terminal gives every character one
 * cell, styling is on, and every style is the default one, which adds no
 * escape codes.
 */
module WriterTests {
  import opened Common
  import opened Writer

  /** The state `WrappingWriter::new` makes on an empty buffer, 20 cells wide, with styling on. */
  lemma FreshWriter()
    ensures NewWriter("", 20, true) == WriterState("", 20, true, 0, [], false, 0)
  {
  }

  /** The wrapping tests start with "four" on the fresh writer of `FreshWriter`. */
  lemma Four1(t: CharTable)
    requires forall c :: t.width(c) == Some(1)
    ensures WriteSnippetF(t, WriterState("", 20, true, 0, [], false, 0), "four", PlainStyle, None)
         == WriterState("four", 20, true, 4, [], true, 0)
  {
    PlainFits(t, WriterState("", 20, true, 0, [], false, 0), "four", None);
    Four1Text();
  }

  /** Then a space. */
  lemma Four2(t: CharTable)
    requires forall c :: t.width(c) == Some(1)
    ensures WriteSnippetF(t, WriterState("four", 20, true, 4, [], true, 0), " ", PlainStyle, None)
         == WriterState("four ", 20, true, 5, [], true, 0)
  {
    PlainFits(t, WriterState("four", 20, true, 4, [], true, 0), " ", None);
    Four2Text();
  }

  /** Then "four", underlined: the mark covers its cells 5..9. */
  lemma Four3(t: CharTable)
    requires forall c :: t.width(c) == Some(1)
    ensures WriteSnippetF(t, WriterState("four ", 20, true, 5, [], true, 0), "four", PlainStyle, Some(PlainStyle))
         == WriterState("four four", 20, true, 9, [Mark(5, 9, PlainStyle)], true, 0)
  {
    PlainFits(t, WriterState("four ", 20, true, 5, [], true, 0), "four", Some(PlainStyle));
    Four3Text();
  }

  /** Then a space. */
  lemma Four4(t: CharTable)
    requires forall c :: t.width(c) == Some(1)
    ensures WriteSnippetF(t, WriterState("four four", 20, true, 9, [Mark(5, 9, PlainStyle)], true, 0), " ", PlainStyle, None)
         == WriterState("four four ", 20, true, 10, [Mark(5, 9, PlainStyle)], true, 0)
  {
    PlainFits(t, WriterState("four four", 20, true, 9, [Mark(5, 9, PlainStyle)], true, 0), " ", None);
    Four4Text();
  }

  /** Exceeding the line length: a third "four". */
  lemma Wrap5(t: CharTable)
    requires forall c :: t.width(c) == Some(1)
    ensures WriteSnippetF(t, WriterState("four four ", 20, true, 10, [Mark(5, 9, PlainStyle)], true, 0), "four", PlainStyle, None)
         == WriterState("four four four", 20, true, 14, [Mark(5, 9, PlainStyle)], true, 0)
  {
    PlainFits(t, WriterState("four four ", 20, true, 10, [Mark(5, 9, PlainStyle)], true, 0), "four", None);
    Wrap5Text();
  }

  /** Then a space. */
  lemma Wrap6(t: CharTable)
    requires forall c :: t.width(c) == Some(1)
    ensures WriteSnippetF(t, WriterState("four four four", 20, true, 14, [Mark(5, 9, PlainStyle)], true, 0), " ", PlainStyle, None)
         == WriterState("four four four ", 20, true, 15, [Mark(5, 9, PlainStyle)], true, 0)
  {
    PlainFits(t, WriterState("four four four", 20, true, 14, [Mark(5, 9, PlainStyle)], true, 0), " ", None);
    Wrap6Text();
  }

  /** Then "four", underlined over cells 15..19. */
  lemma Wrap7(t: CharTable)
    requires forall c :: t.width(c) == Some(1)
    ensures WriteSnippetF(t, WriterState("four four four ", 20, true, 15, [Mark(5, 9, PlainStyle)], true, 0), "four", PlainStyle, Some(PlainStyle))
         == WriterState("four four four four", 20, true, 19, [Mark(5, 9, PlainStyle), Mark(15, 19, PlainStyle)], true, 0)
  {
    PlainFits(t, WriterState("four four four ", 20, true, 15, [Mark(5, 9, PlainStyle)], true, 0), "four", Some(PlainStyle));
    Wrap7Text();
  }

  /** Then a space, which fills the line to its 20 cells. */
  lemma Wrap8(t: CharTable)
    requires forall c :: t.width(c) == Some(1)
    ensures WriteSnippetF(t, WriterState("four four four four", 20, true, 19, [Mark(5, 9, PlainStyle), Mark(15, 19, PlainStyle)], true, 0), " ", PlainStyle, None)
         == WriterState("four four four four ", 20, true, 20, [Mark(5, 9, PlainStyle), Mark(15, 19, PlainStyle)], true, 0)
  {
    PlainFits(t, WriterState("four four four four", 20, true, 19, [Mark(5, 9, PlainStyle), Mark(15, 19, PlainStyle)], true, 0), " ", None);
    Wrap8Text();
  }

  /** The underline row of that line. */
  lemma Wrap8FlushRow()
    ensures MarksOrdered([Mark(5, 9, PlainStyle), Mark(15, 19, PlainStyle)], PrevEnd([Mark(5, 9, PlainStyle), Mark(15, 19, PlainStyle)]))
    ensures UndercurlRow([Mark(5, 9, PlainStyle), Mark(15, 19, PlainStyle)], true) == "     ^^^^      ^^^^"
  {
    TwoMarkRow(Mark(5, 9, PlainStyle), Mark(15, 19, PlainStyle));
    assert Repeat(' ', 5) == "     ";
    assert Repeat('^', 4) == "^^^^";
    assert Repeat(' ', 6) == "      ";
  }

  /** The full line flushed: its underline row marks cells 5..9 and 15..19. */
  lemma Wrap8Flush()
    ensures FlushLineF(WriterState("four four four four ", 20, true, 20, [Mark(5, 9, PlainStyle), Mark(15, 19, PlainStyle)], true, 0))
         == WriterState("four four four four \n     ^^^^      ^^^^\n", 20, true, 0, [], false, 0)
  {
    Wrap8FlushRow();
    Wrap8FlushText();
  }

  /** The word on the fresh line. */
  lemma Wrap9Start(t: CharTable)
    requires forall c :: t.width(c) == Some(1)
    ensures WriteSnippetF(t, WriterState("four four four four \n     ^^^^      ^^^^\n", 20, true, 0, [], false, 0), "four", PlainStyle, Some(PlainStyle))
         == WriterState("four four four four \n     ^^^^      ^^^^\nfour", 20, true, 4, [Mark(0, 4, PlainStyle)], true, 0)
  {
    PlainFits(t, WriterState("four four four four \n     ^^^^      ^^^^\n", 20, true, 0, [], false, 0), "four", Some(PlainStyle));
    Wrap9StartText();
  }

  /** The next underlined "four" does not fit: the line is flushed with its underline row and the word starts the next line. */
  lemma Wrap9(t: CharTable)
    requires forall c :: t.width(c) == Some(1)
    ensures WriteSnippetF(t, WriterState("four four four four ", 20, true, 20, [Mark(5, 9, PlainStyle), Mark(15, 19, PlainStyle)], true, 0), "four", PlainStyle, Some(PlainStyle))
         == WriterState("four four four four \n     ^^^^      ^^^^\nfour", 20, true, 4, [Mark(0, 4, PlainStyle)], true, 0)
  {
    OverflowFlushes(t, WriterState("four four four four ", 20, true, 20, [Mark(5, 9, PlainStyle), Mark(15, 19, PlainStyle)], true, 0), "four", PlainStyle, Some(PlainStyle));
    Wrap8Flush();
    Wrap9Start(t);
  }

  /** Then "!". */
  lemma Wrap10(t: CharTable)
    requires forall c :: t.width(c) == Some(1)
    ensures WriteSnippetF(t, WriterState("four four four four \n     ^^^^      ^^^^\nfour", 20, true, 4, [Mark(0, 4, PlainStyle)], true, 0), "!", PlainStyle, None)
         == WriterState("four four four four \n     ^^^^      ^^^^\nfour!", 20, true, 5, [Mark(0, 4, PlainStyle)], true, 0)
  {
    PlainFits(t, WriterState("four four four four \n     ^^^^      ^^^^\nfour", 20, true, 4, [Mark(0, 4, PlainStyle)], true, 0), "!", None);
    Wrap10Text();
  }

  /** The underline row of that line. */
  lemma WrapDropRow()
    ensures MarksOrdered([Mark(0, 4, PlainStyle)], PrevEnd([Mark(0, 4, PlainStyle)]))
    ensures UndercurlRow([Mark(0, 4, PlainStyle)], true) == "^^^^"
  {
    OneMarkRow(Mark(0, 4, PlainStyle));
    assert Repeat(' ', 0) == "";
    assert Repeat('^', 4) == "^^^^";
  }

  /** The drop flushes the second line and its underline row: the buffer the test expects. */
  lemma WrapDrop()
    ensures DropF(WriterState("four four four four \n     ^^^^      ^^^^\nfour!", 20, true, 5, [Mark(0, 4, PlainStyle)], true, 0)).buffer
         == "four four four four \n     ^^^^      ^^^^\nfour!\n^^^^\n"
  {
    WrapDropRow();
    WrapDropText();
  }

  /** The underline row of that line. */
  lemma Break5FlushRow()
    ensures MarksOrdered([Mark(5, 9, PlainStyle)], PrevEnd([Mark(5, 9, PlainStyle)]))
    ensures UndercurlRow([Mark(5, 9, PlainStyle)], true) == "     ^^^^"
  {
    OneMarkRow(Mark(5, 9, PlainStyle));
    assert Repeat(' ', 5) == "     ";
    assert Repeat('^', 4) == "^^^^";
  }

  /** The first line, "four four four", flushed with its underline row. */
  lemma Break5Flush()
    ensures FlushLineF(WriterState("four four four", 20, true, 14, [Mark(5, 9, PlainStyle)], true, 0))
         == WriterState("four four four\n     ^^^^\n", 20, true, 0, [], false, 0)
  {
    Break5FlushRow();
    Break5FlushText();
  }

  /** A line break in a snippet: "four\n" ends the line, which is flushed with its underline row. */
  lemma Break5(t: CharTable)
    requires forall c :: t.width(c) == Some(1)
    ensures WriteSnippetF(t, WriterState("four four ", 20, true, 10, [Mark(5, 9, PlainStyle)], true, 0), "four\n", PlainStyle, None)
         == WriterState("four four four\n     ^^^^\n", 20, true, 0, [], false, 0)
  {
    PlainLineBreak(t, WriterState("four four ", 20, true, 10, [Mark(5, 9, PlainStyle)], true, 0), "four", None);
    Break5Text();
    Break5Flush();
  }

  /** Then a space starts the next line. */
  lemma Break6(t: CharTable)
    requires forall c :: t.width(c) == Some(1)
    ensures WriteSnippetF(t, WriterState("four four four\n     ^^^^\n", 20, true, 0, [], false, 0), " ", PlainStyle, None)
         == WriterState("four four four\n     ^^^^\n ", 20, true, 1, [], true, 0)
  {
    PlainFits(t, WriterState("four four four\n     ^^^^\n", 20, true, 0, [], false, 0), " ", None);
    Break6Text();
  }

  /** Then "four", underlined over cells 1..5. */
  lemma Break7(t: CharTable)
    requires forall c :: t.width(c) == Some(1)
    ensures WriteSnippetF(t, WriterState("four four four\n     ^^^^\n ", 20, true, 1, [], true, 0), "four", PlainStyle, Some(PlainStyle))
         == WriterState("four four four\n     ^^^^\n four", 20, true, 5, [Mark(1, 5, PlainStyle)], true, 0)
  {
    PlainFits(t, WriterState("four four four\n     ^^^^\n ", 20, true, 1, [], true, 0), "four", Some(PlainStyle));
    Break7Text();
  }

  /** Then a space. */
  lemma Break8(t: CharTable)
    requires forall c :: t.width(c) == Some(1)
    ensures WriteSnippetF(t, WriterState("four four four\n     ^^^^\n four", 20, true, 5, [Mark(1, 5, PlainStyle)], true, 0), " ", PlainStyle, None)
         == WriterState("four four four\n     ^^^^\n four ", 20, true, 6, [Mark(1, 5, PlainStyle)], true, 0)
  {
    PlainFits(t, WriterState("four four four\n     ^^^^\n four", 20, true, 5, [Mark(1, 5, PlainStyle)], true, 0), " ", None);
    Break8Text();
  }

  /** Then "four", underlined over cells 6..10. */
  lemma Break9(t: CharTable)
    requires forall c :: t.width(c) == Some(1)
    ensures WriteSnippetF(t, WriterState("four four four\n     ^^^^\n four ", 20, true, 6, [Mark(1, 5, PlainStyle)], true, 0), "four", PlainStyle, Some(PlainStyle))
         == WriterState("four four four\n     ^^^^\n four four", 20, true, 10, [Mark(1, 5, PlainStyle), Mark(6, 10, PlainStyle)], true, 0)
  {
    PlainFits(t, WriterState("four four four\n     ^^^^\n four ", 20, true, 6, [Mark(1, 5, PlainStyle)], true, 0), "four", Some(PlainStyle));
    Break9Text();
  }

  /** Then "!". */
  lemma Break10(t: CharTable)
    requires forall c :: t.width(c) == Some(1)
    ensures WriteSnippetF(t, WriterState("four four four\n     ^^^^\n four four", 20, true, 10, [Mark(1, 5, PlainStyle), Mark(6, 10, PlainStyle)], true, 0), "!", PlainStyle, None)
         == WriterState("four four four\n     ^^^^\n four four!", 20, true, 11, [Mark(1, 5, PlainStyle), Mark(6, 10, PlainStyle)], true, 0)
  {
    PlainFits(t, WriterState("four four four\n     ^^^^\n four four", 20, true, 10, [Mark(1, 5, PlainStyle), Mark(6, 10, PlainStyle)], true, 0), "!", None);
    Break10Text();
  }

  /** The underline row of that line. */
  lemma BreakDropRow()
    ensures MarksOrdered([Mark(1, 5, PlainStyle), Mark(6, 10, PlainStyle)], PrevEnd([Mark(1, 5, PlainStyle), Mark(6, 10, PlainStyle)]))
    ensures UndercurlRow([Mark(1, 5, PlainStyle), Mark(6, 10, PlainStyle)], true) == " ^^^^ ^^^^"
  {
    TwoMarkRow(Mark(1, 5, PlainStyle), Mark(6, 10, PlainStyle));
    assert Repeat(' ', 1) == " ";
    assert Repeat('^', 4) == "^^^^";
  }

  /** The drop flushes the second line and its underline row: the buffer the test expects. */
  lemma BreakDrop()
    ensures DropF(WriterState("four four four\n     ^^^^\n four four!", 20, true, 11, [Mark(1, 5, PlainStyle), Mark(6, 10, PlainStyle)], true, 0)).buffer
         == "four four four\n     ^^^^\n four four!\n ^^^^ ^^^^\n"
  {
    BreakDropRow();
    BreakDropText();
  }

  /** The drop tests start with "Hello" on the fresh writer of `FreshWriter`. */
  lemma Flushed1(t: CharTable)
    requires forall c :: t.width(c) == Some(1)
    ensures WriteSnippetF(t, WriterState("", 20, true, 0, [], false, 0), "Hello", PlainStyle, None)
         == WriterState("Hello", 20, true, 5, [], true, 0)
  {
    PlainFits(t, WriterState("", 20, true, 0, [], false, 0), "Hello", None);
    Flushed1Text();
  }

  /** Then a space. */
  lemma Flushed2(t: CharTable)
    requires forall c :: t.width(c) == Some(1)
    ensures WriteSnippetF(t, WriterState("Hello", 20, true, 5, [], true, 0), " ", PlainStyle, None)
         == WriterState("Hello ", 20, true, 6, [], true, 0)
  {
    PlainFits(t, WriterState("Hello", 20, true, 5, [], true, 0), " ", None);
    Flushed2Text();
  }

  /** Then "dear", underlined over cells 6..10. */
  lemma Flushed3(t: CharTable)
    requires forall c :: t.width(c) == Some(1)
    ensures WriteSnippetF(t, WriterState("Hello ", 20, true, 6, [], true, 0), "dear", PlainStyle, Some(PlainStyle))
         == WriterState("Hello dear", 20, true, 10, [Mark(6, 10, PlainStyle)], true, 0)
  {
    PlainFits(t, WriterState("Hello ", 20, true, 6, [], true, 0), "dear", Some(PlainStyle));
    Flushed3Text();
  }

  /** Then a space. */
  lemma Flushed4(t: CharTable)
    requires forall c :: t.width(c) == Some(1)
    ensures WriteSnippetF(t, WriterState("Hello dear", 20, true, 10, [Mark(6, 10, PlainStyle)], true, 0), " ", PlainStyle, None)
         == WriterState("Hello dear ", 20, true, 11, [Mark(6, 10, PlainStyle)], true, 0)
  {
    PlainFits(t, WriterState("Hello dear", 20, true, 10, [Mark(6, 10, PlainStyle)], true, 0), " ", None);
    Flushed4Text();
  }

  /** Then "world", underlined over cells 11..16. */
  lemma Flushed5(t: CharTable)
    requires forall c :: t.width(c) == Some(1)
    ensures WriteSnippetF(t, WriterState("Hello dear ", 20, true, 11, [Mark(6, 10, PlainStyle)], true, 0), "world", PlainStyle, Some(PlainStyle))
         == WriterState("Hello dear world", 20, true, 16, [Mark(6, 10, PlainStyle), Mark(11, 16, PlainStyle)], true, 0)
  {
    PlainFits(t, WriterState("Hello dear ", 20, true, 11, [Mark(6, 10, PlainStyle)], true, 0), "world", Some(PlainStyle));
    Flushed5Text();
  }

  /** Then "!". */
  lemma Flushed6(t: CharTable)
    requires forall c :: t.width(c) == Some(1)
    ensures WriteSnippetF(t, WriterState("Hello dear world", 20, true, 16, [Mark(6, 10, PlainStyle), Mark(11, 16, PlainStyle)], true, 0), "!", PlainStyle, None)
         == WriterState("Hello dear world!", 20, true, 17, [Mark(6, 10, PlainStyle), Mark(11, 16, PlainStyle)], true, 0)
  {
    PlainFits(t, WriterState("Hello dear world", 20, true, 16, [Mark(6, 10, PlainStyle), Mark(11, 16, PlainStyle)], true, 0), "!", None);
    Flushed6Text();
  }

  /** The underline row of that line. */
  lemma FlushedLineRow()
    ensures MarksOrdered([Mark(6, 10, PlainStyle), Mark(11, 16, PlainStyle)], PrevEnd([Mark(6, 10, PlainStyle), Mark(11, 16, PlainStyle)]))
    ensures UndercurlRow([Mark(6, 10, PlainStyle), Mark(11, 16, PlainStyle)], true) == "      ^^^^ ^^^^^"
  {
    TwoMarkRow(Mark(6, 10, PlainStyle), Mark(11, 16, PlainStyle));
    assert Repeat(' ', 6) == "      ";
    assert Repeat('^', 4) == "^^^^";
    assert Repeat(' ', 1) == " ";
    assert Repeat('^', 5) == "^^^^^";
  }

  /** Flushing the line writes it and its underline row. */
  lemma FlushedLine()
    ensures FlushLineF(WriterState("Hello dear world!", 20, true, 17, [Mark(6, 10, PlainStyle), Mark(11, 16, PlainStyle)], true, 0))
         == WriterState("Hello dear world!\n      ^^^^ ^^^^^\n", 20, true, 0, [], false, 0)
  {
    FlushedLineRow();
    FlushedLineText();
  }

  /** Dropping the writer flushes the pending line; after an explicit flush the drop adds nothing. */
  lemma FlushedDrop()
    ensures DropF(WriterState("Hello dear world!", 20, true, 17, [Mark(6, 10, PlainStyle), Mark(11, 16, PlainStyle)], true, 0)).buffer == "Hello dear world!\n      ^^^^ ^^^^^\n"
    ensures DropF(WriterState("Hello dear world!\n      ^^^^ ^^^^^\n", 20, true, 0, [], false, 0)).buffer == "Hello dear world!\n      ^^^^ ^^^^^\n"
  {
    FlushedLine();
  }

  // String concatenations of the steps above. These model nothing of the
  // writer: each one only joins literal texts, and is kept apart from its
  // step so that the solver meets the literals in a small context.

  /** The texts and marks `Four1` puts together. */
  lemma Four1Text()
    ensures "" + "four" == "four"
  {
  }

  /** The texts and marks `Four2` puts together. */
  lemma Four2Text()
    ensures "four" + " " == "four "
  {
  }

  /** The texts and marks `Four3` puts together. */
  lemma Four3Text()
    ensures "four " + "four" == "four four"
    ensures [] + [Mark(5, 9, PlainStyle)] == [Mark(5, 9, PlainStyle)]
  {
  }

  /** The texts and marks `Four4` puts together. */
  lemma Four4Text()
    ensures "four four" + " " == "four four "
  {
  }

  /** The texts and marks `Wrap5` puts together. */
  lemma Wrap5Text()
    ensures "four four " + "four" == "four four four"
  {
  }

  /** The texts and marks `Wrap6` puts together. */
  lemma Wrap6Text()
    ensures "four four four" + " " == "four four four "
  {
  }

  /** The texts and marks `Wrap7` puts together. */
  lemma Wrap7Text()
    ensures "four four four " + "four" == "four four four four"
    ensures [Mark(5, 9, PlainStyle)] + [Mark(15, 19, PlainStyle)] == [Mark(5, 9, PlainStyle), Mark(15, 19, PlainStyle)]
  {
  }

  /** The texts and marks `Wrap8` puts together. */
  lemma Wrap8Text()
    ensures "four four four four" + " " == "four four four four "
  {
  }

  /** The texts and marks `Wrap8Flush` puts together. */
  lemma Wrap8FlushText()
    ensures "four four four four " + "\n" + "     ^^^^      ^^^^" + "\n" == "four four four four \n     ^^^^      ^^^^\n"
  {
  }

  /** The texts and marks `Wrap9Start` puts together. */
  lemma Wrap9StartText()
    ensures "four four four four \n     ^^^^      ^^^^\n" + "four" == "four four four four \n     ^^^^      ^^^^\nfour"
    ensures [] + [Mark(0, 4, PlainStyle)] == [Mark(0, 4, PlainStyle)]
  {
  }

  /** The texts and marks `Wrap10` puts together. */
  lemma Wrap10Text()
    ensures "four four four four \n     ^^^^      ^^^^\nfour" + "!" == "four four four four \n     ^^^^      ^^^^\nfour!"
  {
  }

  /** The texts and marks `WrapDrop` puts together. */
  lemma WrapDropText()
    ensures "four four four four \n     ^^^^      ^^^^\nfour!" + "\n" + "^^^^" + "\n" == "four four four four \n     ^^^^      ^^^^\nfour!\n^^^^\n"
  {
  }

  /** The texts and marks `Break5Flush` puts together. */
  lemma Break5FlushText()
    ensures "four four four" + "\n" + "     ^^^^" + "\n" == "four four four\n     ^^^^\n"
  {
  }

  /** The texts and marks `Break5` puts together. */
  lemma Break5Text()
    ensures "four" + "\n" == "four\n"
    ensures "four four " + "four" == "four four four"
  {
  }

  /** The texts and marks `Break6` puts together. */
  lemma Break6Text()
    ensures "four four four\n     ^^^^\n" + " " == "four four four\n     ^^^^\n "
  {
  }

  /** The texts and marks `Break7` puts together. */
  lemma Break7Text()
    ensures "four four four\n     ^^^^\n " + "four" == "four four four\n     ^^^^\n four"
    ensures [] + [Mark(1, 5, PlainStyle)] == [Mark(1, 5, PlainStyle)]
  {
  }

  /** The texts and marks `Break8` puts together. */
  lemma Break8Text()
    ensures "four four four\n     ^^^^\n four" + " " == "four four four\n     ^^^^\n four "
  {
  }

  /** The texts and marks `Break9` puts together. */
  lemma Break9Text()
    ensures "four four four\n     ^^^^\n four " + "four" == "four four four\n     ^^^^\n four four"
    ensures [Mark(1, 5, PlainStyle)] + [Mark(6, 10, PlainStyle)] == [Mark(1, 5, PlainStyle), Mark(6, 10, PlainStyle)]
  {
  }

  /** The texts and marks `Break10` puts together. */
  lemma Break10Text()
    ensures "four four four\n     ^^^^\n four four" + "!" == "four four four\n     ^^^^\n four four!"
  {
  }

  /** The texts and marks `BreakDrop` puts together. */
  lemma BreakDropText()
    ensures "four four four\n     ^^^^\n four four!" + "\n" + " ^^^^ ^^^^" + "\n" == "four four four\n     ^^^^\n four four!\n ^^^^ ^^^^\n"
  {
  }

  /** The texts and marks `Flushed1` puts together. */
  lemma Flushed1Text()
    ensures "" + "Hello" == "Hello"
  {
  }

  /** The texts and marks `Flushed2` puts together. */
  lemma Flushed2Text()
    ensures "Hello" + " " == "Hello "
  {
  }

  /** The texts and marks `Flushed3` puts together. */
  lemma Flushed3Text()
    ensures "Hello " + "dear" == "Hello dear"
    ensures [] + [Mark(6, 10, PlainStyle)] == [Mark(6, 10, PlainStyle)]
  {
  }

  /** The texts and marks `Flushed4` puts together. */
  lemma Flushed4Text()
    ensures "Hello dear" + " " == "Hello dear "
  {
  }

  /** The texts and marks `Flushed5` puts together. */
  lemma Flushed5Text()
    ensures "Hello dear " + "world" == "Hello dear world"
    ensures [Mark(6, 10, PlainStyle)] + [Mark(11, 16, PlainStyle)] == [Mark(6, 10, PlainStyle), Mark(11, 16, PlainStyle)]
  {
  }

  /** The texts and marks `Flushed6` puts together. */
  lemma Flushed6Text()
    ensures "Hello dear world" + "!" == "Hello dear world!"
  {
  }

  /** The texts and marks `FlushedLine` puts together. */
  lemma FlushedLineText()
    ensures "Hello dear world!" + "\n" + "      ^^^^ ^^^^^" + "\n" == "Hello dear world!\n      ^^^^ ^^^^^\n"
  {
  }
}
