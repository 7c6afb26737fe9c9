/**
 * The per-thread stack of informational messages (`info!` and `capture!`)
 * that is printed with a failed assertion, and the indentation of captured
 * values. The thread-local stack is an object passed to each operation.
 */
module Info {
  import opened Common

  /** A captured expression with the pretty Debug text of its value. */
  datatype Capture = Capture(expression: string, value: string)

  datatype Message = StringMessage(text: string) | CaptureMessage(capture: Capture)

  /** The token a push hands back; dropping it pops the stack. */
  datatype InfoGuard = InfoGuard

  class InfoStack {
    var messages: seq<Message>

    constructor()
      ensures messages == []
    {
      messages := [];
    }

    /** `info_count`. */
    function Count(): (n: nat)
      reads this
      ensures n == |messages|
    {
      |messages|
    }

    /** `push_message`: the message goes on top. */
    method PushMessage(message: string) returns (guard: InfoGuard)
      modifies this
      ensures messages == old(messages) + [StringMessage(message)]
      ensures Count() == old(Count()) + 1
    {
      messages := messages + [StringMessage(message)];
      guard := InfoGuard;
    }

    /** `push_capture`: the captured expression goes on top. */
    method PushCapture(expression: string, value: string) returns (guard: InfoGuard)
      modifies this
      ensures messages == old(messages) + [CaptureMessage(Capture(expression, value))]
      ensures Count() == old(Count()) + 1
    {
      messages := messages + [CaptureMessage(Capture(expression, value))];
      guard := InfoGuard;
    }

    /** `pop_info`: the most recent message goes; an empty stack stays empty. */
    method PopInfo()
      modifies this
      ensures old(messages) == [] ==> messages == []
      ensures old(messages) != [] ==> messages == old(messages)[..|old(messages)| - 1]
    {
      if messages != [] {
        messages := messages[..|messages| - 1];
      }
    }

    /** Dropping an `InfoGuard` pops once. */
    method DropGuard(guard: InfoGuard)
      modifies this
      ensures old(messages) != [] ==> messages == old(messages)[..|old(messages)| - 1]
      ensures old(messages) == [] ==> messages == []
    {
      PopInfo();
    }
  }

  /** `info!` in a scope: the push and the drop of its guard at the end of the scope leave the stack as it was. */
  method InfoScope(stack: InfoStack, message: string)
    modifies stack
    ensures stack.messages == old(stack.messages)
  {
    var guard := stack.PushMessage(message);
    stack.DropGuard(guard);
    assert old(stack.messages) + [StringMessage(message)] == stack.messages + [StringMessage(message)];
  }

  /** `capture!` in a scope: the same for a captured value. */
  method CaptureScope(stack: InfoStack, expression: string, value: string)
    modifies stack
    ensures stack.messages == old(stack.messages)
  {
    var guard := stack.PushCapture(expression, Indent(value));
    stack.DropGuard(guard);
  }

  // ---------------------------------------------------------------------
  // Indentation

  /** `indent`: two spaces after every line break, so a multi-line value lines up under its first line. */
  function Indent(s: string): string {
    if s == [] then []
    else if s[0] == '\n' then "\n  " + Indent(s[1..])
    else [s[0]] + Indent(s[1..])
  }

  /** The inverse: two spaces after a line break are dropped. */
  function Unindent(s: string): string {
    if s == [] then []
    else if s[0] == '\n' && |s| >= 3 && s[1] == ' ' && s[2] == ' ' then "\n" + Unindent(s[3..])
    else [s[0]] + Unindent(s[1..])
  }

  /** Indenting can be undone: nothing but the inserted spaces is added. */
  lemma {:induction false} UnindentIndent(s: string)
    ensures Unindent(Indent(s)) == s
  {
    if s != [] {
      UnindentIndent(s[1..]);
      var t := Indent(s);
      if s[0] == '\n' {
        assert t[3..] == Indent(s[1..]);
      } else {
        assert t[1..] == Indent(s[1..]);
      }
    }
  }

  /** Two more characters per line break, the same line breaks, and no change without them. */
  lemma {:induction false} IndentLength(s: string)
    ensures |Indent(s)| == |s| + 2 * Count('\n', s)
    ensures Count('\n', Indent(s)) == Count('\n', s)
    ensures '\n' !in s ==> Indent(s) == s
  {
    if s != [] {
      IndentLength(s[1..]);
      CountFront(s);
      CountFront(Indent(s));
      if s[0] == '\n' {
        IndentFrontBreak(s);
      } else {
        assert Indent(s)[1..] == Indent(s[1..]);
        assert s == [s[0]] + s[1..];
      }
    }
  }

  /** After a leading line break, the rest of the indented text is the two spaces and the indented rest. */
  lemma IndentFrontBreak(s: string)
    requires s != [] && s[0] == '\n'
    ensures Indent(s)[0] == '\n'
    ensures Count('\n', Indent(s)[1..]) == Count('\n', Indent(s[1..]))
  {
    assert Indent(s)[1..] == "  " + Indent(s[1..]);
    CountAppend('\n', "  ", Indent(s[1..]));
    CountAbsent('\n', "  ");
  }

  lemma CountFront(s: string)
    requires s != []
    ensures Count('\n', s) == (if s[0] == '\n' then 1 else 0) + Count('\n', s[1..])
  {
    assert s == [s[0]] + s[1..];
    CountAppend('\n', [s[0]], s[1..]);
    CountAbsent('\n', []);
    assert [s[0]][..0] == [];
  }
}
