/**
 * The workaround for a compiler hygiene bug: every invisible (`None`-
 * delimited) group in the generated code becomes a parenthesised group, so
 * that operator precedence inside it is kept.
 */
module Hygiene {
  import opened Tokens

  /** `fix`: every token of the stream, fixed. */
  function Fix(ts: seq<Token>): (r: seq<Token>)
    ensures |r| == |ts|
    ensures forall i :: 0 <= i < |ts| ==> r[i] == FixToken(ts[i])
    decreases ts
  {
    seq(|ts|, i requires 0 <= i < |ts| => FixToken(ts[i]))
  }

  /** One token: a group gets the fixed delimiter and a fixed stream and keeps its span; other tokens stay. */
  function FixToken(t: Token): (r: Token)
    ensures r.span == t.span
    ensures !t.Group? ==> r == t
    ensures t.Group? ==> r.Group? && |r.stream| == |t.stream|
    ensures t.Group? ==> r.delimiter == if t.delimiter == NoDelimiter then Parenthesis else t.delimiter
    decreases t
  {
    match t
    case Group(delimiter, stream, span) =>
      Group(if delimiter == NoDelimiter then Parenthesis else delimiter, Fix(stream), span)
    case _ => t
  }

  /** No invisible group anywhere in the stream, at any depth. */
  predicate NoInvisible(ts: seq<Token>)
    decreases ts
  {
    forall i :: 0 <= i < |ts| ==> NoInvisibleToken(ts[i])
  }

  predicate NoInvisibleToken(t: Token)
    decreases t
  {
    t.Group? ==> t.delimiter != NoDelimiter && NoInvisible(t.stream)
  }

  /** After the fix there is no invisible group left, at any depth. */
  lemma {:induction false} FixLeavesNoInvisible(ts: seq<Token>)
    ensures NoInvisible(Fix(ts))
    decreases ts
  {
    forall i | 0 <= i < |ts|
      ensures NoInvisibleToken(Fix(ts)[i])
    {
      FixTokenLeavesNoInvisible(ts[i]);
    }
  }

  lemma {:induction false} FixTokenLeavesNoInvisible(t: Token)
    ensures NoInvisibleToken(FixToken(t))
    decreases t
  {
    if t.Group? {
      FixLeavesNoInvisible(t.stream);
    }
  }

  /** A stream without invisible groups is left exactly as it is. */
  lemma {:induction false} FixKeepsVisible(ts: seq<Token>)
    requires NoInvisible(ts)
    ensures Fix(ts) == ts
    decreases ts
  {
    forall i | 0 <= i < |ts|
      ensures Fix(ts)[i] == ts[i]
    {
      FixTokenKeepsVisible(ts[i]);
    }
  }

  lemma {:induction false} FixTokenKeepsVisible(t: Token)
    requires NoInvisibleToken(t)
    ensures FixToken(t) == t
    decreases t
  {
    if t.Group? {
      FixKeepsVisible(t.stream);
    }
  }

  /** Fixing twice is fixing once. */
  lemma FixIdempotent(ts: seq<Token>)
    ensures Fix(Fix(ts)) == Fix(ts)
  {
    FixLeavesNoInvisible(ts);
    FixKeepsVisible(Fix(ts));
  }

  /** A parenthesised group around an identifier: an invisible group becomes one, a bracket stays. */
  lemma FixExample(x: Token, s: Span)
    requires x.Ident?
    ensures Fix([Group(NoDelimiter, [x], s), Group(Bracket, [x], s)]) == [Group(Parenthesis, [x], s), Group(Bracket, [x], s)]
  {
    var inner := Fix([x]);
    assert inner == [x];
  }
}
