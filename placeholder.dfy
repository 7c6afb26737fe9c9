/**
 * The `#` placeholder of `let_assert!`: in a `let` pattern, a single `#`
 * (at any depth) stands for the value the macro returns. The replacer walks
 * the token trees, swaps the `#` for the identifier `__ret` and remembers
 * it; a second `#` is an error.
 */
module LetPlaceholder {
  import opened Common
  import opened Tokens

  /** The `#` that was found and the identifier that replaced it. */
  datatype Placeholder = Placeholder(original: Token, replacement: Token)

  /** `syn::Result`: a value, or an error at a span with a message. */
  datatype Result<T> = Ok(value: T) | Err(span: Span, message: string)

  const MultiplePlaceholders: string := "found multiple placeholders in pattern"

  /** The identifier a `#` at `span` becomes. */
  function Replacement(span: Span): Token {
    Ident("__ret", span)
  }

  predicate IsHash(t: Token) {
    t.Punct? && t.ch == '#'
  }

  // ---------------------------------------------------------------------
  // Reference definitions

  /** The number of `#` puncts in the stream, at any depth. */
  function HashCount(ts: seq<Token>): nat
    decreases ts
  {
    if ts == [] then 0 else HashCountTree(ts[0]) + HashCount(ts[1..])
  }

  function HashCountTree(t: Token): nat
    decreases t
  {
    if t.Group? then HashCount(t.stream) else if IsHash(t) then 1 else 0
  }

  /** Every `#` at any depth replaced by `__ret`; everything else as it was. */
  function Substitute(ts: seq<Token>): seq<Token>
    decreases ts
  {
    if ts == [] then [] else [SubstituteTree(ts[0])] + Substitute(ts[1..])
  }

  function SubstituteTree(t: Token): Token
    decreases t
  {
    if t.Group? then Group(t.delimiter, Substitute(t.stream), t.span)
    else if IsHash(t) then Replacement(t.span)
    else t
  }

  // ---------------------------------------------------------------------
  // The traversal, with the placeholder found so far threaded through

  /** `visit_stream`: the trees in order; the first error stops the walk. */
  function VisitStreamF(ts: seq<Token>, found: Option<Placeholder>): Result<(seq<Token>, Option<Placeholder>)>
    decreases ts
  {
    if ts == [] then Ok(([], found))
    else
      var head := VisitTreeF(ts[0], found);
      if head.Err? then Err(head.span, head.message)
      else
        var tail := VisitStreamF(ts[1..], head.value.1);
        if tail.Err? then tail else Ok(([head.value.0] + tail.value.0, tail.value.1))
  }

  /**
   * `visit_tree`: a group is rebuilt around its visited stream with its own
   * delimiter and span; a `#` becomes `__ret` unless one was already found;
   * identifiers, literals and other puncts stay.
   */
  function VisitTreeF(t: Token, found: Option<Placeholder>): Result<(Token, Option<Placeholder>)>
    decreases t
  {
    if t.Group? then
      var inner := VisitStreamF(t.stream, found);
      if inner.Err? then Err(inner.span, inner.message)
      else Ok((Group(t.delimiter, inner.value.0, t.span), inner.value.1))
    else if !IsHash(t) then Ok((t, found))
    else if found.Some? then Err(t.span, MultiplePlaceholders)
    else Ok((Replacement(t.span), Some(Placeholder(t, Replacement(t.span)))))
  }

  /** A placeholder records a `#` and the `__ret` at its span. */
  predicate WellFormed(p: Placeholder) {
    IsHash(p.original) && p.replacement == Replacement(p.original.span)
  }

  function Found(found: Option<Placeholder>): nat {
    if found.Some? then 1 else 0
  }

  /**
   * The walk succeeds iff at most one `#` is seen in all (counting one found
   * before); then every `#` is replaced and the placeholder is set iff a
   * `#` was seen, and kept if it was found before. Every error is the
   * multiple-placeholders error.
   */
  lemma {:induction false} VisitStreamSpec(ts: seq<Token>, found: Option<Placeholder>)
    requires found.Some? ==> WellFormed(found.value)
    ensures VisitStreamF(ts, found).Ok? <==> HashCount(ts) + Found(found) <= 1
    ensures VisitStreamF(ts, found).Ok? ==> VisitStreamF(ts, found).value.0 == Substitute(ts)
    ensures VisitStreamF(ts, found).Ok? ==>
      (VisitStreamF(ts, found).value.1.Some? <==> found.Some? || HashCount(ts) == 1)
    ensures VisitStreamF(ts, found).Ok? && found.Some? ==> VisitStreamF(ts, found).value.1 == found
    ensures VisitStreamF(ts, found).Ok? && VisitStreamF(ts, found).value.1.Some? ==>
      WellFormed(VisitStreamF(ts, found).value.1.value)
    ensures VisitStreamF(ts, found).Err? ==> VisitStreamF(ts, found).message == MultiplePlaceholders
    decreases ts
  {
    if ts != [] {
      VisitTreeSpec(ts[0], found);
      var head := VisitTreeF(ts[0], found);
      if head.Ok? {
        VisitStreamSpec(ts[1..], head.value.1);
      }
    }
  }

  lemma {:induction false} VisitTreeSpec(t: Token, found: Option<Placeholder>)
    requires found.Some? ==> WellFormed(found.value)
    ensures VisitTreeF(t, found).Ok? <==> HashCountTree(t) + Found(found) <= 1
    ensures VisitTreeF(t, found).Ok? ==> VisitTreeF(t, found).value.0 == SubstituteTree(t)
    ensures VisitTreeF(t, found).Ok? ==>
      (VisitTreeF(t, found).value.1.Some? <==> found.Some? || HashCountTree(t) == 1)
    ensures VisitTreeF(t, found).Ok? && found.Some? ==> VisitTreeF(t, found).value.1 == found
    ensures VisitTreeF(t, found).Ok? && VisitTreeF(t, found).value.1.Some? ==>
      WellFormed(VisitTreeF(t, found).value.1.value)
    ensures VisitTreeF(t, found).Err? ==> VisitTreeF(t, found).message == MultiplePlaceholders
    decreases t
  {
    if t.Group? {
      VisitStreamSpec(t.stream, found);
    }
  }

  /** With no `#` in it, a stream is left exactly as it is. */
  lemma {:induction false} SubstituteNoHash(ts: seq<Token>)
    requires HashCount(ts) == 0
    ensures Substitute(ts) == ts
    decreases ts
  {
    if ts != [] {
      SubstituteTreeNoHash(ts[0]);
      SubstituteNoHash(ts[1..]);
    }
  }

  lemma {:induction false} SubstituteTreeNoHash(t: Token)
    requires HashCountTree(t) == 0
    ensures SubstituteTree(t) == t
    decreases t
  {
    if t.Group? {
      SubstituteNoHash(t.stream);
    }
  }

  /** After the substitution no `#` is left, at any depth. */
  lemma {:induction false} SubstituteLeavesNoHash(ts: seq<Token>)
    ensures HashCount(Substitute(ts)) == 0
    ensures |Substitute(ts)| == |ts|
    decreases ts
  {
    if ts != [] {
      SubstituteTreeLeavesNoHash(ts[0]);
      SubstituteLeavesNoHash(ts[1..]);
      var s := Substitute(ts);
      assert s[0] == SubstituteTree(ts[0]);
      assert s[1..] == Substitute(ts[1..]);
    }
  }

  lemma {:induction false} SubstituteTreeLeavesNoHash(t: Token)
    ensures HashCountTree(SubstituteTree(t)) == 0
    ensures SubstituteTree(t).span == t.span
    ensures t.Group? ==> SubstituteTree(t).Group? && SubstituteTree(t).delimiter == t.delimiter
    ensures !t.Group? && !IsHash(t) ==> SubstituteTree(t) == t
    decreases t
  {
    if t.Group? {
      SubstituteLeavesNoHash(t.stream);
    }
  }

  // ---------------------------------------------------------------------
  // The replacer object

  class Replacer {
    var placeholder: Option<Placeholder>

    /** `Replacer::new`: nothing found yet. */
    constructor()
      ensures placeholder == None
    {
      placeholder := None;
    }

    /**
     * `visit_stream`: visits the trees one by one, appending each result;
     * the first error is returned as it is.
     */
    method VisitStream(ts: seq<Token>) returns (r: Result<seq<Token>>)
      modifies this
      ensures VisitStreamF(ts, old(placeholder)).Ok? ==>
        r == Ok(VisitStreamF(ts, old(placeholder)).value.0) && placeholder == VisitStreamF(ts, old(placeholder)).value.1
      ensures VisitStreamF(ts, old(placeholder)).Err? ==>
        r == Err(VisitStreamF(ts, old(placeholder)).span, VisitStreamF(ts, old(placeholder)).message)
      decreases ts
    {
      var result: seq<Token> := [];
      var i := 0;
      assert ts[i..] == ts;
      PrependEmpty(VisitStreamF(ts, placeholder));
      while i < |ts|
        invariant 0 <= i <= |ts|
        invariant VisitStreamF(ts, old(placeholder)) == Prepend(result, VisitStreamF(ts[i..], placeholder))
        decreases |ts| - i
      {
        VisitStreamUnfold(ts[i..], placeholder);
        assert ts[i..][0] == ts[i];
        assert ts[i..][1..] == ts[i + 1..];
        var tree := VisitTree(ts[i]);
        if tree.Err? {
          return Err(tree.span, tree.message);
        }
        PrependAppend(result, tree.value, VisitStreamF(ts[i + 1..], placeholder));
        result := result + [tree.value];
        i := i + 1;
      }
      assert ts[i..] == [];
      assert result + [] == result;
      return Ok(result);
    }

    /** `visit_tree`: dispatches on the kind of token. */
    method VisitTree(t: Token) returns (r: Result<Token>)
      modifies this
      ensures VisitTreeF(t, old(placeholder)).Ok? ==>
        r == Ok(VisitTreeF(t, old(placeholder)).value.0) && placeholder == VisitTreeF(t, old(placeholder)).value.1
      ensures VisitTreeF(t, old(placeholder)).Err? ==>
        r == Err(VisitTreeF(t, old(placeholder)).span, VisitTreeF(t, old(placeholder)).message)
      decreases t, 1
    {
      match t
      case Group(_, _, _) => r := VisitGroup(t);
      case Ident(_, _) => r := Ok(t);
      case Punct(_, _, _) => r := VisitPunct(t);
      case Literal(_, _) => r := Ok(t);
    }

    /** `visit_group`: a new group with the same delimiter and span around the visited stream. */
    method VisitGroup(t: Token) returns (r: Result<Token>)
      requires t.Group?
      modifies this
      ensures VisitTreeF(t, old(placeholder)).Ok? ==>
        r == Ok(VisitTreeF(t, old(placeholder)).value.0) && placeholder == VisitTreeF(t, old(placeholder)).value.1
      ensures VisitTreeF(t, old(placeholder)).Err? ==>
        r == Err(VisitTreeF(t, old(placeholder)).span, VisitTreeF(t, old(placeholder)).message)
      decreases t, 0
    {
      var stream := VisitStream(t.stream);
      if stream.Err? {
        return Err(stream.span, stream.message);
      }
      r := Ok(Group(t.delimiter, stream.value, t.span));
    }

    /** `visit_punct`: the first `#` becomes `__ret` and is remembered; a second is an error. */
    method VisitPunct(t: Token) returns (r: Result<Token>)
      requires t.Punct?
      modifies this
      ensures VisitTreeF(t, old(placeholder)).Ok? ==>
        r == Ok(VisitTreeF(t, old(placeholder)).value.0) && placeholder == VisitTreeF(t, old(placeholder)).value.1
      ensures VisitTreeF(t, old(placeholder)).Err? ==>
        r == Err(VisitTreeF(t, old(placeholder)).span, VisitTreeF(t, old(placeholder)).message)
    {
      if t.ch != '#' {
        r := Ok(t);
      } else if placeholder.Some? {
        r := Err(t.span, MultiplePlaceholders);
      } else {
        var replacement := Replacement(t.span);
        placeholder := Some(Placeholder(t, replacement));
        r := Ok(replacement);
      }
    }
  }

  /** The visited prefix in front of the outcome of the rest. */
  function Prepend(done: seq<Token>, rest: Result<(seq<Token>, Option<Placeholder>)>): Result<(seq<Token>, Option<Placeholder>)> {
    if rest.Err? then rest else Ok((done + rest.value.0, rest.value.1))
  }

  lemma PrependEmpty(rest: Result<(seq<Token>, Option<Placeholder>)>)
    ensures Prepend([], rest) == rest
  {
    if rest.Ok? {
      assert [] + rest.value.0 == rest.value.0;
    }
  }

  lemma VisitStreamUnfold(ts: seq<Token>, found: Option<Placeholder>)
    requires ts != []
    ensures VisitTreeF(ts[0], found).Err? ==>
      VisitStreamF(ts, found) == Err(VisitTreeF(ts[0], found).span, VisitTreeF(ts[0], found).message)
    ensures VisitTreeF(ts[0], found).Ok? ==>
      VisitStreamF(ts, found) == Prepend([VisitTreeF(ts[0], found).value.0], VisitStreamF(ts[1..], VisitTreeF(ts[0], found).value.1))
  {
  }

  lemma PrependAppend(done: seq<Token>, t: Token, rest: Result<(seq<Token>, Option<Placeholder>)>)
    ensures Prepend(done, Prepend([t], rest)) == Prepend(done + [t], rest)
  {
    if rest.Ok? {
      SeqAssoc(done, [t], rest.value.0);
    }
  }

  // ---------------------------------------------------------------------
  // Entry point

  /**
   * Whether the macro input is a `let` check: its third token (after the
   * macro name and a comma) is the identifier `let`.
   */
  predicate IsLetExpr(ts: seq<Token>) {
    |ts| >= 3 && ts[2].Ident? && ts[2].name == "let"
  }

  /** `replace_let_placeholder`, as a value. */
  function ReplaceLetPlaceholderF(ts: seq<Token>): Result<(seq<Token>, Option<Placeholder>)> {
    if IsLetExpr(ts) then VisitStreamF(ts, None) else Ok((ts, None))
  }

  /** `replace_let_placeholder`: a new replacer walks a `let` input; any other input comes back as it is. */
  method ReplaceLetPlaceholder(ts: seq<Token>) returns (r: Result<(seq<Token>, Option<Placeholder>)>)
    ensures r == ReplaceLetPlaceholderF(ts)
  {
    if IsLetExpr(ts) {
      var replacer := new Replacer();
      var stream := replacer.VisitStream(ts);
      if stream.Err? {
        return Err(stream.span, stream.message);
      }
      r := Ok((stream.value, replacer.placeholder));
    } else {
      r := Ok((ts, None));
    }
  }

  /**
   * What `replace_let_placeholder` promises: input that is not a `let` comes
   * back unchanged with no placeholder; a `let` input fails iff it holds two
   * or more `#`, and otherwise comes back with its `#` replaced and a
   * placeholder iff it held exactly one.
   */
  lemma ReplaceLetPlaceholderSpec(ts: seq<Token>)
    ensures !IsLetExpr(ts) ==> ReplaceLetPlaceholderF(ts) == Ok((ts, None))
    ensures IsLetExpr(ts) ==> (ReplaceLetPlaceholderF(ts).Err? <==> HashCount(ts) >= 2)
    ensures IsLetExpr(ts) && ReplaceLetPlaceholderF(ts).Err? ==> ReplaceLetPlaceholderF(ts).message == MultiplePlaceholders
    ensures ReplaceLetPlaceholderF(ts).Ok? ==> HashCount(ReplaceLetPlaceholderF(ts).value.0) == 0 || !IsLetExpr(ts)
    ensures IsLetExpr(ts) && ReplaceLetPlaceholderF(ts).Ok? ==>
      (ReplaceLetPlaceholderF(ts).value.1.Some? <==> HashCount(ts) == 1)
    ensures IsLetExpr(ts) && ReplaceLetPlaceholderF(ts).Ok? && ReplaceLetPlaceholderF(ts).value.1.Some? ==>
      WellFormed(ReplaceLetPlaceholderF(ts).value.1.value)
    ensures IsLetExpr(ts) && HashCount(ts) == 0 ==> ReplaceLetPlaceholderF(ts) == Ok((ts, None))
  {
    if IsLetExpr(ts) {
      VisitStreamSpec(ts, None);
      SubstituteLeavesNoHash(ts);
      if HashCount(ts) == 0 {
        SubstituteNoHash(ts);
      }
    }
  }
}
