/**
 * The macro side's handling of the checked expression: `split_predicates`
 * breaks a chain of `&&` into its operands, each paired with the text that
 * glued it to the previous one, and `printable_predicates` classifies each
 * operand as a binary comparison, a `let` pattern match or a plain boolean.
 *
 * Expressions are an abstract syntax tree whose leaves carry their tokens;
 * turning tokens into source text (`expression_to_string`) is a function
 * parameter of the model.
 */
module Macros {
  import opened Common
  import opened Tokens
  import opened Spacing
  import Report

  /** The parts of a `syn::Expr` the macros look at. */
  datatype Expr =
    | BinaryExpr(left: Expr, operator: string, opTokens: seq<Token>, right: Expr)
    | LetExpr(keyword: seq<Token>, pattern: seq<Token>, equals: seq<Token>, expression: Expr)
    | OtherExpr(tokens: seq<Token>)

  /** `to_token_stream`: the tokens an expression was written as, in order. */
  function ExprTokens(e: Expr): seq<Token> {
    match e
    case BinaryExpr(left, _, opTokens, right) => ExprTokens(left) + opTokens + ExprTokens(right)
    case LetExpr(keyword, pattern, equals, expression) => keyword + pattern + equals + ExprTokens(expression)
    case OtherExpr(tokens) => tokens
  }

  predicate IsAnd(e: Expr) {
    e.BinaryExpr? && e.operator == "&&"
  }

  /**
   * The glue of an `&&`: the operator as written, with the whitespace around
   * it in the source, or `" && "` when that whitespace cannot be found.
   */
  function AndGlue(e: Expr): (g: string)
    requires IsAnd(e)
    ensures OperatorWithWhitespace(ExprTokens(e.left), e.operator, e.opTokens, ExprTokens(e.right)).None? ==> g == " && "
    ensures exists o: OperatorWithSpacing :: o.operator == "&&" && g == OperatorText(o)
  {
    var spacing := OperatorWithWhitespace(ExprTokens(e.left), e.operator, e.opTokens, ExprTokens(e.right));
    LogicalAndText();
    if spacing.None? then " && " else OperatorText(spacing.value)
  }

  /** The number of nodes, which the worklist loop uses up. */
  function Size(e: Expr): nat {
    match e
    case BinaryExpr(left, _, _, right) => 1 + Size(left) + Size(right)
    case LetExpr(_, _, _, expression) => 1 + Size(expression)
    case OtherExpr(_) => 1
  }

  function AndCount(e: Expr): nat {
    if IsAnd(e) then AndCount(e.left) + 1 + AndCount(e.right) else 0
  }

  // ---------------------------------------------------------------------
  // Reference definition: an in-order walk of the `&&` tree

  /** The operands of the `&&` chain, left to right. */
  function Leaves(e: Expr): seq<Expr> {
    if IsAnd(e) then Leaves(e.left) + Leaves(e.right) else [e]
  }

  /** The glue of every `&&`, left to right. */
  function Glues(e: Expr): seq<string> {
    if IsAnd(e) then Glues(e.left) + [AndGlue(e)] + Glues(e.right) else []
  }

  /** There is one glue between each two neighbouring operands, and one operand more than `&&`s. */
  lemma {:induction false} LeavesCount(e: Expr)
    ensures |Leaves(e)| == AndCount(e) + 1
    ensures |Glues(e)| == AndCount(e)
    ensures forall i :: 0 <= i < |Leaves(e)| ==> !IsAnd(Leaves(e)[i])
  {
    if IsAnd(e) {
      LeavesCount(e.left);
      LeavesCount(e.right);
      var l, r := Leaves(e.left), Leaves(e.right);
      forall i | 0 <= i < |l + r|
        ensures !IsAnd((l + r)[i])
      {
        if i < |l| { assert (l + r)[i] == l[i]; } else { assert (l + r)[i] == r[i - |l|]; }
      }
    }
  }

  /** The operands paired with their glue, the first with `outer`. */
  function Flatten(outer: string, e: Expr): seq<(string, Expr)>
    decreases e
  {
    if IsAnd(e) then Flatten(outer, e.left) + Flatten(AndGlue(e), e.right) else [(outer, e)]
  }

  /**
   * The pairs are the operands in source order; the first carries the outer
   * glue and each later one the glue of the `&&` just before it.
   */
  lemma {:induction false} FlattenInOrder(outer: string, e: Expr)
    ensures |Flatten(outer, e)| == |Leaves(e)| == |Glues(e)| + 1
    ensures forall i :: 0 <= i < |Leaves(e)| ==> Flatten(outer, e)[i] == (([outer] + Glues(e))[i], Leaves(e)[i])
    decreases e
  {
    LeavesCount(e);
    if IsAnd(e) {
      var g := AndGlue(e);
      FlattenInOrder(outer, e.left);
      FlattenInOrder(g, e.right);
      GluesSplit(outer, e);
      ZipAppend(Flatten(outer, e.left), Flatten(g, e.right), [outer] + Glues(e.left), [g] + Glues(e.right),
        Leaves(e.left), Leaves(e.right));
    }
  }

  /** The glues of an `&&` after `outer`: those of its left side, then its own and those of its right side. */
  lemma GluesSplit(outer: string, e: Expr)
    requires IsAnd(e)
    ensures [outer] + Glues(e) == ([outer] + Glues(e.left)) + ([AndGlue(e)] + Glues(e.right))
  {
    Regroup(outer, Glues(e.left), AndGlue(e), Glues(e.right));
  }

  lemma Regroup<T>(a: T, l: seq<T>, g: T, r: seq<T>)
    ensures [a] + (l + [g] + r) == ([a] + l) + ([g] + r)
  {
  }

  /** Pairing two sequences element by element commutes with concatenation. */
  lemma ZipAppend<A, B>(fl: seq<(A, B)>, fr: seq<(A, B)>, gl: seq<A>, gr: seq<A>, ll: seq<B>, lr: seq<B>)
    requires |fl| == |gl| == |ll| && |fr| == |gr| == |lr|
    requires forall i :: 0 <= i < |ll| ==> fl[i] == (gl[i], ll[i])
    requires forall i :: 0 <= i < |lr| ==> fr[i] == (gr[i], lr[i])
    ensures forall i :: 0 <= i < |ll + lr| ==> (fl + fr)[i] == ((gl + gr)[i], (ll + lr)[i])
  {
    forall i | 0 <= i < |ll + lr|
      ensures (fl + fr)[i] == ((gl + gr)[i], (ll + lr)[i])
    {
      if i >= |ll| {
        assert (fl + fr)[i] == fr[i - |ll|];
      }
    }
  }

  /** The pairs still waiting on the stack, flattened from the top (the end of the sequence) down. */
  function FlattenStack(stack: seq<(string, Expr)>): seq<(string, Expr)> {
    if stack == [] then []
    else
      var top := stack[|stack| - 1];
      Flatten(top.0, top.1) + FlattenStack(stack[..|stack| - 1])
  }

  function StackSize(stack: seq<(string, Expr)>): nat {
    if stack == [] then 0 else StackSize(stack[..|stack| - 1]) + Size(stack[|stack| - 1].1)
  }

  /** Popping the top of the stack. */
  lemma StackPop(stack: seq<(string, Expr)>)
    requires stack != []
    ensures FlattenStack(stack) == Flatten(stack[|stack| - 1].0, stack[|stack| - 1].1) + FlattenStack(stack[..|stack| - 1])
    ensures StackSize(stack) == StackSize(stack[..|stack| - 1]) + Size(stack[|stack| - 1].1)
  {
  }

  /** Pushing `a` and then `b`: `b` is flattened first. */
  lemma StackPushTwo(rest: seq<(string, Expr)>, a: (string, Expr), b: (string, Expr))
    ensures FlattenStack(rest + [a, b]) == Flatten(b.0, b.1) + (Flatten(a.0, a.1) + FlattenStack(rest))
    ensures StackSize(rest + [a, b]) == StackSize(rest) + Size(a.1) + Size(b.1)
  {
    var s := rest + [a, b];
    assert s[..|s| - 1] == rest + [a];
    assert (rest + [a])[..|rest|] == rest;
  }

  /**
   * `split_predicates`: pops the stack until it is empty; an `&&` pushes its
   * right operand (with its own glue) and then its left one (with the outer
   * glue), anything else is output.
   */
  method SplitPredicates(input: Expr) returns (output: seq<(string, Expr)>)
    ensures output == Flatten("", input)
  {
    output := [];
    var remaining := [("", input)];
    while remaining != []
      invariant output + FlattenStack(remaining) == Flatten("", input)
      decreases StackSize(remaining)
    {
      StackPop(remaining);
      var rest := remaining[..|remaining| - 1];
      var (outsideGlue, e) := remaining[|remaining| - 1];
      if IsAnd(e) {
        var insideGlue := AndGlue(e);
        StackPushTwo(rest, (insideGlue, e.right), (outsideGlue, e.left));
        SeqAssoc(Flatten(outsideGlue, e.left), Flatten(insideGlue, e.right), FlattenStack(rest));
        remaining := rest + [(insideGlue, e.right), (outsideGlue, e.left)];
      } else {
        SeqAssoc(output, [(outsideGlue, e)], FlattenStack(rest));
        output := output + [(outsideGlue, e)];
        remaining := rest;
      }
    }
  }

  /**
   * What `split_predicates` returns: one pair per `&&` plus one, the first
   * with the empty glue, none of them an `&&`, and each a leaf of the tree
   * in source order.
   */
  lemma SplitPredicatesShape(input: Expr)
    ensures |Flatten("", input)| == AndCount(input) + 1 == |Glues(input)| + 1
    ensures Flatten("", input)[0].0 == ""
    ensures forall i :: 0 <= i < |Flatten("", input)| ==> !IsAnd(Flatten("", input)[i].1)
    ensures forall i :: 1 <= i < |Flatten("", input)| ==> Flatten("", input)[i].0 == Glues(input)[i - 1]
    ensures !IsAnd(input) ==> Flatten("", input) == [("", input)]
  {
    FlattenInOrder("", input);
    LeavesCount(input);
  }

  // ---------------------------------------------------------------------
  // Classification

  /**
   * The variant `printable_predicates` chooses: a `let` becomes a pattern
   * match, any binary expression a comparison, anything else a boolean.
   * `render` turns tokens into source text.
   */
  function Classify(render: seq<Token> -> string, e: Expr): (p: Report.Predicate)
    ensures p.Let? <==> e.LetExpr?
    ensures p.Binary? <==> e.BinaryExpr?
    ensures p.Bool? <==> e.OtherExpr?
  {
    match e
    case LetExpr(_, pattern, _, expression) => Report.Let(render(pattern), render(ExprTokens(expression)))
    case BinaryExpr(left, _, opTokens, right) => Report.Binary(render(ExprTokens(left)), render(opTokens), render(ExprTokens(right)))
    case OtherExpr(tokens) => Report.Bool(render(tokens))
  }

  /** `printable_predicates`: every predicate classified, in order, with its glue. */
  method PrintablePredicates(render: seq<Token> -> string, predicates: seq<(string, Expr)>) returns (printable: seq<(string, Report.Predicate)>)
    ensures |printable| == |predicates|
    ensures forall i :: 0 <= i < |predicates| ==> printable[i] == (predicates[i].0, Classify(render, predicates[i].1))
  {
    printable := [];
    for n := 0 to |predicates|
      invariant |printable| == n
      invariant forall i :: 0 <= i < n ==> printable[i] == (predicates[i].0, Classify(render, predicates[i].1))
    {
      var (glue, expr) := predicates[n];
      printable := printable + [(glue, Classify(render, expr))];
    }
  }

  /**
   * A split `&&` chain never reaches the report as a comparison with the
   * operator `&&`: every `&&` was split apart, so a comparison's operator
   * is rendered from other tokens.
   */
  lemma SplitLeavesNoAnd(render: seq<Token> -> string, input: Expr, i: nat)
    requires i < |Flatten("", input)|
    ensures Flatten("", input)[i].1.BinaryExpr? ==> Flatten("", input)[i].1.operator != "&&"
    ensures Classify(render, Flatten("", input)[i].1).Binary? <==> Flatten("", input)[i].1.BinaryExpr?
  {
    SplitPredicatesShape(input);
  }

  // ---------------------------------------------------------------------
  // Format arguments

  /**
   * `Args::parse`: the arguments after the expression are a custom message
   * only when there is at least one of them.
   */
  function FormatArgs(args: seq<Expr>): (r: Option<seq<Expr>>)
    ensures r.None? <==> args == []
    ensures r.Some? ==> r.value == args
  {
    if args == [] then None else Some(args)
  }
}
