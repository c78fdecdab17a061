/** What the console does with an input that is not an expression: where it stops, what it has printed
    by then, and which assignments it has performed. */
module CmdRejected {
  import opened CmdTables
  import opened CmdExpr
  import opened CmdParser
  import opened CmdDriver

  // ---------- the point of the error ----------

  /** A rejected input's stack stands for the tokens consumed, and nothing can be done with the next one. */
  lemma StuckState(input: seq<Token>)
    requires Parse(input).Syntax?
    ensures var r := Parse(input);
            Ok(r.ss, r.es, r.rest) && Text(r.es, |r.es|) + r.rest == input
            && |r.ss| < MAXDEPTH && Automaton(r.ss[|r.ss| - 1], Code(r.rest)) == Error
  {
    AcceptedTextIsGrouped([0], [Bottom], input);
    assert Text([Bottom], 1) == [];
    assert [] + input == input;
  }

  /** How many tokens of a rejected input are consumed. */
  function ErrorAt(input: seq<Token>): (k: nat)
    requires Parse(input).Syntax?
    ensures k <= |input| && input[k..] == Parse(input).rest && input[..k] == Text(Parse(input).es, |Parse(input).es|)
  {
    StuckState(input);
    |input| - |Parse(input).rest|
  }

  // ---------- what is printed ----------

  /** The token `t` can neither go on with the finished text of `e` nor turn its last cell into a target. */
  predicate Stray(e: Expr, t: Token) {
    !t.Operator? && !(t == Equal && EndsInCell(e))
  }

  /** `input` is the text of an expression, then a stray token, then anything. */
  predicate StrayAfter(input: seq<Token>, e: Expr) {
    Grouped(e) && Need(e) + 1 < MAXDEPTH && |Yield(e)| < |input|
    && input[..|Yield(e)|] == Yield(e) && Stray(e, input[|Yield(e)|])
  }

  lemma StrayEnds(e: Expr, rest: seq<Token>)
    requires rest != [] && Grouped(e)
    ensures Stray(e, rest[0]) <==> !(3 <= Code(rest) <= 6) && (EndsInCell(e) ==> Code(rest) != 7)
    ensures Code(rest) != 0
  {
  }

  /** Such an input is rejected with its expression evaluated and printed. */
  lemma StrayIsRejected(input: seq<Token>, e: Expr)
    requires StrayAfter(input, e)
    ensures Parse(input) == Syntax([0, 35], [Bottom, Node(e)], input[|Yield(e)|..])
  {
    var rest := input[|Yield(e)|..];
    assert input == Yield(e) + rest;
    StrayEnds(e, rest);
    assert Fits([0], [Bottom], e, rest) && Automaton(9, Code(rest)) == Reduce(1) && Automaton(35, Code(rest)) == Error;
    assert Reduced(1, [Bottom] + [Node(e)]) == Node(e) && Length(1) == 1 && GotoState(Lhs(1), 0) == 35;
    hide Linked, Grouped, Need, Yield, Code, Stray, Fits, Reduced, Automaton, GotoState, Ok;
    ReadsTree([0], [Bottom], e, rest);
    ReduceStep([0], [Bottom], [9], [Node(e)], rest, 1);
    assert [0] + [35] == [0, 35] && [Bottom] + [Node(e)] == [Bottom, Node(e)];
  }

  lemma TwoLevels(es: seq<Entry>)
    requires |es| == 2 && es[0] == Bottom && es[1].Node?
    ensures Text(es, 2) == Yield(es[1].e)
  {
    assert Text(es, 0) == [] && Text(es, 1) == Text(es, 0) + [] == [];
    assert Text(es, 2) == Text(es, 1) + Yield(es[1].e);
  }

  lemma WholeInputTree(ss: seq<int>, es: seq<Entry>, rest: seq<Token>)
    requires Ok(ss, es, rest) && Automaton(ss[|ss| - 1], Code(rest)) == Error && |ss| >= 2 && ss[1] == 35
    ensures |es| == 2 && es[0] == Bottom && es[1].Node? && Grouped(es[1].e)
    ensures rest != [] && Fits([0], [Bottom], es[1].e, rest) && Stray(es[1].e, rest[0])
  {
    NothingAbovePrinted(ss, es);
    assert Link(ss[0], es[0], ss[1], es[1]);
    if rest != [] {
      StrayEnds(es[1].e, rest);
    }
  }

  /** A rejected input that prints has exactly one tree on its stack, followed by a stray token. */
  lemma PrintedIsStray(input: seq<Token>, w: World)
    requires Parse(input).Syntax? && Printed(Parse(input).ss, Parse(input).es, w) != []
    ensures var r := Parse(input); |r.es| == 2 && r.es[1].Node? && StrayAfter(input, r.es[1].e)
  {
    var r := Parse(input);
    assert |r.ss| >= 2 && r.ss[1] == 35;
    hide Parse, Grouped, Need, Fits, Yield, Stray, Code, Ok, Automaton;
    StuckState(input);
    WholeInputTree(r.ss, r.es, r.rest);
    TwoLevels(r.es);
    assert input == Yield(r.es[1].e) + r.rest;
    EnoughRoom(r.es[1].e, r.rest);
  }

  lemma EnoughRoom(e: Expr, rest: seq<Token>)
    requires Fits([0], [Bottom], e, rest) && !Parse(Yield(e) + rest).Exhausted?
    ensures Need(e) + 1 < MAXDEPTH
  {
    hide Fits, Run, Need, Yield;
    ReadsTree([0], [Bottom], e, rest);
  }

  /** A rejected input prints a value if and only if it starts with a whole expression that the next token
      cannot go on with; then the value is that expression's. */
  lemma RejectedPrintsIff(input: seq<Token>, w: World)
    requires Parse(input).Syntax?
    ensures var r := Parse(input);
            (Printed(r.ss, r.es, w) != [] <==> exists e :: StrayAfter(input, e))
            && forall e :: StrayAfter(input, e) ==> Printed(r.ss, r.es, w) == [Eval(e, w).0]
  {
    if Printed(Parse(input).ss, Parse(input).es, w) != [] {
      PrintedIsStray(input, w);
    }
    forall e | StrayAfter(input, e)
      ensures Printed(Parse(input).ss, Parse(input).es, w) == [Eval(e, w).0]
    {
      StrayIsRejected(input, e);
      assert After([Bottom, Node(e)], 0, w) == After([Bottom, Node(e)], 1, w) == w;
    }
  }

  /** `1 2` prints 1 and is rejected; `a = 1 2` also stores. */
  lemma PrintedThenRejected(a: int)
    ensures Parse([Num(1), Num(2)]) == Syntax([0, 35], [Bottom, Node(Number(1))], [Num(2)])
    ensures Parse([Mem(a), Equal, Num(1), Num(2)]) == Syntax([0, 35], [Bottom, Node(Assign(a, Number(1)))], [Num(2)])
  {
    StrayIsRejected([Num(1), Num(2)], Number(1));
    StrayIsRejected([Mem(a), Equal, Num(1), Num(2)], Assign(a, Number(1)));
  }

  // ---------- the error is at the first token that no expression can have there ----------

  lemma RestShrinks(ss: seq<int>, es: seq<Entry>, input: seq<Token>)
    requires Ok(ss, es, input) && Run(ss, es, input).Syntax?
    ensures |Run(ss, es, input).rest| <= |input|
  {
    hide Ok, Run, Text, Automaton;
    AcceptedTextIsGrouped(ss, es, input);
  }

  lemma SameLookahead(ss: seq<int>, es: seq<Entry>, x: seq<Token>, rest: seq<Token>, rest1: seq<Token>)
    requires rest != [] && rest1 != [] && rest[0] == rest1[0] && Ok(ss, es, x + rest)
    ensures Ok(ss, es, x + rest1) && Code(x + rest) == Code(x + rest1) && (x + rest)[0] == (x + rest1)[0]
  {
  }

  lemma NotFull(ss: seq<int>, es: seq<Entry>, input: seq<Token>)
    requires Ok(ss, es, input) && !Run(ss, es, input).Exhausted?
    ensures |ss| < MAXDEPTH
  {
  }

  lemma StepOfRun(ss: seq<int>, es: seq<Entry>, input: seq<Token>)
    requires Ok(ss, es, input) && |ss| < MAXDEPTH
    ensures match Automaton(ss[|ss| - 1], Code(input))
            case Error => Run(ss, es, input) == Syntax(ss, es, input)
            case Shift(s) =>
              var input1 := if input == [] then [] else input[1..];
              Ok(ss + [s], es + [Shifted(input)], input1)
              && Run(ss, es, input) == Run(ss + [s], es + [Shifted(input)], input1)
              && (input == [] ==> Phase(s) < Phase(ss[|ss| - 1]))
            case Reduce(r) =>
              0 < Length(r) < |ss| && Ok(ReducedStates(r, ss), ReducedEntries(r, es), input)
              && Run(ss, es, input) == Run(ReducedStates(r, ss), ReducedEntries(r, es), input)
              && var ss1, t := ReducedStates(r, ss), ss[|ss| - 1];
                 0 < |ss1| == |ReducedEntries(r, es)| == |es| + 1 - Length(r)
                 && var t1 := ss1[|ss1| - 1];
                    Phase(t1) < Phase(t) || (Phase(t1) == Phase(t) && 4 * |ss1| + Rank(t1) < 4 * |ss| + Rank(t))
            case Accept => Run(ss, es, input).Accepted?
  {
    assert |ss| == |es| && 0 < |ss| < MAXDEPTH;
    hide Ok, Automaton, Code, Reduced, GotoState, Phase, Shifted, Length, Lhs;
    match Automaton(ss[|ss| - 1], Code(input))
    case Shift(s) => ShiftKeepsOk(ss, es, input, s);
    case Reduce(r) => ReductionKeepsOk(ss, es, input, r);
    case _ =>
  }

  lemma SameShifted(input: seq<Token>, input1: seq<Token>)
    requires input != [] && input1 != [] && input[0] == input1[0]
    ensures Shifted(input) == Shifted(input1)
  {
  }

  lemma DropFirst(x: seq<Token>, rest: seq<Token>)
    requires x != []
    ensures (x + rest)[1..] == x[1..] + rest
  {
  }

  /** The run up to an error depends on nothing after the token it stops at. */
  lemma {:induction false} ErrorNeedsNoMore(ss: seq<int>, es: seq<Entry>, x: seq<Token>,
                                            rest: seq<Token>, rest1: seq<Token>)
    requires rest != [] && rest1 != [] && rest[0] == rest1[0] && |ss| == |es| > 0
    requires Ok(ss, es, x + rest) && Run(ss, es, x + rest).Syntax? && Run(ss, es, x + rest).rest == rest
    ensures Ok(ss, es, x + rest1) && Run(ss, es, x + rest1).Syntax?
    decreases |x|, Phase(ss[|ss| - 1]), 4 * |ss| + Rank(ss[|ss| - 1])
  {
    hide *;
    var input, input1 := x + rest, x + rest1;
    SameLookahead(ss, es, x, rest, rest1);
    NotFull(ss, es, input);
    StepOfRun(ss, es, input);
    StepOfRun(ss, es, input1);
    match Automaton(ss[|ss| - 1], Code(input))
    case Error =>
    case Shift(s) =>
      SameShifted(input, input1);
      RestShrinks(ss + [s], es + [Shifted(input)], input[1..]);
      DropFirst(x, rest);
      DropFirst(x, rest1);
      ErrorNeedsNoMore(ss + [s], es + [Shifted(input)], x[1..], rest, rest1);
    case Reduce(r) =>
      ErrorNeedsNoMore(ReducedStates(r, ss), ReducedEntries(r, es), x, rest, rest1);
  }

  /** An operand `x` on a stack that expects one, wrapped in what the top levels wait for. */
  lemma Wrap(ss: seq<int>, es: seq<Entry>, x: Expr) returns (k: nat, y: Expr)
    requires Linked(ss, es) && ExpectsOperand(ss[|ss| - 1]) && Grouped(x) && Level(x) >= MinLevel(ss[|ss| - 1])
    requires |ss| > 1
    ensures 1 <= k <= 2 && k < |ss| && TopText(es, k) + Yield(x) <= Yield(y)
    ensures ExpectsOperand(ss[|ss| - 1 - k]) && Grouped(y) && Level(y) >= MinLevel(ss[|ss| - 1 - k])
  {
    var n := |ss|;
    assert Link(ss[n - 2], es[n - 2], ss[n - 1], es[n - 1]);
    if ss[n - 1] in {1, 2} {
      return 1, if ss[n - 1] == 1 then Neg(x) else Paren(x);
    }
    assert n >= 3 && Link(ss[n - 3], es[n - 3], ss[n - 2], es[n - 2]);
    assert ss[n - 1] in {18, 19, 20, 21, 22};
    k := 2;
    hide Linked;
    y := WrapTwo(ss[n - 3], es[n - 3], ss[n - 2], es[n - 2], ss[n - 1], es[n - 1], x);
  }

  lemma WrapTwo(p: int, pe: Entry, q: int, qe: Entry, s: int, e: Entry, x: Expr) returns (y: Expr)
    requires Link(p, pe, q, qe) && Link(q, qe, s, e) && s in {18, 19, 20, 21, 22}
    requires Grouped(x) && Level(x) >= MinLevel(s)
    ensures ExpectsOperand(p) && Grouped(y) && Level(y) >= MinLevel(p)
    ensures TextOf(qe) + TextOf(e) + Yield(x) == Yield(y)
  {
    y := if s == 22 then Assign(qe.t.a, x) else Bin(e.t.op, qe.e, x);
  }

  lemma WrappedText(es: seq<Entry>, k: nat, x: seq<Token>, y: seq<Token>, e: seq<Token>)
    requires 1 <= k <= 3 && k <= |es| && TopText(es, k) + x <= y && Text(es[..|es| - k], |es| - k) + y <= e
    ensures Text(es, |es|) + x <= e
  {
    hide TopText, Text;
    TextSplit(es, k);
    TextOfPrefix(es, es[..|es| - k], |es| - k);
    assert Text(es, |es|) + x == Text(es, |es| - k) + (TopText(es, k) + x);
  }

  lemma LowerLevels(ss: seq<int>, es: seq<Entry>, m: nat)
    requires Linked(ss, es) && 1 <= m <= |ss|
    ensures Linked(ss[..m], es[..m])
  {
    hide Link;
  }

  /** A stack that expects an operand stands for the start of an expression, whatever fitting operand comes. */
  lemma {:induction false} Completes(ss: seq<int>, es: seq<Entry>, x: Expr) returns (e: Expr)
    requires Linked(ss, es) && ExpectsOperand(ss[|ss| - 1]) && Grouped(x) && Level(x) >= MinLevel(ss[|ss| - 1])
    ensures Grouped(e) && Text(es, |es|) + Yield(x) <= Yield(e)
    decreases |ss|
  {
    var n := |ss|;
    assert |es| == n > 0 && (n == 1 ==> Text(es, 1) == Text(es, 0) + [] == []);
    hide Linked, ExpectsOperand, MinLevel, Grouped, Yield, Text, TopText, Level;
    if n == 1 {
      e := x;
    } else {
      var k, y := Wrap(ss, es, x);
      LowerLevels(ss, es, n - k);
      e := Completes(ss[..n - k], es[..n - k], y);
      WrappedText(es, k, Yield(x), Yield(y), Yield(e));
    }
  }

  /** The operand that the top levels of any other stack form. */
  lemma TopOperand(ss: seq<int>, es: seq<Entry>) returns (k: nat, y: Expr)
    requires Linked(ss, es) && !ExpectsOperand(ss[|ss| - 1]) && ss[|ss| - 1] != 36
    ensures k in {1, 3} && k < |ss| && TopText(es, k) == Yield(y)
    ensures ExpectsOperand(ss[|ss| - 1 - k]) && Grouped(y) && Level(y) >= MinLevel(ss[|ss| - 1 - k])
  {
    var n := |ss|;
    assert Link(ss[n - 2], es[n - 2], ss[n - 1], es[n - 1]);
    if ss[n - 1] == 25 {
      assert Link(ss[n - 3], es[n - 3], ss[n - 2], es[n - 2]);
      assert Link(ss[n - 4], es[n - 4], ss[n - 3], es[n - 3]);
      return 3, Paren(es[n - 2].e);
    }
    k, y := 1, Tree(es[n - 1]);
  }

  lemma AnyOperand(s: int)
    ensures Grouped(Number(0)) && Level(Number(0)) >= MinLevel(s)
  {
  }

  lemma SomeLevel(ss: seq<int>, es: seq<Entry>)
    requires Linked(ss, es)
    ensures |es| == |ss| > 0
  {
  }

  /** A stack with an operand on top stands for the start of an expression. */
  lemma OperandCompletes(ss: seq<int>, es: seq<Entry>) returns (e: Expr)
    requires |es| == |ss| > 0 && Linked(ss, es) && !ExpectsOperand(ss[|ss| - 1]) && ss[|ss| - 1] != 36
    ensures Grouped(e) && Text(es, |es|) <= Yield(e)
  {
    hide *;
    var k, y := TopOperand(ss, es);
    var n := |ss| - k;
    LowerLevels(ss, es, n);
    assert ss[..n][n - 1] == ss[n - 1];
    e := Completes(ss[..n], es[..n], y);
    EmptyOnTop(TopText(es, k));
    EmptyOnTop(Text(es, |es|));
    WrappedText(es, k, [], Yield(y), Yield(e));
  }

  lemma EmptyOnTop(x: seq<Token>)
    ensures x + [] == x
  {
  }

  lemma StartsWith(x: seq<Token>, y: seq<Token>, e: seq<Token>)
    requires x + y <= e
    ensures x <= e
  {
    assert x == (x + y)[..|x|] == e[..|x|];
  }

  /** Every stack short of the end of the input stands for the start of an expression. */
  lemma StartsExpression(ss: seq<int>, es: seq<Entry>) returns (e: Expr)
    requires Linked(ss, es) && ss[|ss| - 1] != 36
    ensures Grouped(e) && Text(es, |es|) <= Yield(e)
  {
    hide *;
    SomeLevel(ss, es);
    if ExpectsOperand(ss[|ss| - 1]) {
      AnyOperand(ss[|ss| - 1]);
      e := Completes(ss, es, Number(0));
      StartsWith(Text(es, |es|), Yield(Number(0)), Yield(e));
    } else {
      e := OperandCompletes(ss, es);
    }
  }

  /** The tokens consumed are the start of some expression; with the token at the error they are not. */
  lemma ErrorIsEarliest(input: seq<Token>) returns (e: Expr)
    requires Parse(input).Syntax?
    ensures Grouped(e) && input[..ErrorAt(input)] <= Yield(e)
    ensures var k := ErrorAt(input);
            forall c :: Grouped(c) ==> if k < |input| then !(input[..k + 1] <= Yield(c)) else Yield(c) != input
  {
    var r, k := Parse(input), ErrorAt(input);
    StuckState(input);
    e := StartsExpression(r.ss, r.es);
    forall c | Grouped(c)
      ensures if k < |input| then !(input[..k + 1] <= Yield(c)) else Yield(c) != input
    {
      GroupedTextIsAccepted(c);
      if k < |input| && input[..k + 1] <= Yield(c) {
        var rest1 := Yield(c)[k..];
        assert Yield(c) == input[..k] + rest1 && input == input[..k] + input[k..];
        assert rest1[0] == Yield(c)[k] == input[..k + 1][k] == input[k..][0];
        ErrorNeedsNoMore([0], [Bottom], input[..k], input[k..], rest1);
        assert false;
      }
    }
  }

  /** Some expression's text starts with the first `k` tokens of `input`. */
  ghost predicate StartsSome(input: seq<Token>, k: nat)
    requires k <= |input|
  {
    exists e :: Grouped(e) && input[..k] <= Yield(e)
  }

  /** A rejected input is consumed exactly as far as it is the start of an expression. */
  lemma ConsumedIff(input: seq<Token>, k: nat)
    requires Parse(input).Syntax? && k <= |input|
    ensures k <= ErrorAt(input) <==> StartsSome(input, k)
  {
    hide Parse, Grouped, Yield;
    var n := ErrorAt(input);
    var e := ErrorIsEarliest(input);
    if k <= n {
      assert input[..k] <= input[..n];
    } else {
      forall c | Grouped(c)
        ensures !(input[..k] <= Yield(c))
      {
        assert input[..n + 1] <= input[..k];
      }
    }
  }
}
