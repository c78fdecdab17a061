/** The automaton's run over a token sequence, and why it is exactly the grammar. */
module CmdParser {
  import opened CmdTables
  import opened CmdExpr

  const MAXDEPTH := 10000

  /** What a stack level stands for: a shifted token, a reduced tree, or nothing. */
  datatype Entry = Bottom | Tok(t: Token) | Node(e: Expr)

  datatype Result =
    | Accepted(e: Expr)
    | Syntax(ss: seq<int>, es: seq<Entry>, rest: seq<Token>)
    | Exhausted(es: seq<Entry>)

  function Code(input: seq<Token>): int {
    if input == [] then 0 else
    match input[0]
    case Operator(Add) => 3
    case Operator(Sub) => 4
    case Operator(Mul) => 5
    case Operator(Div) => 6
    case Equal => 7
    case LeftParen => 8
    case RightParen => 9
    case Mem(_) => 15
    case Num(_) => 16
  }

  // ---------- well-formed stacks ----------

  predicate ExpectsOperand(s: int) {
    s in {0, 1, 2, 18, 19, 20, 21, 22}
  }

  predicate HasExpression(s: int) {
    s in {9, 14, 31}
  }

  /** State `s` with entry `e` may stand on state `p` with entry `pe`. */
  predicate Link(p: int, pe: Entry, s: int, e: Entry) {
    match s
    case 1 => ExpectsOperand(p) && e == Tok(MINUS)
    case 2 => ExpectsOperand(p) && e == Tok(LeftParen)
    case 5 | 11 => ExpectsOperand(p) && e.Tok? && e.t.Mem?
    case 6 => ExpectsOperand(p) && e.Tok? && e.t.Num?
    case 8 => ExpectsOperand(p) && e.Node? && Grouped(e.e) && e.e.Assign?
    case 9 => p == 0 && e.Node? && Grouped(e.e)
    case 13 => p == 1 && e.Node? && Grouped(e.e) && Level(e.e) == 3
    case 14 => p == 2 && e.Node? && Grouped(e.e)
    case 18 => HasExpression(p) && e == Tok(Operator(Add)) && pe.Node? && !Open(pe.e)
    case 19 => HasExpression(p) && e == Tok(Operator(Sub)) && pe.Node? && !Open(pe.e)
    case 20 =>
      (HasExpression(p) || p == 27 || p == 28) && e == Tok(Operator(Mul)) && pe.Node?
      && !Open(pe.e) && Level(pe.e) >= 2
    case 21 =>
      (HasExpression(p) || p == 27 || p == 28) && e == Tok(Operator(Div)) && pe.Node?
      && !Open(pe.e) && Level(pe.e) >= 2
    case 22 => p == 11 && e == Tok(Equal)
    case 25 => p == 14 && e == Tok(RightParen)
    case 27 => p == 18 && e.Node? && Grouped(e.e) && Level(e.e) >= 2
    case 28 => p == 19 && e.Node? && Grouped(e.e) && Level(e.e) >= 2
    case 29 => p == 20 && e.Node? && Grouped(e.e) && Level(e.e) == 3
    case 30 => p == 21 && e.Node? && Grouped(e.e) && Level(e.e) == 3
    case 31 => p == 22 && e.Node? && Grouped(e.e)
    case 35 => p == 0 && e.Node? && Grouped(e.e)
    case 36 => p == 35 && e == Bottom
    case _ => false
  }

  predicate Linked(ss: seq<int>, es: seq<Entry>) {
    |ss| == |es| > 0 && ss[0] == 0 && es[0] == Bottom
    && forall i :: 1 <= i < |ss| ==> Link(ss[i - 1], es[i - 1], ss[i], es[i])
  }

  /** The lookahead `t` does not continue a finished tree on top of the stack. */
  predicate Finished(e: Entry, t: int) {
    e.Node? ==>
      && (Open(e.e) ==> !(3 <= t <= 6))
      && (Level(e.e) == 1 ==> !(5 <= t <= 6))
      && (EndsInCell(e.e) ==> t != 7)
  }

  predicate Ok(ss: seq<int>, es: seq<Entry>, input: seq<Token>) {
    Linked(ss, es) && Finished(es[|es| - 1], Code(input))
    && (ss[|ss| - 1] == 36 ==> input == []) && (ss[|ss| - 1] == 35 ==> !(3 <= Code(input) <= 6))
  }

  // ---------- the run ----------

  /** The entry `k` levels below the top. */
  function Below(es: seq<Entry>, k: nat): Entry {
    if k < |es| then es[|es| - 1 - k] else Bottom
  }

  function Tree(e: Entry): Expr {
    match e
    case Node(x) => x
    case Tok(Num(n)) => Number(n)
    case Tok(Mem(a)) => Read(a)
    case _ => Number(0)
  }

  /** The entry that a reduction by `rule` leaves in place of the top entries of `es`. */
  function Reduced(rule: int, es: seq<Entry>): Entry {
    var x, y := Tree(Below(es, 0)), Tree(Below(es, 2));
    match rule
    case 2 => Node(Assign(if y.Read? then y.a else 0, x))
    case 5 => Node(Bin(Add, y, x))
    case 6 => Node(Bin(Sub, y, x))
    case 7 => Node(Bin(Mul, y, x))
    case 8 => Node(Bin(Div, y, x))
    case 9 => Node(Neg(x))
    case 11 => Node(Paren(Tree(Below(es, 1))))
    case 17 => Below(es, 0)
    case _ => Node(x)
  }

  /** The stacks after a reduction by `rule`. */
  function ReducedStates(rule: int, ss: seq<int>): seq<int>
    requires 0 < Length(rule) < |ss|
  {
    var below := ss[..|ss| - Length(rule)];
    below + [GotoState(Lhs(rule), below[|below| - 1])]
  }

  function ReducedEntries(rule: int, es: seq<Entry>): seq<Entry>
    requires 0 < Length(rule) < |es|
  {
    es[..|es| - Length(rule)] + [Reduced(rule, es)]
  }

  function Phase(s: int): nat {
    if s == 36 then 0 else if s == 35 then 1 else 2
  }

  /** How many reductions of one symbol can follow before the stack must shrink. */
  function Rank(s: int): nat {
    match s
    case 5 => 3
    case 11 => 2
    case 6 | 8 => 1
    case _ => 0
  }

  predicate Smaller(s: int, n: nat, t: int, m: nat) {
    Phase(s) < Phase(t) || (Phase(s) == Phase(t) && 4 * n + Rank(s) < 4 * m + Rank(t))
  }

  /** Pushing one entry on a well-formed stack needs a look at the new link only. */
  lemma PushLink(ss: seq<int>, es: seq<Entry>, n: nat, s: int, e: Entry)
    requires Linked(ss, es) && 1 <= n <= |ss| && Link(ss[n - 1], es[n - 1], s, e)
    ensures Linked(ss[..n] + [s], es[..n] + [e])
  {
  }

  /** Each reducible state reduces by one rule. */
  lemma StateOfRule(s: int, t: int, rule: int)
    requires Automaton(s, t) == Reduce(rule)
    requires s in {1, 2, 5, 6, 8, 9, 11, 13, 14, 18, 19, 20, 21, 22, 25, 27, 28, 29, 30, 31, 35, 36, 0}
    ensures (s, rule) in {(5, 17), (6, 12), (8, 4), (9, 1), (11, 13), (13, 9), (25, 11), (27, 5),
                          (28, 6), (29, 7), (30, 8), (31, 2)}
    ensures rule in {5, 6} ==> !(5 <= t <= 6)
    ensures rule in {1, 2} ==> !(3 <= t <= 6)
    ensures rule == 13 ==> t != 7
  {
  }

  /** The right-hand side that a reduction finds on top of the stack. */
  predicate Symbols(es: seq<Entry>, rule: int) {
    var p, q, r := Below(es, 2), Below(es, 1), Below(es, 0);
    match rule
    case 1 | 4 => |es| > 1 && r.Node?
    case 12 => |es| > 1 && r.Tok? && r.t.Num?
    case 13 | 17 => |es| > 1 && r.Tok? && r.t.Mem?
    case 9 => |es| > 2 && q == Tok(MINUS) && r.Node?
    case 2 => |es| > 3 && p.Tok? && p.t.Mem? && q == Tok(Equal) && r.Node?
    case 11 => |es| > 3 && p == Tok(LeftParen) && q.Node? && r == Tok(RightParen)
    case 5 => |es| > 3 && p.Node? && q == Tok(Operator(Add)) && r.Node?
    case 6 => |es| > 3 && p.Node? && q == Tok(Operator(Sub)) && r.Node?
    case 7 => |es| > 3 && p.Node? && q == Tok(Operator(Mul)) && r.Node?
    case 8 => |es| > 3 && p.Node? && q == Tok(Operator(Div)) && r.Node?
    case _ => false
  }

  lemma FindsSymbols(ss: seq<int>, es: seq<Entry>, rule: int)
    requires Linked(ss, es)
    requires (ss[|ss| - 1], rule) in {(5, 17), (6, 12), (8, 4), (9, 1), (11, 13), (13, 9),
                                      (25, 11), (27, 5), (28, 6), (29, 7), (30, 8), (31, 2)}
    ensures Symbols(es, rule) && 0 < Length(rule) <= 3 && Length(rule) < |es|
  {
    var n := |ss|;
    assert n >= 2 && Link(ss[n - 2], es[n - 2], ss[n - 1], es[n - 1]);
    if rule in {9, 11, 2, 5, 6, 7, 8} {
      assert n >= 3 && Link(ss[n - 3], es[n - 3], ss[n - 2], es[n - 2]);
      if rule != 9 {
        assert n >= 4 && Link(ss[n - 4], es[n - 4], ss[n - 3], es[n - 3]);
      }
    }
  }

  /** A reduction that leaves entry `e` in state `s` on the lowest `n` levels. */
  lemma Reseat(ss: seq<int>, es: seq<Entry>, input: seq<Token>, n: nat, s: int, e: Entry)
    requires Ok(ss, es, input) && 1 <= n < |ss| && Link(ss[n - 1], es[n - 1], s, e)
    requires Finished(e, Code(input)) && s != 36 && (s == 35 ==> !(3 <= Code(input) <= 6))
    ensures Ok(ss[..n] + [s], es[..n] + [e], input)
  {
    hide Link, Finished, Code;
    PushLink(ss, es, n, s, e);
  }

  lemma OneSymbolLink(es: seq<Entry>, p: int, pe: Entry, s: int, t: int, rule: int)
    requires |es| > 1 && Link(p, pe, s, es[|es| - 1]) && Finished(es[|es| - 1], t)
    requires (s, rule) in {(5, 17), (6, 12), (8, 4), (9, 1), (11, 13)}
    requires (rule == 1 ==> !(3 <= t <= 6)) && (rule == 13 ==> t != 7)
    ensures var s1, e1 := GotoState(Lhs(rule), p), Reduced(rule, es);
            Link(p, pe, s1, e1) && Finished(e1, t) && s1 != 36 && (s1 == 35 ==> !(3 <= t <= 6))
            && Phase(s1) <= Phase(s) && (Phase(s1) == Phase(s) ==> Rank(s1) < Rank(s))
  {
  }

  lemma OneSymbolReduction(ss: seq<int>, es: seq<Entry>, input: seq<Token>, rule: int)
    requires Ok(ss, es, input)
    requires (ss[|ss| - 1], rule) in {(5, 17), (6, 12), (8, 4), (9, 1), (11, 13)}
    requires (rule == 1 ==> !(3 <= Code(input) <= 6)) && (rule == 13 ==> Code(input) != 7)
    ensures Length(rule) == 1 < |ss|
    ensures Ok(ReducedStates(rule, ss), ReducedEntries(rule, es), input)
    ensures Smaller(GotoState(Lhs(rule), ss[|ss| - 2]), |ss|, ss[|ss| - 1], |ss|)
  {
    var n := |ss|;
    assert n >= 2 && Link(ss[n - 2], es[n - 2], ss[n - 1], es[n - 1]);
    assert Finished(es[n - 1], Code(input)) && Length(rule) == 1;
    hide Link, Finished, Code, GotoState, Reduced, Ok, Lhs;
    OneSymbolLink(es, ss[n - 2], es[n - 2], ss[n - 1], Code(input), rule);
    Reseat(ss, es, input, n - 1, GotoState(Lhs(rule), ss[n - 2]), Reduced(rule, es));
  }

  lemma UnaryReduction(ss: seq<int>, es: seq<Entry>, input: seq<Token>)
    requires Ok(ss, es, input) && ss[|ss| - 1] == 13
    ensures Length(9) == 2 < |ss|
    ensures Ok(ReducedStates(9, ss), ReducedEntries(9, es), input)
    ensures Smaller(GotoState(Lhs(9), ss[|ss| - 3]), |ss| - 1, 13, |ss|)
  {
    var n := |ss|;
    assert n >= 2 && Link(ss[n - 2], es[n - 2], ss[n - 1], es[n - 1]);
    assert n >= 3 && Link(ss[n - 3], es[n - 3], ss[n - 2], es[n - 2]);
    Reseat(ss, es, input, n - 2, GotoState(21, ss[n - 3]), Reduced(9, es));
  }

  /** What the reductions by rules 2 and 11 leave on state `p`. */
  lemma BracketLink(es: seq<Entry>, p: int, pe: Entry, q: int, t: int, rule: int)
    requires |es| > 3 && rule in {2, 11} && ExpectsOperand(p) && Finished(es[|es| - 1], t)
    requires if rule == 2 then Link(p, pe, 11, Below(es, 2)) && Link(22, Below(es, 1), 31, Below(es, 0))
             else Link(2, Below(es, 2), 14, Below(es, 1))
    requires rule == 2 ==> !(3 <= t <= 6)
    ensures var s1, e1 := GotoState(Lhs(rule), p), Reduced(rule, es);
            Link(p, pe, s1, e1) && Finished(e1, t) && s1 !in {35, 36} && Rank(s1) < 8
  {
  }

  lemma BracketReduction(ss: seq<int>, es: seq<Entry>, input: seq<Token>, rule: int)
    requires Ok(ss, es, input)
    requires (ss[|ss| - 1], rule) in {(25, 11), (31, 2)} && (rule == 2 ==> !(3 <= Code(input) <= 6))
    ensures Length(rule) == 3 < |ss|
    ensures Ok(ReducedStates(rule, ss), ReducedEntries(rule, es), input)
    ensures Smaller(GotoState(Lhs(rule), ss[|ss| - 4]), |ss| - 2, ss[|ss| - 1], |ss|)
  {
    var n := |ss|;
    assert n >= 2 && Link(ss[n - 2], es[n - 2], ss[n - 1], es[n - 1]);
    assert n >= 3 && Link(ss[n - 3], es[n - 3], ss[n - 2], es[n - 2]);
    assert n >= 4 && Link(ss[n - 4], es[n - 4], ss[n - 3], es[n - 3]);
    assert Finished(es[n - 1], Code(input)) && Length(rule) == 3 && ExpectsOperand(ss[n - 4]);
    assert if rule == 2 then ss[n - 3] == 11 && ss[n - 2] == 22 else ss[n - 3] == 2 && ss[n - 2] == 14;
    hide Link, Linked, Finished, Code, GotoState, Reduced, Ok, Lhs, ExpectsOperand;
    BracketLink(es, ss[n - 4], es[n - 4], ss[n - 3], Code(input), rule);
    Reseat(ss, es, input, n - 3, GotoState(Lhs(rule), ss[n - 4]), Reduced(rule, es));
  }

  /** A tree may be replaced by another one in the same state. */
  lemma SameSeat(p: int, pe: Entry, s: int, e: Entry, x: Expr)
    requires Link(p, pe, s, e) && s in {9, 14, 27, 28, 31}
    requires Grouped(x) && (s in {27, 28} ==> Level(x) >= 2)
    ensures Link(p, pe, s, Node(x)) && GotoState(21, p) == s
  {
  }

  /** The tree an operator's reduction builds groups as it stands. */
  lemma OperatorTree(ss: seq<int>, es: seq<Entry>, rule: int)
    requires Linked(ss, es)
    requires (ss[|ss| - 1], rule) in {(27, 5), (28, 6), (29, 7), (30, 8)}
    ensures |ss| > 3 && ss[|ss| - 3] in {9, 14, 27, 28, 31} && (rule in {5, 6} ==> ss[|ss| - 3] in {9, 14, 31})
    ensures var e := Reduced(rule, es);
            e.Node? && Grouped(e.e) && Level(e.e) == (if rule in {5, 6} then 1 else 2)
            && Below(es, 0).Node? && Open(e.e) == Open(Below(es, 0).e)
            && EndsInCell(e.e) == EndsInCell(Below(es, 0).e)
  {
    FindsSymbols(ss, es, rule);
    var n := |ss|;
    assert Link(ss[n - 2], es[n - 2], ss[n - 1], es[n - 1]);
    assert Link(ss[n - 3], es[n - 3], ss[n - 2], es[n - 2]);
    assert Link(ss[n - 4], es[n - 4], ss[n - 3], es[n - 3]);
  }

  /** The tree an operator's reduction builds sits where the left operand did. */
  lemma OperatorSeat(ss: seq<int>, es: seq<Entry>, input: seq<Token>, rule: int)
    requires Ok(ss, es, input)
    requires (ss[|ss| - 1], rule) in {(27, 5), (28, 6), (29, 7), (30, 8)}
    requires rule in {5, 6} ==> !(5 <= Code(input) <= 6)
    ensures |ss| == |es| > 3 && ss[|ss| - 3] in {9, 14, 27, 28, 31} && GotoState(21, ss[|ss| - 4]) == ss[|ss| - 3]
    ensures Link(ss[|ss| - 4], es[|ss| - 4], ss[|ss| - 3], Reduced(rule, es))
    ensures Finished(Reduced(rule, es), Code(input))
  {
    OperatorTree(ss, es, rule);
    var n, e := |ss|, Reduced(rule, es);
    assert Link(ss[n - 4], es[n - 4], ss[n - 3], es[n - 3]);
    assert Finished(e, Code(input));
    hide Link, Linked, Grouped, Reduced, Finished, Code, Ok;
    SameSeat(ss[n - 4], es[n - 4], ss[n - 3], es[n - 3], e.e);
  }

  lemma OperatorRule(rule: int, s: int)
    requires rule in {5, 6, 7, 8} && s in {9, 14, 27, 28, 31}
    ensures Length(rule) == 3 && Lhs(rule) == 21 && Phase(s) == 2 && Rank(s) == 0
  {
  }

  lemma OperatorReduction(ss: seq<int>, es: seq<Entry>, input: seq<Token>, rule: int)
    requires Ok(ss, es, input)
    requires (ss[|ss| - 1], rule) in {(27, 5), (28, 6), (29, 7), (30, 8)}
    requires rule in {5, 6} ==> !(5 <= Code(input) <= 6)
    ensures Length(rule) == 3 < |ss|
    ensures Ok(ReducedStates(rule, ss), ReducedEntries(rule, es), input)
    ensures Smaller(GotoState(Lhs(rule), ss[|ss| - 4]), |ss| - 2, ss[|ss| - 1], |ss|)
  {
    hide Link, Linked, Reduced, Finished, Code, Ok, Lhs, Length, GotoState;
    OperatorSeat(ss, es, input, rule);
    OperatorRule(rule, ss[|ss| - 3]);
    Reseat(ss, es, input, |ss| - 3, ss[|ss| - 3], Reduced(rule, es));
  }

  lemma FindsReduction(ss: seq<int>, es: seq<Entry>, input: seq<Token>, rule: int)
    requires Ok(ss, es, input)
    requires Automaton(ss[|ss| - 1], Code(input)) == Reduce(rule)
    ensures Symbols(es, rule) && 0 < Length(rule) <= 3 && Length(rule) < |es|
  {
    var n := |ss|;
    if n >= 2 {
      assert Link(ss[n - 2], es[n - 2], ss[n - 1], es[n - 1]);
    }
    StateOfRule(ss[n - 1], Code(input), rule);
    FindsSymbols(ss, es, rule);
  }

  /** A reduction the automaton asks for finds its whole right-hand side on the stack, keeps the
      stack well formed, and makes progress. */
  lemma ReductionKeepsOk(ss: seq<int>, es: seq<Entry>, input: seq<Token>, rule: int)
    requires Ok(ss, es, input)
    requires Automaton(ss[|ss| - 1], Code(input)) == Reduce(rule)
    ensures 0 < Length(rule) < |ss|
    ensures Ok(ReducedStates(rule, ss), ReducedEntries(rule, es), input)
    ensures Smaller(GotoState(Lhs(rule), ss[|ss| - 1 - Length(rule)]), |ss| + 1 - Length(rule), ss[|ss| - 1], |ss|)
  {
    var n := |ss|;
    if n >= 2 {
      assert Link(ss[n - 2], es[n - 2], ss[n - 1], es[n - 1]);
    }
    StateOfRule(ss[n - 1], Code(input), rule);
    if rule in {1, 4, 12, 13, 17} {
      OneSymbolReduction(ss, es, input, rule);
    } else if rule == 9 {
      UnaryReduction(ss, es, input);
    } else if rule in {2, 11} {
      BracketReduction(ss, es, input, rule);
    } else {
      OperatorReduction(ss, es, input, rule);
    }
  }

  function Shifted(input: seq<Token>): Entry {
    if input == [] then Bottom else Tok(input[0])
  }

  lemma ShiftOperandLink(s0: int, e0: Entry, input: seq<Token>, s: int)
    requires ExpectsOperand(s0) && Automaton(s0, Code(input)) == Shift(s)
    ensures Link(s0, e0, s, Shifted(input)) && s !in {35, 36} && input != []
  {
    hide AnyOperator, TightOperator;
    assert Automaton(s0, Code(input)) == Operand(Code(input));
  }

  /** A shift from state `s0`, seen at the two top levels only. */
  lemma ShiftLink(p: int, pe: Entry, s0: int, e0: Entry, input: seq<Token>, s: int)
    requires (s0 == 0 || Link(p, pe, s0, e0)) && Finished(e0, Code(input)) && Automaton(s0, Code(input)) == Shift(s)
    ensures Link(s0, e0, s, Shifted(input)) && s != 35 && (s == 36 <==> input == [])
    ensures input == [] ==> Phase(s) < Phase(s0)
  {
    if ExpectsOperand(s0) {
      ShiftOperandLink(s0, e0, input, s);
    }
  }

  lemma ShiftKeepsOk(ss: seq<int>, es: seq<Entry>, input: seq<Token>, s: int)
    requires Ok(ss, es, input)
    requires Automaton(ss[|ss| - 1], Code(input)) == Shift(s)
    ensures Ok(ss + [s], es + [Shifted(input)], if input == [] then [] else input[1..])
    ensures input == [] ==> Phase(s) < Phase(ss[|ss| - 1])
  {
    hide Link, Automaton, Code, Phase;
    var n := |ss|;
    var k := if n == 1 then 0 else n - 2;
    ShiftLink(ss[k], es[k], ss[n - 1], es[n - 1], input, s);
    PushLink(ss, es, n, s, Shifted(input));
    assert ss[..n] == ss && es[..n] == es;
  }

  /** The parser as a function: trees instead of values on the stack. Total on every token sequence. */
  function Run(ss: seq<int>, es: seq<Entry>, input: seq<Token>): Result
    requires Ok(ss, es, input)
    decreases |input|, Phase(ss[|ss| - 1]), 4 * |ss| + Rank(ss[|ss| - 1])
  {
    if |ss| >= MAXDEPTH then Exhausted(es) else
    match Automaton(ss[|ss| - 1], Code(input))
    case Accept => Accepted(Tree(Below(es, 1)))
    case Error => Syntax(ss, es, input)
    case Shift(s) =>
      ShiftKeepsOk(ss, es, input, s);
      Run(ss + [s], es + [Shifted(input)], if input == [] then [] else input[1..])
    case Reduce(r) =>
      ReductionKeepsOk(ss, es, input, r);
      Run(ReducedStates(r, ss), ReducedEntries(r, es), input)
  }

  function Parse(input: seq<Token>): Result {
    Run([0], [Bottom], input)
  }

  // ---------- soundness: whatever is accepted is a grouped text of the tree it yields ----------

  function TextOf(e: Entry): seq<Token> {
    match e
    case Bottom => []
    case Tok(t) => [t]
    case Node(x) => Yield(x)
  }

  /** The tokens the first `n` stack levels stand for. */
  function Text(es: seq<Entry>, n: nat): seq<Token>
    requires n <= |es|
  {
    if n == 0 then [] else Text(es, n - 1) + TextOf(es[n - 1])
  }

  lemma {:induction false} TextOfPrefix(es: seq<Entry>, ds: seq<Entry>, n: nat)
    requires n <= |es| && n <= |ds| && es[..n] == ds[..n]
    ensures Text(es, n) == Text(ds, n)
  {
    if n > 0 {
      assert es[..n][n - 1] == ds[..n][n - 1];
      assert es[..n - 1] == es[..n][..n - 1] == ds[..n - 1];
      TextOfPrefix(es, ds, n - 1);
    }
  }

  /** The text of the `k` symbols a reduction takes, from the top of the stack. */
  function TopText(es: seq<Entry>, k: int): seq<Token> {
    match k
    case 1 => TextOf(Below(es, 0))
    case 2 => TextOf(Below(es, 1)) + TextOf(Below(es, 0))
    case _ => TextOf(Below(es, 2)) + TextOf(Below(es, 1)) + TextOf(Below(es, 0))
  }

  lemma Associate(a: seq<Token>, b: seq<Token>, c: seq<Token>)
    ensures (a + b) + c == a + (b + c)
  {
  }

  lemma TextSplit(es: seq<Entry>, k: nat)
    requires 1 <= k <= 3 && k <= |es|
    ensures Text(es, |es|) == Text(es, |es| - k) + TopText(es, k)
  {
    var n := |es|;
    if k == 2 {
      Associate(Text(es, n - 2), TextOf(es[n - 2]), TextOf(es[n - 1]));
    } else if k == 3 {
      assert Text(es, n - 2) == Text(es, n - 3) + TextOf(es[n - 3]);
      Associate(Text(es, n - 3), TextOf(es[n - 3]), TextOf(es[n - 2]));
      Associate(Text(es, n - 3), TextOf(es[n - 3]) + TextOf(es[n - 2]), TextOf(es[n - 1]));
    }
  }

  lemma ReplaceTop(es: seq<Entry>, k: nat, e: Entry)
    requires 1 <= k <= 3 && k <= |es| && TextOf(e) == TopText(es, k)
    ensures Text(es[..|es| - k] + [e], |es| + 1 - k) == Text(es, |es|)
  {
    var low := |es| - k;
    var ds := es[..low] + [e];
    assert Text(ds, low + 1) == Text(es, low) + TopText(es, k) by {
      assert ds[low] == e && ds[..low] == es[..low];
      TextOfPrefix(ds, es, low);
    }
    TextSplit(es, k);
  }

  /** A reduction's tree has the text of the entries it replaces. */
  lemma ReducedText(es: seq<Entry>, rule: int)
    requires Symbols(es, rule)
    ensures 1 <= Length(rule) <= 3 && Length(rule) < |es| && TextOf(Reduced(rule, es)) == TopText(es, Length(rule))
  {
  }

  lemma ReductionKeepsText(es: seq<Entry>, rule: int, k: nat, e: Entry)
    requires 1 <= k <= 3 && k < |es| && k == Length(rule) && e == Reduced(rule, es) && TextOf(e) == TopText(es, k)
    ensures Text(ReducedEntries(rule, es), |es| + 1 - k) == Text(es, |es|)
  {
    assert ReducedEntries(rule, es) == es[..|es| - k] + [e];
    ReplaceTop(es, k, e);
  }

  /** The accepting stack holds the whole tree and nothing else. */
  lemma AcceptingStack(ss: seq<int>, es: seq<Entry>, input: seq<Token>)
    requires Ok(ss, es, input) && Automaton(ss[|ss| - 1], Code(input)) == Accept
    ensures input == [] && ss == [0, 35, 36]
    ensures |es| == 3 && es[1].Node? && Grouped(es[1].e) && Text(es, 3) == Yield(es[1].e)
  {
    var n := |ss|;
    assert ss[n - 1] == 36;
    assert Link(ss[n - 2], es[n - 2], ss[n - 1], es[n - 1]);
    assert Link(ss[n - 3], es[n - 3], ss[n - 2], es[n - 2]);
    if n > 3 {
      NothingLeadsToStart(ss[n - 4], es[n - 4], es[n - 3]);
      assert false;
    }
    assert Text(es, 1) == Text(es, 0) + TextOf(es[0]) == [];
    assert Text(es, 2) == Text(es, 1) + TextOf(es[1]) == Yield(es[1].e);
  }

  lemma NothingLeadsToStart(p: int, pe: Entry, e: Entry)
    ensures !Link(p, pe, 0, e)
  {
  }

  lemma ShiftKeepsText(es: seq<Entry>, input: seq<Token>)
    ensures var input' := if input == [] then [] else input[1..];
            Text(es + [Shifted(input)], |es| + 1) + input' == Text(es, |es|) + input
  {
    var input' := if input == [] then [] else input[1..];
    var x := Shifted(input);
    assert input == TextOf(x) + input';
    Associate(Text(es, |es|), TextOf(x), input');
    assert Text(es + [x], |es| + 1) == Text(es, |es|) + TextOf(x) by {
      TextOfPrefix(es + [x], es, |es|);
    }
  }

  ghost predicate Sound(ss: seq<int>, es: seq<Entry>, input: seq<Token>)
    requires Ok(ss, es, input)
  {
    var r := Run(ss, es, input);
    match r
    case Accepted(e) => Grouped(e) && Yield(e) == Text(es, |es|) + input
    case Syntax(ss1, es1, rest) =>
      Ok(ss1, es1, rest) && Text(es1, |es1|) + rest == Text(es, |es|) + input && |rest| <= |input|
      && |ss1| < MAXDEPTH && Automaton(ss1[|ss1| - 1], Code(rest)) == Error
    case _ => true
  }

  lemma SoundBeforeShift(ss: seq<int>, es: seq<Entry>, input: seq<Token>, s: int)
    requires Ok(ss, es, input) && Automaton(ss[|ss| - 1], Code(input)) == Shift(s)
    requires var ss1, es1, input1 := ss + [s], es + [Shifted(input)], if input == [] then [] else input[1..];
             Ok(ss1, es1, input1) ==> Sound(ss1, es1, input1)
    ensures Sound(ss, es, input)
  {
    ShiftKeepsOk(ss, es, input, s);
    hide Linked, Grouped, Text, Yield, Shifted;
    ShiftKeepsText(es, input);
  }

  lemma TextBeforeReduce(ss: seq<int>, es: seq<Entry>, input: seq<Token>, rule: int)
    requires Ok(ss, es, input) && Automaton(ss[|ss| - 1], Code(input)) == Reduce(rule)
    ensures 0 < Length(rule) < |es| && Text(ReducedEntries(rule, es), |es| + 1 - Length(rule)) == Text(es, |es|)
  {
    assert |ss| == |es| > 0;
    hide *;
    FindsReduction(ss, es, input, rule);
    ReducedText(es, rule);
    ReductionKeepsText(es, rule, Length(rule), Reduced(rule, es));
  }

  lemma SoundBeforeReduce(ss: seq<int>, es: seq<Entry>, input: seq<Token>, rule: int)
    requires Ok(ss, es, input) && Automaton(ss[|ss| - 1], Code(input)) == Reduce(rule)
    requires 0 < Length(rule) < |ss|
    requires Ok(ReducedStates(rule, ss), ReducedEntries(rule, es), input)
    requires Sound(ReducedStates(rule, ss), ReducedEntries(rule, es), input)
    ensures Sound(ss, es, input)
  {
    hide Ok, Grouped, Text, Yield, Reduced, GotoState;
    TextBeforeReduce(ss, es, input, rule);
  }

  lemma SoundAtEnd(ss: seq<int>, es: seq<Entry>, input: seq<Token>)
    requires Ok(ss, es, input) && |ss| < MAXDEPTH && Automaton(ss[|ss| - 1], Code(input)) in {Accept, Error}
    ensures Sound(ss, es, input)
  {
    assert |ss| == |es| > 0;
    hide Link, Linked, Finished, Code, Automaton, Text, Yield, Grouped;
    if Automaton(ss[|ss| - 1], Code(input)) == Accept {
      AcceptingStack(ss, es, input);
      assert Yield(es[1].e) + [] == Yield(es[1].e);
    }
  }

  /** Soundness: an accepted input is a grouped text of its tree. And the stack at a syntax error stands
      for exactly the tokens consumed. */
  lemma {:induction false} AcceptedTextIsGrouped(ss: seq<int>, es: seq<Entry>, input: seq<Token>)
    requires Ok(ss, es, input)
    ensures Sound(ss, es, input)
    decreases |input|, Phase(ss[|ss| - 1]), 4 * |ss| + Rank(ss[|ss| - 1])
  {
    assert |ss| == |es| > 0;
    hide Linked, Grouped, Text, Yield, Reduced, GotoState, Automaton, Code, Link, Finished;
    if |ss| < MAXDEPTH {
      match Automaton(ss[|ss| - 1], Code(input))
      case Accept | Error =>
        SoundAtEnd(ss, es, input);
      case Shift(s) =>
        ShiftKeepsOk(ss, es, input, s);
        AcceptedTextIsGrouped(ss + [s], es + [Shifted(input)], if input == [] then [] else input[1..]);
        SoundBeforeShift(ss, es, input, s);
      case Reduce(r) =>
        ReductionKeepsOk(ss, es, input, r);
        AcceptedTextIsGrouped(ReducedStates(r, ss), ReducedEntries(r, es), input);
        SoundBeforeReduce(ss, es, input, r);
    }
  }

  // ---------- completeness: every grouped text is accepted with its own tree ----------

  /** Stack levels the text of `e` needs above the level it starts from. */
  function Need(e: Expr): nat {
    match e
    case Assign(_, x) => 2 + Need(x)
    case Neg(x) => 1 + Need(x)
    case Paren(x) => if Need(x) < 2 then 3 else 1 + Need(x)
    case Bin(_, l, r) => if Need(l) < 2 + Need(r) then 2 + Need(r) else Need(l)
    case _ => 1
  }

  /** The weakest operator that may be the root of an operand in state `s`. */
  function MinLevel(s: int): int {
    match s
    case 1 | 20 | 21 => 3
    case 18 | 19 => 2
    case _ => 1
  }

  predicate Fits(ss: seq<int>, es: seq<Entry>, e: Expr, rest: seq<Token>) {
    Linked(ss, es) && !es[|es| - 1].Node? && ss[|ss| - 1] != 36 && ExpectsOperand(ss[|ss| - 1])
    && Grouped(e) && Level(e) >= MinLevel(ss[|ss| - 1])
    && Finished(Node(e), Code(rest))
  }

  ghost predicate Reads(ss: seq<int>, es: seq<Entry>, e: Expr, rest: seq<Token>)
    requires Fits(ss, es, e, rest)
  {
    var r := Run(ss, es, Yield(e) + rest);
    var s := AfterExpression(ss[|ss| - 1]);
    if |ss| + Need(e) >= MAXDEPTH then r.Exhausted?
    else Ok(ss + [s], es + [Node(e)], rest) && r == Run(ss + [s], es + [Node(e)], rest)
  }

  lemma SeatExpression(ss: seq<int>, es: seq<Entry>, e: Expr, rest: seq<Token>)
    requires Fits(ss, es, e, rest)
    ensures Ok(ss + [AfterExpression(ss[|ss| - 1])], es + [Node(e)], rest)
  {
    PushLink(ss, es, |ss|, AfterExpression(ss[|ss| - 1]), Node(e));
    assert ss[..|ss|] == ss && es[..|es|] == es;
  }

  /** One step of the run that shifts the token `t`. */
  lemma ShiftStep(ss: seq<int>, es: seq<Entry>, t: Token, rest: seq<Token>, s: int)
    requires Ok(ss, es, [t] + rest) && Automaton(ss[|ss| - 1], Code([t] + rest)) == Shift(s)
    ensures Ok(ss + [s], es + [Tok(t)], rest)
    ensures |ss| >= MAXDEPTH ==> Run(ss, es, [t] + rest).Exhausted?
    ensures |ss| < MAXDEPTH ==> Run(ss, es, [t] + rest) == Run(ss + [s], es + [Tok(t)], rest)
  {
    ShiftKeepsOk(ss, es, [t] + rest, s);
    assert ([t] + rest)[1..] == rest;
  }

  /** One step of the run that reduces the levels `ts`, `xs` on top of `ss`, `es`. */
  lemma ReduceStep(ss: seq<int>, es: seq<Entry>, ts: seq<int>, xs: seq<Entry>, rest: seq<Token>, rule: int)
    requires |ss| == |es| > 0 && |ts| == |xs| == Length(rule) && 1 <= |ts| <= 3
    requires Ok(ss + ts, es + xs, rest) && Automaton(ts[|ts| - 1], Code(rest)) == Reduce(rule)
    ensures var s, e := GotoState(Lhs(rule), ss[|ss| - 1]), Reduced(rule, es + xs);
            Ok(ss + [s], es + [e], rest) &&
            if |ss| + |ts| >= MAXDEPTH then Run(ss + ts, es + xs, rest).Exhausted?
            else Run(ss + ts, es + xs, rest) == Run(ss + [s], es + [e], rest)
  {
    hide Ok, Reduced, GotoState;
    ReductionKeepsOk(ss + ts, es + xs, rest, rule);
    assert (ss + ts)[..|ss|] == ss && (es + xs)[..|es|] == es;
    assert ReducedStates(rule, ss + ts) == ss + [GotoState(Lhs(rule), ss[|ss| - 1])];
    assert ReducedEntries(rule, es + xs) == es + [Reduced(rule, es + xs)];
  }

  /** Shifting the first token of an operand's text, with the tree `x` of the rest of the operand next. */
  lemma ShiftBeforeTree(ss: seq<int>, es: seq<Entry>, t: Token, x: Expr, rest: seq<Token>, s: int)
    requires Ok(ss, es, [t] + (Yield(x) + rest)) && Automaton(ss[|ss| - 1], Code([t] + (Yield(x) + rest))) == Shift(s)
    requires ExpectsOperand(s) && Grouped(x) && Level(x) >= MinLevel(s)
    requires Finished(Node(x), Code(rest))
    ensures Fits(ss + [s], es + [Tok(t)], x, rest)
    ensures |ss| >= MAXDEPTH ==> Run(ss, es, [t] + (Yield(x) + rest)).Exhausted?
    ensures |ss| < MAXDEPTH ==> Run(ss, es, [t] + (Yield(x) + rest)) == Run(ss + [s], es + [Tok(t)], Yield(x) + rest)
  {
    ShiftStep(ss, es, t, Yield(x) + rest, s);
  }

  lemma ReadsNumber(ss: seq<int>, es: seq<Entry>, e: Expr, rest: seq<Token>)
    requires Fits(ss, es, e, rest) && e.Number?
    ensures Reads(ss, es, e, rest)
  {
    assert |ss| == |es| > 0;
    hide Linked;
    ShiftStep(ss, es, Num(e.n), rest, 6);
    ReduceStep(ss, es, [6], [Tok(Num(e.n))], rest, 12);
  }

  /** A memory operand becomes the memory symbol, before it is known whether it is read or assigned. */
  lemma ReadsCell(ss: seq<int>, es: seq<Entry>, a: int, rest: seq<Token>)
    requires Ok(ss, es, [Mem(a)] + rest) && ExpectsOperand(ss[|ss| - 1])
    ensures Ok(ss + [11], es + [Tok(Mem(a))], rest)
    ensures if |ss| + 1 >= MAXDEPTH then Run(ss, es, [Mem(a)] + rest).Exhausted?
            else Run(ss, es, [Mem(a)] + rest) == Run(ss + [11], es + [Tok(Mem(a))], rest)
  {
    assert |ss| == |es| > 0 && Automaton(ss[|ss| - 1], Code([Mem(a)] + rest)) == Shift(5);
    assert Automaton(5, Code(rest)) == Reduce(17) && Length(17) == 1 && GotoState(Lhs(17), ss[|ss| - 1]) == 11;
    assert Reduced(17, es + [Tok(Mem(a))]) == Tok(Mem(a));
    hide *;
    ShiftStep(ss, es, Mem(a), rest, 5);
    ReduceStep(ss, es, [5], [Tok(Mem(a))], rest, 17);
  }

  lemma ReadsRead(ss: seq<int>, es: seq<Entry>, e: Expr, rest: seq<Token>)
    requires Fits(ss, es, e, rest) && e.Read?
    ensures Reads(ss, es, e, rest)
  {
    assert |ss| == |es| > 0;
    hide Linked;
    ReadsCell(ss, es, e.a, rest);
    ReduceStep(ss, es, [11], [Tok(Mem(e.a))], rest, 13);
  }

  lemma ReduceAssign(ss: seq<int>, es: seq<Entry>, e: Expr, rest: seq<Token>)
    requires Fits(ss, es, e, rest) && e.Assign? && |ss| + 3 < MAXDEPTH
    requires Ok(ss + [11] + [22] + [31], es + [Tok(Mem(e.a))] + [Tok(Equal)] + [Node(e.e)], rest)
    ensures Ok(ss + [8], es + [Node(e)], rest)
    ensures Run(ss + [11] + [22] + [31], es + [Tok(Mem(e.a))] + [Tok(Equal)] + [Node(e.e)], rest) ==
            Run(ss + [8], es + [Node(e)], rest)
  {
    assert |ss| == |es| > 0;
    hide Linked;
    hide Run;
    var ts, xs := [11, 22, 31], [Tok(Mem(e.a)), Tok(Equal), Node(e.e)];
    assert ss + [11] + [22] + [31] == ss + ts && es + [Tok(Mem(e.a))] + [Tok(Equal)] + [Node(e.e)] == es + xs;
    ReduceStep(ss, es, ts, xs, rest, 2);
  }

  lemma FinishAssign(ss: seq<int>, es: seq<Entry>, e: Expr, rest: seq<Token>)
    requires Fits(ss, es, e, rest) && e.Assign? && |ss| + 3 < MAXDEPTH
    requires Ok(ss + [11] + [22] + [31], es + [Tok(Mem(e.a))] + [Tok(Equal)] + [Node(e.e)], rest)
    ensures Ok(ss + [AfterExpression(ss[|ss| - 1])], es + [Node(e)], rest)
    ensures Run(ss + [11] + [22] + [31], es + [Tok(Mem(e.a))] + [Tok(Equal)] + [Node(e.e)], rest) ==
            Run(ss + [AfterExpression(ss[|ss| - 1])], es + [Node(e)], rest)
  {
    assert |ss| == |es| > 0;
    hide Linked;
    hide Run;
    ReduceAssign(ss, es, e, rest);
    ReduceStep(ss, es, [8], [Node(e)], rest, 4);
  }

  lemma {:induction false} ReadsAssign(ss: seq<int>, es: seq<Entry>, e: Expr, rest: seq<Token>)
    requires Fits(ss, es, e, rest) && e.Assign?
    ensures Reads(ss, es, e, rest)
    decreases e, 0
  {
    assert |ss| == |es| > 0;
    hide Linked;
    hide Run;
    var tail := [Equal] + (Yield(e.e) + rest);
    assert Yield(e) + rest == [Mem(e.a)] + tail;
    ReadsCell(ss, es, e.a, tail);
    var ss1, es1 := ss + [11], es + [Tok(Mem(e.a))];
    ShiftBeforeTree(ss1, es1, Equal, e.e, rest, 22);
    ReadsTree(ss1 + [22], es1 + [Tok(Equal)], e.e, rest);
    if |ss| + Need(e) < MAXDEPTH {
      FinishAssign(ss, es, e, rest);
    }
  }

  lemma ReduceNeg(ss: seq<int>, es: seq<Entry>, e: Expr, rest: seq<Token>)
    requires Fits(ss, es, e, rest) && e.Neg? && |ss| + 2 < MAXDEPTH
    requires Ok(ss + [1] + [13], es + [Tok(MINUS)] + [Node(e.e)], rest)
    ensures Ok(ss + [AfterExpression(ss[|ss| - 1])], es + [Node(e)], rest)
    ensures Run(ss + [1] + [13], es + [Tok(MINUS)] + [Node(e.e)], rest) ==
            Run(ss + [AfterExpression(ss[|ss| - 1])], es + [Node(e)], rest)
  {
    assert |ss| == |es| > 0;
    hide Linked;
    hide Run;
    var ts, xs := [1, 13], [Tok(MINUS), Node(e.e)];
    assert ss + [1] + [13] == ss + ts && es + [Tok(MINUS)] + [Node(e.e)] == es + xs;
    ReduceStep(ss, es, ts, xs, rest, 9);
  }

  lemma {:induction false} ReadsNeg(ss: seq<int>, es: seq<Entry>, e: Expr, rest: seq<Token>)
    requires Fits(ss, es, e, rest) && e.Neg?
    ensures Reads(ss, es, e, rest)
    decreases e, 0
  {
    assert |ss| == |es| > 0;
    hide Linked;
    hide Run;
    assert Yield(e) + rest == [MINUS] + (Yield(e.e) + rest);
    ShiftBeforeTree(ss, es, MINUS, e.e, rest, 1);
    ReadsTree(ss + [1], es + [Tok(MINUS)], e.e, rest);
    if |ss| + Need(e) < MAXDEPTH {
      ReduceNeg(ss, es, e, rest);
    }
  }

  lemma ReduceParen(ss: seq<int>, es: seq<Entry>, e: Expr, rest: seq<Token>)
    requires Fits(ss, es, e, rest) && e.Paren?
    requires Ok(ss + [2] + [14] + [25], es + [Tok(LeftParen)] + [Node(e.e)] + [Tok(RightParen)], rest)
    ensures Ok(ss + [AfterExpression(ss[|ss| - 1])], es + [Node(e)], rest)
    ensures var r := Run(ss + [2] + [14] + [25], es + [Tok(LeftParen)] + [Node(e.e)] + [Tok(RightParen)], rest);
            if |ss| + 3 >= MAXDEPTH then r.Exhausted?
            else r == Run(ss + [AfterExpression(ss[|ss| - 1])], es + [Node(e)], rest)
  {
    assert |ss| == |es| > 0;
    hide Linked;
    hide Run;
    var ts, xs := [2, 14, 25], [Tok(LeftParen), Node(e.e), Tok(RightParen)];
    assert ss + [2] + [14] + [25] == ss + ts && es + [Tok(LeftParen)] + [Node(e.e)] + [Tok(RightParen)] == es + xs;
    ReduceStep(ss, es, ts, xs, rest, 11);
  }

  lemma CloseParen(ss: seq<int>, es: seq<Entry>, e: Expr, rest: seq<Token>)
    requires Fits(ss, es, e, rest) && e.Paren? && |ss| + 2 < MAXDEPTH
    requires Ok(ss + [2] + [14], es + [Tok(LeftParen)] + [Node(e.e)], [RightParen] + rest)
    ensures Ok(ss + [AfterExpression(ss[|ss| - 1])], es + [Node(e)], rest)
    ensures var r := Run(ss + [2] + [14], es + [Tok(LeftParen)] + [Node(e.e)], [RightParen] + rest);
            if |ss| + 3 >= MAXDEPTH then r.Exhausted?
            else r == Run(ss + [AfterExpression(ss[|ss| - 1])], es + [Node(e)], rest)
  {
    hide Linked;
    hide Run;
    ShiftStep(ss + [2] + [14], es + [Tok(LeftParen)] + [Node(e.e)], RightParen, rest, 25);
    ReduceParen(ss, es, e, rest);
  }

  lemma {:induction false} ReadsParen(ss: seq<int>, es: seq<Entry>, e: Expr, rest: seq<Token>)
    requires Fits(ss, es, e, rest) && e.Paren?
    ensures Reads(ss, es, e, rest)
    decreases e, 0
  {
    assert |ss| == |es| > 0;
    hide Linked;
    hide Run;
    var tail := [RightParen] + rest;
    assert Yield(e) + rest == [LeftParen] + (Yield(e.e) + tail);
    ShiftBeforeTree(ss, es, LeftParen, e.e, tail, 2);
    ReadsTree(ss + [2], es + [Tok(LeftParen)], e.e, tail);
    if |ss| + 1 + Need(e.e) < MAXDEPTH {
      CloseParen(ss, es, e, rest);
    } else {
      SeatExpression(ss, es, e, rest);
    }
  }

  function OpState(op: Op): int {
    match op case Add => 18 case Sub => 19 case Mul => 20 case Div => 21
  }

  lemma ShiftOperator(ss: seq<int>, es: seq<Entry>, e: Expr, rest: seq<Token>)
    requires Fits(ss, es, e, rest) && e.Bin?
    requires Ok(ss + [AfterExpression(ss[|ss| - 1])], es + [Node(e.l)], [Operator(e.op)] + (Yield(e.r) + rest))
    ensures var ss1, es1, tail := ss + [AfterExpression(ss[|ss| - 1])], es + [Node(e.l)], Yield(e.r) + rest;
            var ss2, es2 := ss1 + [OpState(e.op)], es1 + [Tok(Operator(e.op))];
            Fits(ss2, es2, e.r, rest) &&
            if |ss1| >= MAXDEPTH then Run(ss1, es1, [Operator(e.op)] + tail).Exhausted?
            else Run(ss1, es1, [Operator(e.op)] + tail) == Run(ss2, es2, tail)
  {
    var s := AfterExpression(ss[|ss| - 1]);
    ShiftBeforeTree(ss + [s], es + [Node(e.l)], Operator(e.op), e.r, rest, OpState(e.op));
  }

  lemma OperatorReduced(es: seq<Entry>, e: Expr)
    requires e.Bin?
    ensures Reduced(OpState(e.op) - 13, es + [Node(e.l), Tok(Operator(e.op)), Node(e.r)]) == Node(e)
  {
  }

  /** After both operands of a tree that ends before `rest`, the automaton reduces. */
  lemma OperatorEnds(ss: seq<int>, es: seq<Entry>, e: Expr, rest: seq<Token>)
    requires Fits(ss, es, e, rest) && e.Bin? && Finished(Node(e.r), Code(rest))
    ensures Automaton(OpState(e.op) + 9, Code(rest)) == Reduce(OpState(e.op) - 13)
  {
    hide Linked;
  }

  lemma ReduceOperator(ss: seq<int>, es: seq<Entry>, e: Expr, rest: seq<Token>)
    requires Fits(ss, es, e, rest) && e.Bin? && |ss| + 3 < MAXDEPTH
    requires var s, o := AfterExpression(ss[|ss| - 1]), OpState(e.op);
             Ok(ss + [s] + [o] + [o + 9], es + [Node(e.l)] + [Tok(Operator(e.op))] + [Node(e.r)], rest)
    ensures var s, o := AfterExpression(ss[|ss| - 1]), OpState(e.op);
            Ok(ss + [s], es + [Node(e)], rest) &&
            Run(ss + [s] + [o] + [o + 9], es + [Node(e.l)] + [Tok(Operator(e.op))] + [Node(e.r)], rest) ==
            Run(ss + [s], es + [Node(e)], rest)
  {
    var s, o := AfterExpression(ss[|ss| - 1]), OpState(e.op);
    assert |ss| == |es| > 0;
    assert Finished(Node(e.r), Code(rest));
    OperatorEnds(ss, es, e, rest);
    OperatorReduced(es, e);
    assert GotoState(Lhs(o - 13), ss[|ss| - 1]) == s && Length(o - 13) == 3;
    hide Linked, Run, Yield, Automaton, Reduced, Fits, GotoState;
    var ts, xs := [s, o, o + 9], [Node(e.l), Tok(Operator(e.op)), Node(e.r)];
    assert ss + [s] + [o] + [o + 9] == ss + ts && es + [Node(e.l)] + [Tok(Operator(e.op))] + [Node(e.r)] == es + xs;
    ReduceStep(ss, es, ts, xs, rest, o - 13);
  }

  lemma {:induction false} ReadsBin(ss: seq<int>, es: seq<Entry>, e: Expr, rest: seq<Token>)
    requires Fits(ss, es, e, rest) && e.Bin?
    ensures Reads(ss, es, e, rest)
    decreases e, 0
  {
    assert |ss| == |es| > 0;
    hide Linked;
    hide Run;
    var tail := [Operator(e.op)] + (Yield(e.r) + rest);
    assert Yield(e) + rest == Yield(e.l) + tail;
    ReadsTree(ss, es, e.l, tail);
    if |ss| + Need(e.l) < MAXDEPTH {
      var s, o := AfterExpression(ss[|ss| - 1]), OpState(e.op);
      ShiftOperator(ss, es, e, rest);
      ReadsTree(ss + [s] + [o], es + [Node(e.l)] + [Tok(Operator(e.op))], e.r, rest);
      if |ss| + Need(e) < MAXDEPTH {
        ReduceOperator(ss, es, e, rest);
      }
    }
  }

  /** From a state that expects an operand, the text of a tree that fits there is read as that tree
      without touching the stack below, or the stack limit is hit. */
  lemma {:induction false} ReadsTree(ss: seq<int>, es: seq<Entry>, e: Expr, rest: seq<Token>)
    requires Fits(ss, es, e, rest)
    ensures Reads(ss, es, e, rest)
    decreases e, 1
  {
    match e
    case Number(_) => ReadsNumber(ss, es, e, rest);
    case Read(_) => ReadsRead(ss, es, e, rest);
    case Assign(_, _) => ReadsAssign(ss, es, e, rest);
    case Neg(_) => ReadsNeg(ss, es, e, rest);
    case Paren(_) => ReadsParen(ss, es, e, rest);
    case Bin(_, _, _) => ReadsBin(ss, es, e, rest);
  }

  lemma AcceptsAtEnd(e: Expr)
    requires Ok([0, 35], [Bottom, Node(e)], [])
    ensures Run([0, 35], [Bottom, Node(e)], []) == Accepted(e)
  {
    ShiftKeepsOk([0, 35], [Bottom, Node(e)], [], 36);
  }

  /** Every grouped text within the stack limit is accepted with its own tree; beyond it the parser says so. */
  lemma GroupedTextIsAccepted(e: Expr)
    requires Grouped(e)
    ensures if Need(e) + 1 < MAXDEPTH then Parse(Yield(e)) == Accepted(e) else Parse(Yield(e)).Exhausted?
  {
    assert Yield(e) + [] == Yield(e);
    assert Fits([0], [Bottom], e, []);
    hide Run, Linked, Grouped, Need, Yield;
    ReadsTree([0], [Bottom], e, []);
    if Need(e) + 1 < MAXDEPTH {
      ReduceStep([0], [Bottom], [9], [Node(e)], [], 1);
      assert [0] + [35] == [0, 35] && [Bottom] + [Node(e)] == [Bottom, Node(e)];
      AcceptsAtEnd(e);
    }
  }

  /** The parser's language: a token sequence is accepted with the tree `e` exactly when it is the
      text of `e`, groups as `e`, and stays within the stack limit. So a text has at most one tree. */
  lemma LanguageIsTheGrammar(input: seq<Token>, e: Expr)
    ensures Parse(input) == Accepted(e) <==> Grouped(e) && Yield(e) == input && Need(e) + 1 < MAXDEPTH
  {
    if Parse(input) == Accepted(e) {
      AcceptedTextIsGrouped([0], [Bottom], input);
      assert Text([Bottom], 1) == [];
      GroupedTextIsAccepted(e);
    }
    if Grouped(e) && Yield(e) == input && Need(e) + 1 < MAXDEPTH {
      GroupedTextIsAccepted(e);
    }
  }

  /** Printing any tree with minimal parentheses and parsing it back keeps its meaning. */
  lemma PrintThenParse(e: Expr, w: World)
    ensures var c := Format(e, 1, false);
            Need(c) + 1 < MAXDEPTH ==>
              var r := Parse(Yield(c)); r == Accepted(c) && Eval(r.e, w) == Eval(e, w) && Strip(r.e) == Strip(e)
  {
    FormatGroups(e, 1, false);
    FormatKeepsMeaning(e, 1, false, w);
    GroupedTextIsAccepted(Format(e, 1, false));
  }
}
