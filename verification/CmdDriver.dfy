/** The shift-reduce driver with its growing stacks and its semantic actions, run on the packed tables. */
module CmdDriver {
  import opened CmdTables
  import opened CmdExpr
  import opened CmdParser

  const INITDEPTH := 200
  const EMPTY := -2

  /** One cell of the semantic value stack: the union's `number` or `memory` member. */
  datatype Value = Undefined | Scalar(n: int) | Location(a: int)

  // ---------- what the value stack must hold ----------

  /** The world after evaluating the finished trees among the first `n` entries, bottom first. */
  function After(es: seq<Entry>, n: nat, w: World): World
    requires n <= |es|
  {
    if n == 0 then w
    else if es[n - 1].Node? then Eval(es[n - 1].e, After(es, n - 1, w)).1
    else After(es, n - 1, w)
  }

  /** The value of the tree at level `i`, evaluated after everything below it. */
  function ValueAt(es: seq<Entry>, i: nat, w: World): int
    requires i < |es| && es[i].Node?
  {
    Eval(es[i].e, After(es, i, w)).0
  }

  predicate Represents(v: Value, es: seq<Entry>, i: nat, w: World)
    requires i < |es|
  {
    match es[i]
    case Node(_) => v == Scalar(ValueAt(es, i, w))
    case Tok(Num(n)) => v == Scalar(n)
    case Tok(Mem(a)) => v == Location(a)
    case _ => true
  }

  predicate AllRepresented(vs: seq<Value>, es: seq<Entry>, w: World) {
    |vs| == |es| && forall i :: 0 <= i < |es| ==> Represents(vs[i], es, i, w)
  }

  lemma {:induction false} AfterPrefix(es: seq<Entry>, ds: seq<Entry>, n: nat, w: World)
    requires n <= |es| && n <= |ds| && es[..n] == ds[..n]
    ensures After(es, n, w) == After(ds, n, w)
  {
    if n > 0 {
      assert es[..n][n - 1] == ds[..n][n - 1];
      assert es[..n - 1] == es[..n][..n - 1] == ds[..n - 1];
      AfterPrefix(es, ds, n - 1, w);
    }
  }

  /** Values below a level do not depend on what is above it. */
  lemma RepresentedPrefix(vs: seq<Value>, es: seq<Entry>, ds: seq<Entry>, n: nat, w: World)
    requires AllRepresented(vs, es, w) && n <= |es| && n <= |ds| && es[..n] == ds[..n]
    ensures forall i :: 0 <= i < n ==> Represents(vs[i], ds, i, w)
  {
    forall i | 0 <= i < n
      ensures Represents(vs[i], ds, i, w)
    {
      assert es[..n][i] == ds[..n][i];
      assert es[..i] == es[..n][..i] == ds[..i];
      AfterPrefix(es, ds, i, w);
    }
  }

  lemma RepresentedPush(vs: seq<Value>, es: seq<Entry>, w: World, n: nat, v: Value, e: Entry)
    requires AllRepresented(vs, es, w) && n <= |es|
    requires match e
             case Node(x) => v == Scalar(Eval(x, After(es, n, w)).0)
             case Tok(Num(m)) => v == Scalar(m)
             case Tok(Mem(a)) => v == Location(a)
             case _ => true
    ensures AllRepresented(vs[..n] + [v], es[..n] + [e], w)
    ensures After(es[..n] + [e], n + 1, w) == if e.Node? then Eval(e.e, After(es, n, w)).1 else After(es, n, w)
  {
    var ds := es[..n] + [e];
    assert ds[..n] == es[..n];
    RepresentedPrefix(vs, es, ds, n, w);
    AfterPrefix(es, ds, n, w);
  }

  // ---------- the semantic actions ----------

  function ScalarOf(v: Value): int {
    if v.Scalar? then v.n else 0
  }

  /** The value and the world after the action of `rule` on the top values `v2`, `v1`, `v0` (`v0` topmost). */
  function Semantics(rule: int, v2: Value, v1: Value, v0: Value, w: World): (Value, World) {
    match rule
    case 2 => (v0, if v2.Location? then Store(w, v2.a, ScalarOf(v0)) else w)
    case 5 => (Scalar(Long(ScalarOf(v2) + ScalarOf(v0))), w)
    case 6 => (Scalar(Long(ScalarOf(v2) - ScalarOf(v0))), w)
    case 7 => (Scalar(Long(ScalarOf(v2) * ScalarOf(v0))), w)
    case 8 =>
      if ScalarOf(v0) == 0 then (v2, w.(messages := w.messages + [DivideByZero]))
      else (Scalar(Long(TruncatedQuotient(ScalarOf(v2), ScalarOf(v0)))), w)
    case 9 => (Scalar(Long(-ScalarOf(v0))), w)
    case 11 => (v1, w)
    case 13 => (if v0.Location? then Scalar(Cell(w, v0.a)) else v0, w)
    case _ => (v0, w)
  }

  function ValueBelow(vs: seq<Value>, k: nat): Value {
    if k < |vs| then vs[|vs| - 1 - k] else Undefined
  }

  /** Evaluating on the fly is evaluating the tree: the action's value and world are those of the
      reduced tree, evaluated where the entries it replaces started. */
  ghost predicate ActionIsEval(rule: int, es: seq<Entry>, vs: seq<Value>, w: World)
    requires |es| == |vs| && 0 < Length(rule) < |es|
  {
    var n, k := |es|, Length(rule);
    var (v, w1) := Semantics(rule, ValueBelow(vs, 2), ValueBelow(vs, 1), ValueBelow(vs, 0), After(es, n, w));
    match Reduced(rule, es)
    case Node(x) => v == Scalar(Eval(x, After(es, n - k, w)).0) && w1 == Eval(x, After(es, n - k, w)).1
    case Tok(Mem(a)) => v == Location(a) && w1 == After(es, n - k, w)
    case _ => false
  }

  lemma ActionOnSymbols(es: seq<Entry>, rule: int, vs: seq<Value>, w: World)
    requires AllRepresented(vs, es, w) && Symbols(es, rule)
    ensures 0 < Length(rule) < |es| && ActionIsEval(rule, es, vs, w)
  {
    var n := |es|;
    assert Represents(vs[n - 1], es, n - 1, w);
    if n > 2 {
      assert Represents(vs[n - 2], es, n - 2, w);
      assert After(es, n - 1, w) ==
             if es[n - 2].Node? then Eval(es[n - 2].e, After(es, n - 2, w)).1 else After(es, n - 2, w);
      if n > 3 {
        assert Represents(vs[n - 3], es, n - 3, w);
        assert After(es, n - 2, w) ==
               if es[n - 3].Node? then Eval(es[n - 3].e, After(es, n - 3, w)).1 else After(es, n - 3, w);
      }
    }
  }

  lemma ActionsEvaluate(ss: seq<int>, es: seq<Entry>, input: seq<Token>, rule: int, vs: seq<Value>, w: World)
    requires Ok(ss, es, input) && AllRepresented(vs, es, w)
    requires Automaton(ss[|ss| - 1], Code(input)) == Reduce(rule)
    ensures 0 < Length(rule) < |es| && ActionIsEval(rule, es, vs, w)
  {
    FindsReduction(ss, es, input, rule);
    ActionOnSymbols(es, rule, vs, w);
  }

  // ---------- the driver ----------

  /** What the driver has printed: the whole input's value, once it is reduced. */
  function Printed(ss: seq<int>, es: seq<Entry>, w: World): seq<int> {
    if 2 <= |ss| == |es| && ss[1] == 35 && es[1].Node? then [ValueAt(es, 1, w)] else []
  }

  lemma StatesInRange(ss: seq<int>, es: seq<Entry>)
    requires Linked(ss, es)
    ensures forall i :: 0 <= i < |ss| ==> 0 <= ss[i] < STATES
  {
    forall i | 0 <= i < |ss|
      ensures 0 <= ss[i] < STATES
    {
      if i > 0 {
        assert Link(ss[i - 1], es[i - 1], ss[i], es[i]);
      }
    }
  }

  lemma NothingFollowsTheEnd(pe: Entry, s: int, e: Entry)
    ensures !Link(36, pe, s, e)
  {
  }

  /** Only the end of the input can follow the whole-input symbol. */
  lemma NothingAbovePrinted(ss: seq<int>, es: seq<Entry>)
    requires Linked(ss, es) && |ss| >= 2 && ss[1] == 35
    ensures |ss| <= 3 && ss[|ss| - 1] in {35, 36}
  {
    if |ss| >= 3 {
      assert Link(ss[1], es[1], ss[2], es[2]);
      if |ss| >= 4 {
        NothingFollowsTheEnd(es[2], ss[3], es[3]);
        assert false;
      }
    }
  }

  lemma AppendOutput(a: seq<int>, b: seq<int>, c: seq<int>)
    ensures a + b + c == a + (b + c)
  {
  }

  lemma InitialStack(input: seq<Token>, w: World)
    ensures Ok([0], [Bottom], input) && Run([0], [Bottom], input) == CmdParser.Parse(input)
    ensures AllRepresented([Undefined], [Bottom], w) && After([Bottom], 1, w) == w && Printed([0], [Bottom], w) == []
  {
  }

  lemma AcceptedResult(ss: seq<int>, es: seq<Entry>, input: seq<Token>, w: World)
    requires Ok(ss, es, input) && Automaton(ss[|ss| - 1], Code(input)) == Accept && |ss| < MAXDEPTH
    ensures var r := Run(ss, es, input);
            r.Accepted? && After(es, |es|, w) == Eval(r.e, w).1 && Printed(ss, es, w) == [Eval(r.e, w).0]
  {
    AcceptingStack(ss, es, input);
    assert After(es, 0, w) == After(es, 1, w) == w;
    assert After(es, 2, w) == Eval(es[1].e, w).1;
  }

  lemma ErrorResult(ss: seq<int>, es: seq<Entry>, input: seq<Token>)
    requires Ok(ss, es, input) && Automaton(ss[|ss| - 1], Code(input)) == Error && |ss| < MAXDEPTH
    ensures Run(ss, es, input) == Syntax(ss, es, input)
  {
  }

  lemma ExhaustedResult(ss: seq<int>, es: seq<Entry>, input: seq<Token>, w: World)
    requires Ok(ss, es, input) && |ss| >= MAXDEPTH
    ensures Run(ss, es, input) == Exhausted(es) && Printed(ss, es, w) == []
  {
    if ss[1] == 35 {
      NothingAbovePrinted(ss, es);
    }
  }

  /** A point of the automaton's run, with the values of its trees. */
  datatype Trace = Trace(ss: seq<int>, es: seq<Entry>, vs: seq<Value>, input: seq<Token>)

  /** The driver's state as a run of the automaton: `world` and `console` have come about from `w` and
      `printed` by evaluating the trees on the stack in order. */
  ghost predicate Evaluates(t: Trace, w: World, printed: seq<int>, world: World, console: seq<int>) {
    Ok(t.ss, t.es, t.input) && |t.ss| == |t.es| == |t.vs| > 0 && AllRepresented(t.vs, t.es, w)
    && world == After(t.es, |t.es|, w) && console == printed + Printed(t.ss, t.es, w)
    && forall i :: 0 <= i < |t.ss| ==> 0 <= t.ss[i] < STATES
  }

  /** A bound on the turns left. */
  ghost function TurnsLeft(t: Trace): int {
    if t.ss == [] then 0 else
    var s := t.ss[|t.ss| - 1];
    (3 * |t.input| + Phase(s)) * 50000 + 4 * |t.ss| + Rank(s)
  }

  /** `t1` is a later point of the same run than `t`. */
  ghost predicate Continues(t: Trace, t1: Trace)
    requires Ok(t.ss, t.es, t.input) && Ok(t1.ss, t1.es, t1.input)
  {
    Run(t.ss, t.es, t.input) == Run(t1.ss, t1.es, t1.input) && TurnsLeft(t1) < TurnsLeft(t)
  }

  ghost function Next(t: Trace): Act
    requires |t.ss| > 0
  {
    Automaton(t.ss[|t.ss| - 1], Code(t.input))
  }

  ghost function AfterShift(t: Trace, s: int, v: Value): Trace {
    Trace(t.ss + [s], t.es + [Shifted(t.input)], t.vs + [v], if t.input == [] then [] else t.input[1..])
  }

  ghost function AfterReduce(t: Trace, rule: int, v: Value): Trace
    requires 0 < Length(rule) < |t.ss| && |t.ss| == |t.es| == |t.vs|
  {
    Trace(ReducedStates(rule, t.ss), ReducedEntries(rule, t.es), t.vs[..|t.vs| - Length(rule)] + [v], t.input)
  }

  lemma ShiftEvaluates(t: Trace, w: World, printed: seq<int>, world: World, console: seq<int>, s: int, v: Value)
    requires Evaluates(t, w, printed, world, console) && |t.ss| < MAXDEPTH
    requires Next(t) == Shift(s) && (t.input != [] ==> v == LexValue(t.input[0]))
    ensures Evaluates(AfterShift(t, s, v), w, printed, world, console) && Continues(t, AfterShift(t, s, v))
  {
    var t1 := AfterShift(t, s, v);
    ShiftKeepsOk(t.ss, t.es, t.input, s);
    StatesInRange(t1.ss, t1.es);
    assert t.vs[..|t.es|] == t.vs && t.es[..|t.es|] == t.es;
    RepresentedPush(t.vs, t.es, w, |t.es|, v, Shifted(t.input));
    if |t.ss| >= 2 {
      assert t1.es[0] == t.es[0] == Bottom;
      assert After(t.es, 1, w) == After(t.es, 0, w);
      assert After(t1.es, 1, w) == After(t1.es, 0, w);
    }
  }

  lemma LhsInRange(ss: seq<int>, es: seq<Entry>, input: seq<Token>, rule: int)
    requires Ok(ss, es, input) && Automaton(ss[|ss| - 1], Code(input)) == Reduce(rule)
    ensures NTBASE <= Lhs(rule) <= 24
  {
    var n := |ss|;
    if n >= 2 {
      assert Link(ss[n - 2], es[n - 2], ss[n - 1], es[n - 1]);
    }
    hide Link, Linked;
    StateOfRule(ss[n - 1], Code(input), rule);
  }

  lemma LinkedIf(ss: seq<int>, es: seq<Entry>, input: seq<Token>)
    requires Ok(ss, es, input)
    ensures Linked(ss, es)
  {
  }

  lemma StepsByReduction(ss: seq<int>, es: seq<Entry>, input: seq<Token>, rule: int)
    requires Ok(ss, es, input) && |ss| < MAXDEPTH && Automaton(ss[|ss| - 1], Code(input)) == Reduce(rule)
    ensures 0 < Length(rule) < |ss| && Ok(ReducedStates(rule, ss), ReducedEntries(rule, es), input)
    ensures Run(ss, es, input) == Run(ReducedStates(rule, ss), ReducedEntries(rule, es), input)
  {
    ReductionKeepsOk(ss, es, input, rule);
    hide Ok, Automaton, ReducedStates, ReducedEntries;
  }

  lemma ReduceContinues(t: Trace, rule: int, v: Value)
    requires Ok(t.ss, t.es, t.input) && |t.ss| == |t.es| == |t.vs| && |t.ss| < MAXDEPTH && Next(t) == Reduce(rule)
    ensures 0 < Length(rule) < |t.ss| && NTBASE <= Lhs(rule) <= 24
    ensures var t1 := AfterReduce(t, rule, v);
            Ok(t1.ss, t1.es, t1.input) && Continues(t, t1) && forall i :: 0 <= i < |t1.ss| ==> 0 <= t1.ss[i] < STATES
  {
    hide Ok, Link, Linked, Automaton, GotoState, Reduced, Lhs, Length, Run, Phase;
    LhsInRange(t.ss, t.es, t.input, rule);
    ReductionKeepsOk(t.ss, t.es, t.input, rule);
    StepsByReduction(t.ss, t.es, t.input, rule);
    LinkedIf(ReducedStates(rule, t.ss), ReducedEntries(rule, t.es), t.input);
    StatesInRange(ReducedStates(rule, t.ss), ReducedEntries(rule, t.es));
  }

  lemma ReduceEvaluates(t: Trace, w: World, printed: seq<int>, world: World, console: seq<int>, rule: int)
    requires Evaluates(t, w, printed, world, console) && |t.ss| < MAXDEPTH && Next(t) == Reduce(rule)
    ensures 0 < Length(rule) < |t.ss| && NTBASE <= Lhs(rule) <= 24 && 0 <= t.ss[|t.ss| - 1 - Length(rule)] < STATES
    ensures var (v, w1) := Semantics(rule, ValueBelow(t.vs, 2), ValueBelow(t.vs, 1), ValueBelow(t.vs, 0), world);
            var t1 := AfterReduce(t, rule, v);
            Evaluates(t1, w, printed, w1, console + Output(rule, ValueBelow(t.vs, 0))) && Continues(t, t1)
  {
    hide Link, Linked, Reduced, Semantics, Output, Automaton, Run, TurnsLeft;
    var (v, w1) := Semantics(rule, ValueBelow(t.vs, 2), ValueBelow(t.vs, 1), ValueBelow(t.vs, 0), world);
    ReduceContinues(t, rule, v);
    ActionsEvaluate(t.ss, t.es, t.input, rule, t.vs, w);
    RepresentedPush(t.vs, t.es, w, |t.ss| - Length(rule), v, Reduced(rule, t.es));
    ReducedOutput(t.ss, t.es, t.input, rule, t.vs, w);
    AppendOutput(printed, Printed(t.ss, t.es, w), Output(rule, ValueBelow(t.vs, 0)));
  }

  /** What the action of `rule` prints. */
  function Output(rule: int, v0: Value): seq<int> {
    if rule == 1 then [ScalarOf(v0)] else []
  }

  lemma ReducedOutput(ss: seq<int>, es: seq<Entry>, input: seq<Token>, rule: int, vs: seq<Value>, w: World)
    requires Ok(ss, es, input) && Automaton(ss[|ss| - 1], Code(input)) == Reduce(rule)
    requires AllRepresented(vs, es, w)
    ensures 0 < Length(rule) < |ss| && NTBASE <= Lhs(rule) <= 24
    ensures Printed(ReducedStates(rule, ss), ReducedEntries(rule, es), w) ==
            Printed(ss, es, w) + Output(rule, ValueBelow(vs, 0))
  {
    ReductionKeepsOk(ss, es, input, rule);
    var n := |ss|;
    assert Link(ss[n - 2], es[n - 2], ss[n - 1], es[n - 1]);
    StateOfRule(ss[n - 1], Code(input), rule);
    if ss[1] == 35 {
      NothingAbovePrinted(ss, es);
    }
    if rule == 1 {
      assert n == 2;
      assert Represents(vs[1], es, 1, w);
      assert After(es, 1, w) == w == After(ReducedEntries(rule, es), 1, w);
    }
  }

  /** The tokens still to be consumed: those not read yet, after the lookahead if there is one. */
  ghost predicate Remaining(input: seq<Token>, tokens: seq<Token>, pos: nat, yychar: int, yylval: Value) {
    pos <= |tokens| &&
    if yychar == EMPTY then input == tokens[pos..]
    else
      && yychar == Code(input)
      && if yychar == 0 then input == [] && pos == |tokens|
         else pos > 0 && input == tokens[pos - 1..] && yylval == LexValue(input[0])
  }

  function LexValue(t: Token): Value {
    match t
    case Num(n) => Scalar(n)
    case Mem(a) => Location(a)
    case _ => Undefined
  }

  /** A shift takes the lookahead; the end of the input stays where it is. */
  lemma RemainingAfterShift(input: seq<Token>, tokens: seq<Token>, pos: nat, yychar: int, yylval: Value)
    requires Remaining(input, tokens, pos, yychar, yylval) && yychar != EMPTY
    ensures input != [] ==> yylval == LexValue(input[0])
    ensures Remaining(if input == [] then [] else input[1..], tokens, pos, if yychar != 0 then EMPTY else 0, yylval)
  {
  }

  lemma InitialTrace(text: seq<Token>, w: World, printed: seq<int>, v: Value)
    ensures Evaluates(Trace([0], [Bottom], [Undefined], text), w, printed, w, printed)
    ensures Remaining(text, text, 0, EMPTY, v)
  {
    InitialStack(text, w);
    hide Run, Code, After, Printed, AllRepresented, Linked, Ok;
    assert printed + [] == printed;
  }

  class Parser {
    var world: World
    var console: seq<int>
    var yyss: array<int>
    var yyvs: array<Value>
    var yyssp: int
    var yystate: int
    var tokens: seq<Token>
    var pos: nat
    var yychar: int
    var yylval: Value

    constructor (cells: map<int, int>)
      ensures world == World(cells, []) && console == []
    {
      world := World(cells, []);
      console := [];
      yyss, yyvs := new int[INITDEPTH], new Value[INITDEPTH];
      yyssp, yystate, yychar, yylval := -1, 0, EMPTY, Undefined;
      tokens, pos := [], 0;
    }

    /** The stacks hold `t`, except that the top state is still to be pushed. */
    ghost predicate Pending(t: Trace)
      reads this, yyss, yyvs
    {
      |t.ss| == |t.vs| == yyssp + 2 && 0 <= yyssp + 1 < yyss.Length == yyvs.Length <= MAXDEPTH
      && yyss[..yyssp + 1] == t.ss[..yyssp + 1] && yystate == t.ss[yyssp + 1] && yyvs[..yyssp + 2] == t.vs
    }

    /** The stacks hold `t`, and there is room for one more level. */
    ghost predicate Settled(t: Trace)
      reads this, yyss, yyvs
    {
      |t.ss| == |t.vs| == yyssp + 1 && 0 < yyssp + 1 < yyss.Length == yyvs.Length <= MAXDEPTH
      && yyss[..yyssp + 1] == t.ss && yystate == t.ss[yyssp] && yyvs[..yyssp + 1] == t.vs
    }

    /** The point `t` of the automaton's run is where the driver is, having started with `w` and `printed`. */
    ghost predicate Follows(t: Trace, w: World, printed: seq<int>)
      reads this
    {
      Evaluates(t, w, printed, world, console) && Remaining(t.input, tokens, pos, yychar, yylval)
    }

    /** Pushes the pending state. A full stack is reallocated at twice its size, up to the limit. */
    method PushState(ghost t: Trace) returns (ok: bool)
      requires Pending(t)
      modifies `yyssp, `yyss, `yyvs, yyss
      ensures ok == (|t.ss| < MAXDEPTH)
      ensures ok ==> Settled(t)
      ensures (yyss == old(yyss) || fresh(yyss)) && (yyvs == old(yyvs) || fresh(yyvs))
    {
      yyssp := yyssp + 1;
      yyss[yyssp] := yystate;
      assert yyss[..yyssp + 1] == yyss[..yyssp] + [yystate] == t.ss;
      if yyssp >= yyss.Length - 1 {
        if yyss.Length >= MAXDEPTH {
          return false;
        }
        var yystacksize := yyss.Length * 2;
        if yystacksize > MAXDEPTH {
          yystacksize := MAXDEPTH;
        }
        yyss := Enlarged(yyss, yystacksize, 0);
        yyvs := Enlarged(yyvs, yystacksize, Undefined);
        assert yyss[..yyssp + 1] == t.ss && yyvs[..yyssp + 1] == t.vs;
      }
      return true;
    }

    method Enlarged<T>(a: array<T>, size: nat, filler: T) returns (b: array<T>)
      requires a.Length <= size
      ensures fresh(b) && b.Length == size && forall i :: 0 <= i < a.Length ==> b[i] == a[i]
    {
      b := new T[size](i requires 0 <= i reads a => if i < a.Length then a[i] else filler);
    }

    /** Looks the action up, reading the lookahead only in a state that depends on it. */
    method NextAction(ghost input: seq<Token>) returns (act: Act)
      requires Remaining(input, tokens, pos, yychar, yylval) && 0 <= yystate < STATES
      modifies `pos, `yychar, `yylval
      ensures act == Automaton(yystate, Code(input))
      ensures Remaining(input, tokens, pos, yychar, yylval)
      ensures act.Shift? ==> yychar != EMPTY
    {
      TablesEncodeAutomaton(yystate, Code(input));
      if Pact(yystate) == FLAG {
        return Default(yystate);
      }
      if yychar == EMPTY {
        if pos < |tokens| {
          yychar, yylval := Code(tokens[pos..]), LexValue(tokens[pos]);
          pos := pos + 1;
        } else {
          yychar := 0;
        }
      }
      return Action(yystate, yychar);
    }

    /** Pushes the pending state and, unless the stack is full, finds the next action. */
    method Advance(ghost t: Trace, ghost w: World, ghost printed: seq<int>) returns (ok: bool, act: Act)
      requires Pending(t) && Follows(t, w, printed)
      modifies `yyssp, `yyss, `yyvs, `pos, `yychar, `yylval, yyss
      ensures (yyss == old(yyss) || fresh(yyss)) && (yyvs == old(yyvs) || fresh(yyvs))
      ensures Follows(t, w, printed) && ok == (|t.ss| < MAXDEPTH)
      ensures ok ==> Settled(t) && act == Next(t) && (act.Shift? ==> yychar != EMPTY)
    {
      assert |t.ss| > 0 && 0 <= yystate < STATES;
      hide Evaluates, Remaining, Automaton, Code, Ok;
      ok := PushState(t);
      act := NextAction(t.input);
    }

    method Shift(s: int, ghost t: Trace, ghost w: World, ghost printed: seq<int>) returns (ghost t1: Trace)
      requires Settled(t) && Follows(t, w, printed) && |t.ss| < MAXDEPTH
      requires Next(t) == Act.Shift(s) && yychar != EMPTY
      modifies `yystate, `yychar, yyvs
      ensures Pending(t1) && Follows(t1, w, printed) && Continues(t, t1)
    {
      hide Evaluates, Continues, Next, LexValue, Remaining, Shifted;
      RemainingAfterShift(t.input, tokens, pos, yychar, yylval);
      ShiftEvaluates(t, w, printed, world, console, s, yylval);
      if yychar != 0 {
        yychar := EMPTY;
      }
      yyvs[yyssp + 1] := yylval;
      yystate := s;
      assert yyvs[..yyssp + 1] == t.vs;
      t1 := AfterShift(t, s, yylval);
    }

    /** The switch over rule numbers; each case starts from the value of the rule's first symbol. */
    method SemanticAction(rule: int, v2: Value, v1: Value, v0: Value) returns (yyval: Value)
      modifies `world, `console
      ensures (yyval, world) == Semantics(rule, v2, v1, v0, old(world))
      ensures console == old(console) + Output(rule, v0)
    {
      yyval := match Length(rule) case 1 => v0 case 2 => v1 case _ => v2;
      match rule
      case 1 =>
        console := console + [ScalarOf(v0)];
      case 2 =>
        if v2.Location? {
          world := Store(world, v2.a, ScalarOf(v0));
        }
        yyval := v0;
      case 5 => yyval := Scalar(Long(ScalarOf(v2) + ScalarOf(v0)));
      case 6 => yyval := Scalar(Long(ScalarOf(v2) - ScalarOf(v0)));
      case 7 => yyval := Scalar(Long(ScalarOf(v2) * ScalarOf(v0)));
      case 8 =>
        if ScalarOf(v0) == 0 {
          world := world.(messages := world.messages + [DivideByZero]);
        } else {
          yyval := Scalar(Long(TruncatedQuotient(ScalarOf(v2), ScalarOf(v0))));
        }
      case 9 => yyval := Scalar(Long(-ScalarOf(v0)));
      case 11 => yyval := v1;
      case 13 =>
        if v0.Location? {
          yyval := Scalar(Cell(world, v0.a));
        }
      case _ => yyval := v0;
    }

    /** Pops the right-hand side of `rule` and pushes its value, with the goto state pending. */
    method PushResult(rule: int, yyval: Value, ghost t: Trace)
      requires Settled(t) && |t.es| == |t.ss| && 0 < Length(rule) < |t.ss|
      requires NTBASE <= Lhs(rule) <= 24 && 0 <= t.ss[|t.ss| - 1 - Length(rule)] < STATES
      modifies `yyssp, `yystate, yyvs
      ensures Pending(AfterReduce(t, rule, yyval))
    {
      hide Reduced, Lhs, Length, Goto, GotoState;
      yyssp := yyssp - Length(rule);
      assert yyvs[..yyssp + 1] == t.vs[..yyssp + 1] && yyss[..yyssp + 1] == t.ss[..yyssp + 1]
             && yyss[yyssp] == t.ss[yyssp];
      yyvs[yyssp + 1] := yyval;
      assert yyvs[..yyssp + 2] == yyvs[..yyssp + 1] + [yyval];
      yystate := Goto(Lhs(rule), yyss[yyssp]);
      TablesEncodeGotos(Lhs(rule), yyss[yyssp]);
    }

    method PopAndPush(rule: int, ghost t: Trace) returns (yyval: Value)
      requires Settled(t) && |t.es| == |t.ss| && 0 < Length(rule) < |t.ss|
      requires NTBASE <= Lhs(rule) <= 24 && 0 <= t.ss[|t.ss| - 1 - Length(rule)] < STATES
      modifies `world, `console, `yyssp, `yystate, yyvs
      ensures (yyval, world) ==
              Semantics(rule, ValueBelow(t.vs, 2), ValueBelow(t.vs, 1), ValueBelow(t.vs, 0), old(world))
      ensures console == old(console) + Output(rule, ValueBelow(t.vs, 0))
      ensures Pending(AfterReduce(t, rule, yyval))
    {
      hide Semantics, Output, AfterReduce, Lhs, Length;
      assert forall i :: 0 <= i <= yyssp ==> yyvs[i] == t.vs[i];
      var v2 := if yyssp >= 2 then yyvs[yyssp - 2] else Undefined;
      yyval := SemanticAction(rule, v2, yyvs[yyssp - 1], yyvs[yyssp]);
      PushResult(rule, yyval, t);
    }

    method Reduce(rule: int, ghost t: Trace, ghost w: World, ghost printed: seq<int>) returns (ghost t1: Trace)
      requires Settled(t) && Follows(t, w, printed) && |t.ss| < MAXDEPTH && Next(t) == Act.Reduce(rule)
      modifies `world, `console, `yyssp, `yystate, yyvs
      ensures Pending(t1) && Follows(t1, w, printed) && Continues(t, t1)
    {
      ReduceEvaluates(t, w, printed, world, console, rule);
      assert |t.es| == |t.ss|;
      hide Evaluates, Continues, Next, Semantics, Output;
      var yyval := PopAndPush(rule, t);
      t1 := AfterReduce(t, rule, yyval);
    }

    /** Error recovery: pops states until one can shift the error token. None can. */
    method Recover(ghost t: Trace)
      requires Settled(t) && forall i :: 0 <= i < |t.ss| ==> 0 <= t.ss[i] < STATES
      modifies `world, `yyssp, `yystate
      ensures world == old(world).(messages := old(world).messages + [ParseError])
    {
      world := world.(messages := world.messages + [ParseError]);
      assert forall i :: 0 <= i <= yyssp ==> yyss[i] == t.ss[i];
      var yyn := Pact(yystate);
      ErrorTokenNeverShifted(yystate);
      while yyssp > 0 && (yyn == FLAG || yyn + 1 < 0 || yyn + 1 > LAST || Check(yyn + 1) != 1)
        invariant 0 <= yyssp <= old(yyssp)
        invariant yyn == FLAG || yyn + 1 < 0 || yyn + 1 > LAST || Check(yyn + 1) != 1
        modifies `yyssp, `yystate
      {
        yyssp := yyssp - 1;
        yystate := yyss[yyssp];
        yyn := Pact(yystate);
        ErrorTokenNeverShifted(yystate);
      }
      assert yyssp == 0;
    }

    /** What a call must leave behind, given the automaton's result on its input and the world and the
        output at the start. Result 0 is acceptance, 1 a syntax error, 2 an exhausted stack. */
    ghost predicate Outcome(code: int, r: Result, w: World, printed: seq<int>)
      reads this
    {
      match r
      case Accepted(e) =>
        code == 0 && world == Eval(e, w).1 && console == printed + [Eval(e, w).0]
      case Syntax(ss, es, _) =>
        var w1 := After(es, |es|, w);
        code == 1 && world == w1.(messages := w1.messages + [ParseError]) && console == printed + Printed(ss, es, w)
      case Exhausted(es) =>
        var w1 := After(es, |es|, w);
        code == 2 && world == w1.(messages := w1.messages + [StackOverflow]) && console == printed
    }

    method Overflow(ghost t: Trace, ghost w: World, ghost printed: seq<int>) returns (code: int)
      requires Follows(t, w, printed) && |t.ss| >= MAXDEPTH
      modifies `world
      ensures Outcome(code, Run(t.ss, t.es, t.input), w, printed)
    {
      ExhaustedResult(t.ss, t.es, t.input, w);
      world := world.(messages := world.messages + [StackOverflow]);
      return 2;
    }

    method Fail(ghost t: Trace, ghost w: World, ghost printed: seq<int>) returns (code: int)
      requires Settled(t) && Follows(t, w, printed) && |t.ss| < MAXDEPTH && Next(t) == Error
      modifies `world, `yyssp, `yystate
      ensures Outcome(code, Run(t.ss, t.es, t.input), w, printed)
    {
      ErrorResult(t.ss, t.es, t.input);
      Recover(t);
      return 1;
    }

    lemma Succeed(t: Trace, w: World, printed: seq<int>)
      requires Follows(t, w, printed) && |t.ss| < MAXDEPTH && Next(t) == Accept
      ensures Outcome(0, Run(t.ss, t.es, t.input), w, printed)
    {
      AcceptedResult(t.ss, t.es, t.input, w);
    }

    method Initialise(text: seq<Token>)
      modifies this
      ensures fresh(yyss) && fresh(yyvs)
      ensures var t := Trace([0], [Bottom], [Undefined], text); Pending(t) && Follows(t, old(world), old(console))
    {
      hide Evaluates, Remaining;
      yyss, yyvs := new int[INITDEPTH], new Value[INITDEPTH];
      yyvs[0] := Undefined;
      yyssp, yystate, yychar, yylval := -1, 0, EMPTY, Undefined;
      tokens, pos := text, 0;
      InitialTrace(text, world, console, yylval);
    }

    /** One turn of the driver's loop. */
    method Step(ghost t: Trace, ghost w: World, ghost printed: seq<int>)
      returns (done: bool, code: int, ghost t1: Trace)
      requires Pending(t) && Follows(t, w, printed)
      modifies this, yyss, yyvs
      ensures (yyss == old(yyss) || fresh(yyss)) && (yyvs == old(yyvs) || fresh(yyvs))
      ensures done ==> Outcome(code, Run(t.ss, t.es, t.input), w, printed)
      ensures !done ==> Pending(t1) && Follows(t1, w, printed) && Continues(t, t1)
    {
      assert |t.ss| > 0 && |t.ss| == |t.es|;
      hide Evaluates, Remaining, Run, Automaton, Code, Ok;
      var ok, act := Advance(t, w, printed);
      done, code, t1 := true, 0, t;
      if !ok {
        code := Overflow(t, w, printed);
        return;
      }
      match act
      case Accept => Succeed(t, w, printed);
      case Error => code := Fail(t, w, printed);
      case Shift(s) =>
        t1 := Shift(s, t, w, printed);
        done := false;
      case Reduce(r) =>
        t1 := Reduce(r, t, w, printed);
        done := false;
    }

    method Parse(text: seq<Token>) returns (code: int)
      modifies this
      ensures Outcome(code, CmdParser.Parse(text), old(world), old(console))
    {
      ghost var w, printed := world, console;
      ghost var t := Trace([0], [Bottom], [Undefined], text);
      Initialise(text);
      ghost var r := CmdParser.Parse(text);
      var done := false;
      code := 0;
      while !done
        invariant fresh(yyss) && fresh(yyvs)
        invariant if done then Outcome(code, r, w, printed)
                  else Pending(t) && Follows(t, w, printed) && Run(t.ss, t.es, t.input) == r
        decreases !done, TurnsLeft(t)
      {
        done, code, t := Step(t, w, printed);
      }
    }
  }
}
