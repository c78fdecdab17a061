/** Which assignments a rejected input still performs. */
module CmdAssigned {
  import opened CmdTables
  import opened CmdExpr
  import opened CmdParser
  import opened CmdDriver
  import opened CmdRejected

  // ---------- finished right-hand sides ----------

  /** No operator at the start of `tail` goes on with `x`, and no '=' turns its last cell into a target. */
  predicate Closes(x: Expr, tail: seq<Token>) {
    !(3 <= Code(tail) <= 6) && (EndsInCell(x) ==> Code(tail) != 7)
  }

  /** The text of `x` stands at position `q` and is finished there. */
  predicate Ends(input: seq<Token>, q: nat, x: Expr) {
    Grouped(x) && q + |Yield(x)| <= |input| && input[q..q + |Yield(x)|] == Yield(x)
    && Closes(x, input[q + |Yield(x)|..])
  }

  /** The right-hand side that starts at position `q` is finished. */
  ghost predicate Complete(input: seq<Token>, q: nat) {
    exists x :: Ends(input, q, x)
  }

  lemma EndsAt(pre: seq<Token>, x: Expr, tail: seq<Token>)
    requires Grouped(x) && Closes(x, tail)
    ensures Ends(pre + (Yield(x) + tail), |pre|, x)
  {
    var input := pre + (Yield(x) + tail);
    assert input[|pre|..|pre| + |Yield(x)|] == Yield(x) && input[|pre| + |Yield(x)|..] == tail;
  }

  lemma EndsLater(pre: seq<Token>, input: seq<Token>, q: nat, x: Expr)
    requires Ends(input, q, x)
    ensures Ends(pre + input, |pre| + q, x)
  {
    var m := q + |Yield(x)|;
    assert (pre + input)[|pre| + q..|pre| + m] == input[q..m] && (pre + input)[|pre| + m..] == input[m..];
  }

  lemma TextOfBin(op: Op, l: Expr, r: Expr, tail: seq<Token>)
    ensures Yield(Bin(op, l, r)) + tail == Yield(l) + ([Operator(op)] + (Yield(r) + tail))
    ensures Yield(Bin(op, l, r)) + tail == (Yield(l) + [Operator(op)]) + (Yield(r) + tail)
  {
    Associate(Yield(l) + [Operator(op)], Yield(r), tail);
    Associate(Yield(l), [Operator(op)], Yield(r) + tail);
  }

  lemma TokenOfBin(op: Op, l: Expr, r: Expr, q: nat)
    requires q < |Yield(Bin(op, l, r))| && Yield(Bin(op, l, r))[q] == Equal
    ensures var k := |Yield(l)|;
            if q < k then Yield(l)[q] == Equal else k < q && q - k - 1 < |Yield(r)| && Yield(r)[q - k - 1] == Equal
  {
  }

  lemma PartsOfBin(e: Expr, tail: seq<Token>)
    requires e.Bin? && Grouped(e)
    ensures Grouped(e.l) && Grouped(e.r) && !Open(e.l) && Open(e) == Open(e.r) && EndsInCell(e) == EndsInCell(e.r)
    ensures 3 <= Code([Operator(e.op)] + tail) <= 6
  {
  }

  lemma {:induction false} BinIsComplete(e: Expr, q: nat, tail: seq<Token>) returns (x: Expr)
    requires e.Bin? && Grouped(e) && q < |Yield(e)| && Yield(e)[q] == Equal
    requires (Open(e) ==> !(3 <= Code(tail) <= 6)) && (EndsInCell(e) ==> Code(tail) != 7)
    ensures Ends(Yield(e) + tail, q + 1, x)
    decreases e, 0
  {
    hide *;
    var tail1 := [Operator(e.op)] + (Yield(e.r) + tail);
    PartsOfBin(e, Yield(e.r) + tail);
    TextOfBin(e.op, e.l, e.r, tail);
    TokenOfBin(e.op, e.l, e.r, q);
    if q < |Yield(e.l)| {
      x := TreeIsComplete(e.l, q, tail1);
    } else {
      var pre := Yield(e.l) + [Operator(e.op)];
      x := TreeIsComplete(e.r, q - |pre|, tail);
      EndsLater(pre, Yield(e.r) + tail, q + 1 - |pre|, x);
    }
  }

  /** Inside the text of a tree every '=' has a finished right-hand side. */
  lemma {:induction false} TreeIsComplete(e: Expr, q: nat, tail: seq<Token>) returns (x: Expr)
    requires Grouped(e) && q < |Yield(e)| && Yield(e)[q] == Equal
    requires (Open(e) ==> !(3 <= Code(tail) <= 6)) && (EndsInCell(e) ==> Code(tail) != 7)
    ensures Ends(Yield(e) + tail, q + 1, x)
    decreases e, 1
  {
    hide Ends, Closes;
    match e
    case Assign(a, y) =>
      var pre := [Mem(a), Equal];
      assert Yield(e) + tail == pre + (Yield(y) + tail);
      if q == 1 {
        x := y;
        ClosesIf(y, tail);
        EndsAt(pre, y, tail);
      } else {
        x := TreeIsComplete(y, q - 2, tail);
        EndsLater(pre, Yield(y) + tail, q - 1, x);
      }
    case Neg(y) =>
      assert Yield(e) + tail == [MINUS] + (Yield(y) + tail);
      x := TreeIsComplete(y, q - 1, tail);
      EndsLater([MINUS], Yield(y) + tail, q, x);
    case Paren(y) =>
      var tail1 := [RightParen] + tail;
      assert Yield(e) + tail == [LeftParen] + (Yield(y) + tail1);
      x := TreeIsComplete(y, q - 1, tail1);
      EndsLater([LeftParen], Yield(y) + tail1, q, x);
    case Bin(op, l, r) =>
      x := BinIsComplete(e, q, tail);
    case _ =>
  }

  lemma ClosesIf(x: Expr, tail: seq<Token>)
    requires !(3 <= Code(tail) <= 6) && (EndsInCell(x) ==> Code(tail) != 7)
    ensures Closes(x, tail)
  {
  }

  // ---------- positions on the stack ----------

  lemma {:induction false} TextGrows(es: seq<Entry>, i: nat, j: nat)
    requires i <= j <= |es|
    ensures Text(es, i) <= Text(es, j)
  {
    if i < j {
      TextGrows(es, i, j - 1);
    }
  }

  /** Position `p` of the consumed text belongs to level `i`. */
  predicate At(es: seq<Entry>, i: nat, p: nat) {
    i < |es| && |Text(es, i)| <= p < |Text(es, i + 1)|
  }

  lemma {:induction false} Locate(es: seq<Entry>, n: nat, p: nat) returns (i: nat)
    requires n <= |es| && p < |Text(es, n)|
    ensures At(es, i, p) && i < n
  {
    if p < |Text(es, n - 1)| {
      i := Locate(es, n - 1, p);
    } else {
      i := n - 1;
    }
  }

  lemma OneLevel(es: seq<Entry>, i: nat, j: nat, p: nat)
    requires At(es, i, p) && At(es, j, p)
    ensures i == j
  {
    if i < j {
      TextGrows(es, i + 1, j);
    } else if j < i {
      TextGrows(es, j + 1, i);
    }
  }

  lemma TextStep(es: seq<Entry>, i: nat)
    requires i < |es|
    ensures Text(es, i + 1) == Text(es, i) + TextOf(es[i]) && Text(es, i + 1) <= Text(es, |es|)
  {
    TextGrows(es, i + 1, |es|);
  }

  lemma PrefixAt(a: seq<Token>, b: seq<Token>, all: seq<Token>, p: nat)
    requires a + b <= all && |a| <= p < |a| + |b|
    ensures p < |all| && all[p] == b[p - |a|]
  {
    assert (a + b)[p] == b[p - |a|];
  }

  /** The token at position `p` is the one of its level's text. */
  lemma TokenAt(es: seq<Entry>, i: nat, p: nat)
    requires At(es, i, p)
    ensures |Text(es, i)| <= p < |Text(es, i)| + |TextOf(es[i])| && p < |Text(es, |es|)|
    ensures Text(es, |es|)[p] == TextOf(es[i])[p - |Text(es, i)|]
  {
    hide Text, TextOf;
    TextStep(es, i);
    PrefixAt(Text(es, i), TextOf(es[i]), Text(es, |es|), p);
  }

  /** A finished tree on the stack covers position `p`. */
  ghost predicate Covered(es: seq<Entry>, p: nat) {
    exists i: nat :: At(es, i, p) && es[i].Node?
  }

  // ---------- performed means finished ----------

  /** The tokens after level `i`. */
  function Tail(es: seq<Entry>, i: nat, rest: seq<Token>): seq<Token>
    requires i < |es|
  {
    TextGrows(es, i + 1, |es|);
    (Text(es, |es|) + rest)[|Text(es, i + 1)|..]
  }

  lemma AfterTop(es: seq<Entry>, rest: seq<Token>)
    requires |es| > 0
    ensures Tail(es, |es| - 1, rest) == rest
  {
  }

  lemma AfterStartsWith(es: seq<Entry>, i: nat, rest: seq<Token>, t: Token)
    requires i + 1 < |es| && es[i + 1] == Tok(t)
    ensures var tail := Tail(es, i, rest); tail != [] && tail[0] == t
  {
    TextGrows(es, i + 1, |es|);
    TextGrows(es, i + 2, |es|);
    assert Text(es, i + 2) == Text(es, i + 1) + [t];
  }

  lemma Regroup(a: seq<Token>, b: seq<Token>, all: seq<Token>, rest: seq<Token>)
    requires a + b <= all
    ensures all + rest == a + (b + (all + rest)[|a + b|..])
  {
  }

  lemma SplitAround(es: seq<Entry>, i: nat, rest: seq<Token>)
    requires i < |es|
    ensures Text(es, |es|) + rest == Text(es, i) + (TextOf(es[i]) + Tail(es, i, rest))
  {
    hide Text, TextOf;
    TextStep(es, i);
    Regroup(Text(es, i), TextOf(es[i]), Text(es, |es|), rest);
  }

  /** What may stand above a tree. */
  lemma AboveTree(r: int, re: Entry, p: int, x: Expr, s: int, e: Entry)
    requires Link(r, re, p, Node(x)) && Link(p, Node(x), s, e)
    ensures s == 36 || e == Tok(RightParen) || (e.Tok? && e.t.Operator? && !Open(x))
  {
  }

  /** A tree on the stack is followed by something that does not go on with it. */
  lemma TreeEnds(ss: seq<int>, es: seq<Entry>, rest: seq<Token>, i: nat)
    requires Ok(ss, es, rest) && i < |es| && es[i].Node?
    ensures var t := Code(Tail(es, i, rest)); (Open(es[i].e) ==> !(3 <= t <= 6)) && (EndsInCell(es[i].e) ==> t != 7)
  {
    hide Link, Text, Tail;
    if i == |es| - 1 {
      AfterTop(es, rest);
    } else {
      assert Link(ss[i], es[i], ss[i + 1], es[i + 1]);
      assert Link(ss[i - 1], es[i - 1], ss[i], es[i]);
      AboveTree(ss[i - 1], es[i - 1], ss[i], es[i].e, ss[i + 1], es[i + 1]);
      if ss[i + 1] == 36 {
        EndIsLast(ss, es, rest, i + 1);
      } else {
        AfterStartsWith(es, i, rest, es[i + 1].t);
      }
    }
  }

  lemma EndIsLast(ss: seq<int>, es: seq<Entry>, rest: seq<Token>, i: nat)
    requires Ok(ss, es, rest) && 1 <= i < |es| && ss[i] == 36
    ensures Tail(es, i - 1, rest) == []
  {
    assert Link(ss[i - 1], es[i - 1], ss[i], es[i]);
    if i + 1 < |ss| {
      assert Link(ss[i], es[i], ss[i + 1], es[i + 1]);
      NothingFollowsTheEnd(es[i], ss[i + 1], es[i + 1]);
      assert false;
    }
  }

  lemma TextOfNode(e: Entry)
    requires e.Node?
    ensures TextOf(e) == Yield(e.e)
  {
  }

  lemma GroupedOnStack(ss: seq<int>, es: seq<Entry>, rest: seq<Token>, i: nat)
    requires Ok(ss, es, rest) && i < |es| && es[i].Node?
    ensures Grouped(es[i].e)
  {
    assert Link(ss[i - 1], es[i - 1], ss[i], es[i]);
  }

  lemma CoveredIsComplete(ss: seq<int>, es: seq<Entry>, rest: seq<Token>, i: nat, p: nat)
    requires Ok(ss, es, rest) && i < |es| && At(es, i, p) && es[i].Node? && p < |Text(es, |es|)|
    requires Text(es, |es|)[p] == Equal
    ensures Complete(Text(es, |es|) + rest, p + 1)
  {
    hide *;
    var e, pre, tail := es[i].e, Text(es, i), Tail(es, i, rest);
    TextOfNode(es[i]);
    TokenAt(es, i, p);
    GroupedOnStack(ss, es, rest, i);
    TreeEnds(ss, es, rest, i);
    SplitAround(es, i, rest);
    LaterIsComplete(pre, e, p, tail);
  }

  lemma LaterIsComplete(pre: seq<Token>, e: Expr, p: nat, tail: seq<Token>)
    requires Grouped(e) && |pre| <= p < |pre| + |Yield(e)| && Yield(e)[p - |pre|] == Equal
    requires (Open(e) ==> !(3 <= Code(tail) <= 6)) && (EndsInCell(e) ==> Code(tail) != 7)
    ensures Complete(pre + (Yield(e) + tail), p + 1)
  {
    hide Grouped, Yield, Ends, Open, EndsInCell, Code;
    var x := TreeIsComplete(e, p - |pre|, tail);
    EndsLater(pre, Yield(e) + tail, p + 1 - |pre|, x);
  }

  // ---------- finished means performed ----------

  lemma AtLower(es: seq<Entry>, ds: seq<Entry>, n: nat, i: nat, p: nat)
    requires n <= |es| && n <= |ds| && es[..n] == ds[..n] && i < n && At(es, i, p)
    ensures At(ds, i, p) && ds[i] == es[i]
  {
    hide Text;
    assert es[..n][i] == ds[..n][i];
    assert es[..i] == es[..n][..i] == ds[..i] && es[..i + 1] == es[..n][..i + 1] == ds[..i + 1];
    TextOfPrefix(es, ds, i);
    TextOfPrefix(es, ds, i + 1);
  }

  lemma ShiftCovers(es: seq<Entry>, e: Entry, p: nat)
    requires Covered(es, p)
    ensures Covered(es + [e], p)
  {
    var i: nat :| At(es, i, p) && es[i].Node?;
    assert (es + [e])[..|es|] == es == es[..|es|];
    AtLower(es, es + [e], |es|, i, p);
  }

  lemma TreeReplacesTree(es: seq<Entry>, rule: int, i: nat)
    requires Symbols(es, rule) && |es| - Length(rule) <= i < |es| && es[i].Node?
    ensures Reduced(rule, es).Node?
  {
  }

  /** What a reduction takes from the stack, its tree covers. */
  lemma ReductionCovers(es: seq<Entry>, rule: int, p: nat)
    requires Covered(es, p) && Symbols(es, rule)
    requires 0 < Length(rule) < |es| && Text(ReducedEntries(rule, es), |es| + 1 - Length(rule)) == Text(es, |es|)
    ensures Covered(ReducedEntries(rule, es), p)
  {
    hide Symbols, Reduced, Text, Length;
    var i: nat :| At(es, i, p) && es[i].Node?;
    var low := |es| - Length(rule);
    var ds := ReducedEntries(rule, es);
    assert ds[..low] == es[..low] && |ds| == low + 1 && ds[low] == Reduced(rule, es);
    if i < low {
      AtLower(es, ds, low, i, p);
    } else {
      TreeReplacesTree(es, rule, i);
      TextGrows(es, low, i);
      TextGrows(es, i + 1, |es|);
      TextOfPrefix(es, ds, low);
      assert At(ds, low, p);
    }
  }

  lemma {:induction false} CoveredStays(ss: seq<int>, es: seq<Entry>, input: seq<Token>, p: nat)
    requires Ok(ss, es, input) && |ss| == |es| > 0 && Run(ss, es, input).Syntax? && Covered(es, p)
    ensures Covered(Run(ss, es, input).es, p)
    decreases |input|, Phase(ss[|ss| - 1]), 4 * |ss| + Rank(ss[|ss| - 1])
  {
    hide *;
    NotFull(ss, es, input);
    StepOfRun(ss, es, input);
    match Automaton(ss[|ss| - 1], Code(input))
    case Error =>
    case Shift(s) =>
      ShiftCovers(es, Shifted(input), p);
      CoveredStays(ss + [s], es + [Shifted(input)], if input == [] then [] else input[1..], p);
    case Reduce(r) =>
      FindsReduction(ss, es, input, r);
      TextBeforeReduce(ss, es, input, r);
      ReductionCovers(es, r, p);
      CoveredStays(ReducedStates(r, ss), ReducedEntries(r, es), input, p);
  }

  /** The run had the lowest `i + 1` levels as its whole stack when it consumed the token of level `i`. */
  ghost predicate Began(ss: seq<int>, es: seq<Entry>, all: seq<Token>, r: Result, i: nat)
    requires i < |ss| == |es|
  {
    var q := |Text(es, i + 1)|;
    q <= |all| && Ok(ss[..i + 1], es[..i + 1], all[q..]) && Run(ss[..i + 1], es[..i + 1], all[q..]) == r
  }

  ghost predicate Recorded(ss: seq<int>, es: seq<Entry>, all: seq<Token>, r: Result) {
    |ss| == |es| && forall i: nat :: i < |es| && es[i] == Tok(Equal) ==> Began(ss, es, all, r, i)
  }

  lemma BeganLower(ss: seq<int>, es: seq<Entry>, ts: seq<int>, ds: seq<Entry>, n: nat,
                   all: seq<Token>, r: Result, i: nat)
    requires |ss| == |es| && |ts| == |ds| && n <= |ss| && n <= |ts| && ss[..n] == ts[..n] && es[..n] == ds[..n] && i < n
    requires Began(ss, es, all, r, i)
    ensures Began(ts, ds, all, r, i)
  {
    hide Ok, Run, Text;
    assert es[..i + 1] == es[..n][..i + 1] == ds[..i + 1] && ss[..i + 1] == ss[..n][..i + 1] == ts[..i + 1];
    TextOfPrefix(es, ds, i + 1);
  }

  lemma RecordedLower(ss: seq<int>, es: seq<Entry>, n: nat, s: int, e: Entry, all: seq<Token>, r: Result)
    requires Recorded(ss, es, all, r) && n <= |ss|
    requires e == Tok(Equal) ==> Began(ss[..n] + [s], es[..n] + [e], all, r, n)
    ensures Recorded(ss[..n] + [s], es[..n] + [e], all, r)
  {
    hide Began;
    var ts, ds := ss[..n] + [s], es[..n] + [e];
    forall i: nat | i < n && ds[i] == Tok(Equal)
      ensures Began(ts, ds, all, r, i)
    {
      assert ss[..n] == ts[..n] && es[..n] == ds[..n] && es[i] == ds[i];
      BeganLower(ss, es, ts, ds, n, all, r, i);
    }
  }

  lemma ShiftRecords(ss: seq<int>, es: seq<Entry>, input: seq<Token>, all: seq<Token>, r: Result, s: int)
    requires |ss| == |es| && Recorded(ss, es, all, r) && Text(es, |es|) + input == all
    requires var input1 := if input == [] then [] else input[1..];
             Ok(ss + [s], es + [Shifted(input)], input1) && Run(ss + [s], es + [Shifted(input)], input1) == r
    ensures Recorded(ss + [s], es + [Shifted(input)], all, r)
  {
    hide Ok, Run, Text, Shifted, Recorded;
    var n, ts, ds := |ss|, ss + [s], es + [Shifted(input)];
    var input1 := if input == [] then [] else input[1..];
    ShiftKeepsText(es, input);
    assert ts[..n + 1] == ts && ds[..n + 1] == ds && ss[..n] == ss && es[..n] == es;
    assert all[|Text(ds, n + 1)|..] == input1;
    RecordedLower(ss, es, n, s, Shifted(input), all, r);
  }

  lemma NoEqualReduced(es: seq<Entry>, rule: int)
    requires Symbols(es, rule)
    ensures Reduced(rule, es) != Tok(Equal)
  {
  }

  lemma ReduceRecords(ss: seq<int>, es: seq<Entry>, all: seq<Token>, r: Result, rule: int)
    requires Recorded(ss, es, all, r) && |ss| == |es| && Symbols(es, rule) && 0 < Length(rule) < |ss|
    ensures Recorded(ReducedStates(rule, ss), ReducedEntries(rule, es), all, r)
  {
    hide Symbols, Reduced, Recorded, GotoState, Length, Lhs;
    NoEqualReduced(es, rule);
    var n := |ss| - Length(rule);
    RecordedLower(ss, es, n, GotoState(Lhs(rule), ss[n - 1]), Reduced(rule, es), all, r);
    assert ss[..n][n - 1] == ss[n - 1];
  }

  /** The record is kept over the whole run. */
  lemma {:induction false} RunRecords(ss: seq<int>, es: seq<Entry>, input: seq<Token>, all: seq<Token>, r: Result)
    requires Ok(ss, es, input) && |ss| == |es| > 0 && r == Run(ss, es, input) && r.Syntax?
    requires Recorded(ss, es, all, r) && Text(es, |es|) + input == all
    ensures Recorded(r.ss, r.es, all, r)
    decreases |input|, Phase(ss[|ss| - 1]), 4 * |ss| + Rank(ss[|ss| - 1])
  {
    hide *;
    NotFull(ss, es, input);
    StepOfRun(ss, es, input);
    match Automaton(ss[|ss| - 1], Code(input))
    case Error =>
    case Shift(s) =>
      ShiftRecords(ss, es, input, all, r, s);
      ShiftKeepsText(es, input);
      RunRecords(ss + [s], es + [Shifted(input)], if input == [] then [] else input[1..], all, r);
    case Reduce(rule) =>
      FindsReduction(ss, es, input, rule);
      TextBeforeReduce(ss, es, input, rule);
      ReduceRecords(ss, es, all, r, rule);
      RunRecords(ReducedStates(rule, ss), ReducedEntries(rule, es), input, all, r);
  }

  lemma WaitingAssignment(ss: seq<int>, es: seq<Entry>)
    requires Linked(ss, es) && ss[|ss| - 1] == 22
    ensures |ss| > 2 && ss[|ss| - 2] == 11 && es[|ss| - 2].Tok? && es[|ss| - 2].t.Mem? && es[|ss| - 1] == Tok(Equal)
  {
    var n := |ss|;
    assert Link(ss[n - 2], es[n - 2], ss[n - 1], es[n - 1]);
    assert Link(ss[n - 3], es[n - 3], ss[n - 2], es[n - 2]);
  }

  lemma FitsAfterEqual(ss: seq<int>, es: seq<Entry>, x: Expr, tail: seq<Token>)
    requires Linked(ss, es) && ss[|ss| - 1] == 22 && es[|es| - 1] == Tok(Equal) && Grouped(x) && Closes(x, tail)
    ensures Fits(ss, es, x, tail) && Automaton(31, Code(tail)) == Reduce(2)
  {
    hide Link;
  }

  lemma AssignReduced(p: int, es: seq<Entry>, a: int, x: Expr)
    ensures AfterExpression(22) == 31
    ensures Length(2) == 3 && GotoState(Lhs(2), p) == 8
    ensures Reduced(2, es + [Tok(Mem(a)), Tok(Equal), Node(x)]) == Node(Assign(a, x))
  {
  }

  lemma LastThree<T>(s: seq<T>, z: T)
    requires |s| >= 2
    ensures s + [z] == s[..|s| - 2] + [s[|s| - 2], s[|s| - 1], z]
  {
  }

  /** From a waiting '=' a finished right-hand side is read and the assignment reduced. */
  lemma ReadsAssignment(ss: seq<int>, es: seq<Entry>, x: Expr, tail: seq<Token>)
    requires Ok(ss, es, Yield(x) + tail) && ss[|ss| - 1] == 22 && Grouped(x) && Closes(x, tail)
    ensures var n := |ss|;
            n > 2 && es[n - 2].Tok? && es[n - 2].t.Mem? && es[n - 1] == Tok(Equal)
            && var ss1, es1 := ss[..n - 2] + [8], es[..n - 2] + [Node(Assign(es[n - 2].t.a, x))];
               Run(ss, es, Yield(x) + tail).Exhausted?
               || (Ok(ss1, es1, tail) && Run(ss, es, Yield(x) + tail) == Run(ss1, es1, tail))
  {
    assert Linked(ss, es) && |ss| == |es| > 0;
    hide Ok, Linked, Run, Yield, Grouped, Closes, Fits, Automaton, Code, Reduced, GotoState,
      Lhs, Need, Length, AfterExpression;
    WaitingAssignment(ss, es);
    FitsAfterEqual(ss, es, x, tail);
    ReadsTree(ss, es, x, tail);
    var n := |ss|;
    var a := es[n - 2].t.a;
    AssignReduced(ss[n - 3], es[..n - 2], a, x);
    if |ss| + Need(x) < MAXDEPTH {
      var ts, xs := [11, 22, 31], [Tok(Mem(a)), Tok(Equal), Node(x)];
      LastThree(ss, 31);
      LastThree(es, Node(x));
      ReduceStep(ss[..n - 2], es[..n - 2], ts, xs, tail, 2);
    }
  }

  lemma EqualState(ss: seq<int>, es: seq<Entry>, i: nat)
    requires Linked(ss, es) && i < |es| && es[i] == Tok(Equal)
    ensures ss[i] == 22
  {
    assert Link(ss[i - 1], es[i - 1], ss[i], es[i]);
  }

  lemma AssignCovers(es: seq<Entry>, i: nat, a: int, x: Expr)
    requires 1 <= i < |es| && es[i - 1].Tok? && es[i].Tok?
    ensures At(es, i, |Text(es, i)|) && Covered(es[..i - 1] + [Node(Assign(a, x))], |Text(es, i)|)
  {
    var ds := es[..i - 1] + [Node(Assign(a, x))];
    assert ds[..i - 1] == es[..i - 1];
    TextOfPrefix(es, ds, i - 1);
    assert Text(es, i) == Text(es, i - 1) + TextOf(es[i - 1]);
    assert Text(ds, i) == Text(ds, i - 1) + Yield(Assign(a, x));
    assert At(ds, i - 1, |Text(es, i)|);
  }

  lemma Slices<T>(s: seq<T>, i: nat)
    requires 1 <= i < |s|
    ensures var r := s[..i + 1]; |r| == i + 1 && r[..i - 1] == s[..i - 1] && r[i] == s[i] && r[i - 1] == s[i - 1]
  {
  }

  /** The run from a waiting '=' with a finished right-hand side leaves the '=' inside a tree. */
  lemma WaitingIsRead(ss: seq<int>, es: seq<Entry>, i: nat, x: Expr, tail: seq<Token>, r: Result)
    requires |ss| == |es| && 1 <= i < |es| && Linked(ss[..i + 1], es[..i + 1]) && es[i] == Tok(Equal)
    requires Grouped(x) && Closes(x, tail) && r.Syntax?
    requires Ok(ss[..i + 1], es[..i + 1], Yield(x) + tail) && Run(ss[..i + 1], es[..i + 1], Yield(x) + tail) == r
    ensures Covered(r.es, |Text(es, i)|) && At(es, i, |Text(es, i)|)
  {
    hide *;
    var ss0, es0 := ss[..i + 1], es[..i + 1];
    Slices(ss, i);
    Slices(es, i);
    EqualState(ss0, es0, i);
    ReadsAssignment(ss0, es0, x, tail);
    var a := es0[i - 1].t.a;
    AssignCovers(es, i, a, x);
    CoveredStays(ss[..i - 1] + [8], es[..i - 1] + [Node(Assign(a, x))], tail, |Text(es, i)|);
  }

  lemma TreeElsewhere(es: seq<Entry>, i: nat, p: nat)
    requires At(es, i, p) && Covered(es, p)
    ensures es[i].Node?
  {
    var j: nat :| At(es, j, p) && es[j].Node?;
    OneLevel(es, i, j, p);
  }

  lemma StartIsRecorded(input: seq<Token>, r: Result)
    ensures Recorded([0], [Bottom], input, r) && Text([Bottom], 1) + input == input
  {
    assert Text([Bottom], 1) == [];
  }

  lemma SplitAtEnd(input: seq<Token>, q: nat, x: Expr) returns (tail: seq<Token>)
    requires Ends(input, q, x)
    ensures Grouped(x) && Closes(x, tail) && input[q..] == Yield(x) + tail
  {
    tail := input[q + |Yield(x)|..];
  }

  /** A finished right-hand side does not stay waiting. */
  lemma WaitingIsUnfinished(input: seq<Token>, i: nat, x: Expr)
    requires Parse(input).Syntax? && 1 <= i < |Parse(input).es| && Parse(input).es[i] == Tok(Equal)
    ensures !Ends(input, |Text(Parse(input).es, i + 1)|, x)
  {
    var r := Parse(input);
    StuckState(input);
    assert Ok([0], [Bottom], input) && Run([0], [Bottom], input) == r && |r.ss| == |r.es| && Linked(r.ss, r.es);
    hide Ok, Linked, Run, Yield, Grouped, Closes, Ends, Text, Covered, At, Recorded, Parse, Automaton, Code;
    if Ends(input, |Text(r.es, i + 1)|, x) {
      StartIsRecorded(input, r);
      RunRecords([0], [Bottom], input, input, r);
      BeganAt(r.ss, r.es, input, r, i);
      var tail := SplitAtEnd(input, |Text(r.es, i + 1)|, x);
      LowerLevels(r.ss, r.es, i + 1);
      WaitingIsRead(r.ss, r.es, i, x, tail, r);
      TreeElsewhere(r.es, i, |Text(r.es, i)|);
      assert false;
    }
  }

  lemma BeganAt(ss: seq<int>, es: seq<Entry>, all: seq<Token>, r: Result, i: nat)
    requires |ss| == |es| && Recorded(ss, es, all, r) && i < |es| && es[i] == Tok(Equal)
    ensures var q := |Text(es, i + 1)|;
            q <= |all| && Ok(ss[..i + 1], es[..i + 1], all[q..]) && Run(ss[..i + 1], es[..i + 1], all[q..]) == r
  {
    assert Began(ss, es, all, r, i);
  }

  // ---------- the result ----------

  /** At a consumed '=' there is a finished tree or a waiting token. */
  lemma EqualAt(input: seq<Token>, p: nat) returns (i: nat)
    requires Parse(input).Syntax? && p < ErrorAt(input) && input[p] == Equal
    ensures var es := Parse(input).es;
            1 <= i && At(es, i, p) && p < |Text(es, |es|)| && Text(es, |es|)[p] == Equal
            && (es[i].Node? || (es[i] == Tok(Equal) && |Text(es, i + 1)| == p + 1))
  {
    var r := Parse(input);
    StuckState(input);
    assert r.es[0] == Bottom;
    assert Text(r.es, |r.es|) == input[..ErrorAt(input)];
    i := Locate(r.es, |r.es|, p);
    TokenAt(r.es, i, p);
  }

  /** A rejected input has performed the assignment at a consumed '=', as part of a tree it has evaluated,
      if and only if the right-hand side is finished: an expression that the token after it cannot go on with. */
  lemma PerformedIffFinished(input: seq<Token>, p: nat)
    requires Parse(input).Syntax? && p < ErrorAt(input) && input[p] == Equal
    ensures Covered(Parse(input).es, p) <==> Complete(input, p + 1)
  {
    var r := Parse(input);
    StuckState(input);
    var i := EqualAt(input, p);
    hide Ok, Linked, Run, Ends, Text, Parse, Automaton, Code;
    if r.es[i].Node? {
      CoveredIsComplete(r.ss, r.es, r.rest, i, p);
    } else {
      if Covered(r.es, p) {
        TreeElsewhere(r.es, i, p);
      }
      var q := p + 1;
      forall x
        ensures !Ends(input, q, x)
      {
        WaitingIsUnfinished(input, i, x);
      }
    }
  }

  // ---------- the memory a rejected input leaves ----------

  /** The cells the assignments in `e` store to. */
  function Targets(e: Expr): set<int> {
    match e
    case Assign(a, x) => Targets(x) + {a}
    case Neg(x) => Targets(x)
    case Paren(x) => Targets(x)
    case Bin(_, l, r) => Targets(l) + Targets(r)
    case _ => {}
  }

  lemma {:induction false} EvalStores(e: Expr, w: World, a: int)
    ensures var w1 := Eval(e, w).1;
            (a in w1.cells <==> a in w.cells || a in Targets(e)) && (a !in Targets(e) ==> Cell(w1, a) == Cell(w, a))
  {
    match e
    case Assign(_, x) => EvalStores(x, w, a);
    case Neg(x) => EvalStores(x, w, a);
    case Paren(x) => EvalStores(x, w, a);
    case Bin(_, l, r) =>
      EvalStores(l, w, a);
      EvalStores(r, Eval(l, w).1, a);
    case _ =>
  }

  /** `a =` stands at positions `q - 1` and `q`. */
  predicate Assigns(text: seq<Token>, q: nat, a: int) {
    1 <= q < |text| && text[q - 1] == Mem(a) && text[q] == Equal
  }

  lemma AssignsLater(pre: seq<Token>, text: seq<Token>, post: seq<Token>, q: nat, a: int)
    requires Assigns(text, q, a)
    ensures Assigns(pre + text + post, |pre| + q, a)
  {
  }

  lemma BinAssigns(op: Op, l: Expr, r: Expr, q: nat, a: int)
    ensures Assigns(Yield(l), q, a) ==> Assigns(Yield(Bin(op, l, r)), q, a)
    ensures Assigns(Yield(r), q, a) ==> Assigns(Yield(Bin(op, l, r)), |Yield(l)| + 1 + q, a)
  {
    hide Assigns;
    if Assigns(Yield(l), q, a) {
      AssignsLater([], Yield(l), [Operator(op)] + Yield(r), q, a);
      assert [] + Yield(l) + ([Operator(op)] + Yield(r)) == Yield(Bin(op, l, r));
    }
    if Assigns(Yield(r), q, a) {
      AssignsLater(Yield(l) + [Operator(op)], Yield(r), [], q, a);
      assert Yield(l) + [Operator(op)] + Yield(r) + [] == Yield(Bin(op, l, r));
    }
  }

  /** A prefix of one or two tokens, and at most one token behind. */
  lemma WrappedAssigns(e: Expr, x: Expr, q: nat, a: int)
    requires Assigns(Yield(x), q, a) && (e == Neg(x) || e == Paren(x) || (e.Assign? && e.e == x))
    ensures Assigns(Yield(e), q + if e.Assign? then 2 else 1, a)
  {
  }

  lemma {:induction false} TargetInText(e: Expr, a: int) returns (q: nat)
    requires a in Targets(e)
    ensures Assigns(Yield(e), q, a)
  {
    match e
    case Assign(b, x) =>
      if a == b {
        q := 1;
      } else {
        hide Assigns, Yield;
        q := TargetInText(x, a);
        WrappedAssigns(e, x, q, a);
        q := q + 2;
      }
    case Neg(_) | Paren(_) =>
      hide Assigns, Yield;
      q := TargetInText(e.e, a);
      WrappedAssigns(e, e.e, q, a);
      q := q + 1;
    case Bin(op, l, r) =>
      hide Assigns, Yield;
      q := TargetInText(if a in Targets(l) then l else r, a);
      BinAssigns(op, l, r, q, a);
      q := if a in Targets(l) then q else |Yield(l)| + 1 + q;
    case _ =>
  }

  lemma {:induction false} StartsWithoutEqual(e: Expr)
    ensures Yield(e) != [] && Yield(e)[0] != Equal
  {
    match e
    case Bin(_, l, _) => StartsWithoutEqual(l);
    case _ =>
  }

  lemma {:induction false} TextHasTarget(e: Expr, q: nat, a: int)
    requires Assigns(Yield(e), q, a)
    ensures a in Targets(e)
  {
    match e
    case Assign(b, x) =>
      if q >= 2 {
        StartsWithoutEqual(x);
        TextHasTarget(x, q - 2, a);
      }
    case Neg(x) => TextHasTarget(x, q - 1, a);
    case Paren(x) => TextHasTarget(x, q - 1, a);
    case Bin(op, l, r) =>
      var k := |Yield(l)|;
      if q < k {
        TextHasTarget(l, q, a);
      } else {
        StartsWithoutEqual(r);
        TextHasTarget(r, q - k - 1, a);
      }
    case _ =>
  }

  /** A tree among the lowest `n` levels stores to `a`. */
  ghost predicate StackStores(es: seq<Entry>, n: nat, a: int)
    requires n <= |es|
  {
    exists i: nat :: i < n && es[i].Node? && a in Targets(es[i].e)
  }

  lemma {:induction false} StackEffect(es: seq<Entry>, n: nat, w: World, a: int)
    requires n <= |es|
    ensures var w1 := CmdDriver.After(es, n, w);
            (a in w1.cells <==> a in w.cells || StackStores(es, n, a))
            && (!StackStores(es, n, a) ==> Cell(w1, a) == Cell(w, a))
  {
    if n > 0 {
      StackEffect(es, n - 1, w, a);
      if es[n - 1].Node? {
        EvalStores(es[n - 1].e, CmdDriver.After(es, n - 1, w), a);
      }
      hide Targets, Eval;
      assert StackStores(es, n, a) <==> StackStores(es, n - 1, a) || (es[n - 1].Node? && a in Targets(es[n - 1].e));
    }
  }

  /** At position `p` the input assigns to `a`, before the error and with a finished right-hand side. */
  ghost predicate Stores(input: seq<Token>, p: nat, a: int)
    requires Parse(input).Syntax?
  {
    Assigns(input, p, a) && p < ErrorAt(input) && Complete(input, p + 1)
  }

  lemma InText(text: seq<Token>, q: nat, a: int)
    requires Assigns(text, q, a)
    ensures q < |text|
  {
  }

  lemma StackPosition(es: seq<Entry>, i: nat, q: nat)
    requires i < |es| && q < |TextOf(es[i])|
    ensures At(es, i, |Text(es, i)| + q) && |Text(es, i)| + q < |Text(es, |es|)|
  {
    TextStep(es, i);
  }

  lemma StackAssigns(es: seq<Entry>, rest: seq<Token>, i: nat, a: int) returns (p: nat)
    requires i < |es| && es[i].Node? && a in Targets(es[i].e)
    ensures At(es, i, p) && p < |Text(es, |es|)| && Assigns(Text(es, |es|) + rest, p, a)
  {
    hide *;
    var q := TargetInText(es[i].e, a);
    TextOfNode(es[i]);
    InText(TextOf(es[i]), q, a);
    p := |Text(es, i)| + q;
    StackPosition(es, i, q);
    SplitAround(es, i, rest);
    AssignsLater(Text(es, i), TextOf(es[i]), Tail(es, i, rest), q, a);
    Associate(Text(es, i), TextOf(es[i]), Tail(es, i, rest));
  }

  lemma AssignsOnStack(es: seq<Entry>, rest: seq<Token>, i: nat, p: nat, a: int)
    requires At(es, i, p) && es[i].Node? && Assigns(Text(es, |es|) + rest, p, a)
    ensures a in Targets(es[i].e)
  {
    TextStep(es, i);
    SplitAround(es, i, rest);
    var e, q := es[i].e, p - |Text(es, i)|;
    StartsWithoutEqual(e);
    hide Targets, Text, Tail, Yield;
    assert Yield(e)[q] == Equal;
    assert Assigns(Yield(e), q, a);
    TextHasTarget(e, q, a);
  }

  /** The assignments a rejected input has performed when it stops are exactly those before the error whose
      right-hand side is finished: it has stored to their cells and to no other. */
  lemma RejectedStoresIff(input: seq<Token>, w: World, a: int)
    requires Parse(input).Syntax?
    ensures var w1 := CmdDriver.After(Parse(input).es, |Parse(input).es|, w);
            (a in w1.cells <==> a in w.cells || exists p: nat :: Stores(input, p, a))
            && ((forall p: nat :: !Stores(input, p, a)) ==> Cell(w1, a) == Cell(w, a))
  {
    var r := Parse(input);
    StuckState(input);
    assert Text(r.es, |r.es|) == input[..ErrorAt(input)];
    hide Ok, Linked, Run, Ends, Text, Parse, Automaton, Code, Targets, CmdDriver.After, Complete, Covered;
    StackEffect(r.es, |r.es|, w, a);
    if StackStores(r.es, |r.es|, a) {
      var i: nat :| i < |r.es| && r.es[i].Node? && a in Targets(r.es[i].e);
      var p := StackAssigns(r.es, r.rest, i, a);
      IsCovered(r.es, i, p);
      PerformedIffFinished(input, p);
      assert Stores(input, p, a);
    }
    forall p: nat | Stores(input, p, a)
      ensures StackStores(r.es, |r.es|, a)
    {
      PerformedIffFinished(input, p);
      var i := CoveredBy(r.es, p);
      AssignsOnStack(r.es, r.rest, i, p, a);
    }
  }

  lemma IsCovered(es: seq<Entry>, i: nat, p: nat)
    requires At(es, i, p) && es[i].Node?
    ensures Covered(es, p)
  {
  }

  lemma CoveredBy(es: seq<Entry>, p: nat) returns (i: nat)
    requires Covered(es, p)
    ensures At(es, i, p) && es[i].Node?
  {
    i :| At(es, i, p) && es[i].Node?;
  }
}
