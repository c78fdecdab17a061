/** What the console's operators compute, in the terms of integers, residues and quotients. */
module CmdLaws {
  import opened Arith
  import opened CmdExpr
  import opened CmdParser

  const TURN := 0x1_0000_0000_0000_0000

  /** The 64-bit two's complement numbers. */
  predicate IsLong(x: int) {
    -0x8000_0000_0000_0000 <= x < 0x8000_0000_0000_0000
  }

  /** `v` is the 64-bit number congruent to `x`. */
  predicate Wraps(v: int, x: int) {
    IsLong(v) && (v - x) % TURN == 0
  }

  lemma LongWraps(x: int)
    ensures Wraps(Long(x), x) && (IsLong(x) ==> Long(x) == x)
  {
  }

  lemma WrapsOnce(v: int, u: int, x: int)
    requires Wraps(v, x) && Wraps(u, x)
    ensures u == v
  {
  }

  function Abs(x: int): int {
    if x < 0 then -x else x
  }

  /** `q` is `x / y` rounded toward zero. */
  predicate Truncates(x: int, y: int, q: int) {
    && Abs(y * q) <= Abs(x) < Abs(y * q) + Abs(y)
    && (q != 0 ==> (q > 0 <==> (x > 0 <==> y > 0)))
  }

  lemma SameMagnitude(x: int, y: int, p: int, q: int)
    requires y > 0 && y * p <= x < y * p + y && y * q <= x < y * q + y
    ensures p == q
  {
    if p < q {
      MulMonotonic(y, p + 1, q);
    } else if q < p {
      MulMonotonic(y, q + 1, p);
    }
  }

  /** Division by a negative number is the negated division by its magnitude, for a dividend that is not negative. */
  lemma NegativeDivisor(x: int, y: int)
    requires x >= 0 && y < 0
    ensures x / y == -(x / -y)
  {
    var q := x / y;
    assert x == y * q + x % y && 0 <= x % y < -y;
    assert y * q == -y * -q;
    var m := x / -y;
    assert x == -y * m + x % -y && 0 <= x % -y < -y;
    SameMagnitude(x, -y, m, -q);
  }

  lemma Magnitude(x: int, y: int)
    requires y > 0 && x >= 0
    ensures y * (x / y) <= x < y * (x / y) + y && x / y >= 0
  {
    assert x == y * (x / y) + x % y;
    if x / y < 0 {
      MulMonotonic(y, x / y, -1);
    }
  }

  lemma MagnitudeOf(x: int, y: int)
    requires y != 0
    ensures TruncatedQuotient(x, y) == if (x >= 0) == (y > 0) then Abs(x) / Abs(y) else -(Abs(x) / Abs(y))
  {
    if y < 0 {
      NegativeDivisor(Abs(x), y);
    }
  }

  lemma AbsProduct(y: int, q: int)
    ensures Abs(y * q) == Abs(y) * Abs(q)
  {
    if y >= 0 && q < 0 {
      MulMonotonic(y, q, 0);
      assert y * q == -(y * -q);
    }
  }

  lemma QuotientTruncates(x: int, y: int)
    requires y != 0
    ensures Truncates(x, y, TruncatedQuotient(x, y))
  {
    var m, q := Abs(x) / Abs(y), TruncatedQuotient(x, y);
    Magnitude(Abs(x), Abs(y));
    MagnitudeOf(x, y);
    AbsProduct(y, q);
    if m > 0 {
      MulMonotonic(Abs(y), 1, m);
    }
    hide TruncatedQuotient;
    assert Abs(q) == m;
    assert x == 0 ==> m == 0;
  }

  /** There is one such quotient only. */
  lemma QuotientUnique(x: int, y: int, p: int, q: int)
    requires y != 0 && Truncates(x, y, p) && Truncates(x, y, q)
    ensures p == q
  {
    AbsProduct(y, p);
    AbsProduct(y, q);
    SameMagnitude(Abs(x), Abs(y), Abs(p), Abs(q));
  }

  // ---------- the operators ----------

  /** Sums, differences and products, modulo 2^64, with the operands in this order, the left one evaluated first. */
  lemma ValueOfArithmetic(l: Expr, r: Expr, w: World)
    ensures var (x, w1) := Eval(l, w);
            var (y, w2) := Eval(r, w1);
            && Wraps(Eval(Bin(Add, l, r), w).0, x + y) && Eval(Bin(Add, l, r), w).1 == w2
            && Wraps(Eval(Bin(Sub, l, r), w).0, x - y) && Eval(Bin(Sub, l, r), w).1 == w2
            && Wraps(Eval(Bin(Mul, l, r), w).0, x * y) && Eval(Bin(Mul, l, r), w).1 == w2
            && Wraps(Eval(Neg(l), w).0, -x) && Eval(Neg(l), w).1 == w1
            && Eval(Paren(l), w) == (x, w1)
  {
    var x, y := Eval(l, w).0, Eval(r, Eval(l, w).1).0;
    LongWraps(x + y);
    LongWraps(x - y);
    LongWraps(x * y);
    LongWraps(-x);
    hide Long;
  }

  /** A division rounds toward zero. On 64-bit operands it is exactly that quotient, except that the smallest number
      divided by -1 is itself; a zero divisor gives the dividend and one message. */
  lemma ValueOfDivision(l: Expr, r: Expr, w: World)
    ensures var (x, w1) := Eval(l, w);
            var (y, w2) := Eval(r, w1);
            var (v, w3) := Eval(Bin(Div, l, r), w);
            if y == 0 then v == x && w3.cells == w2.cells && w3.messages == w2.messages + [DivideByZero]
            else
              && w3 == w2 && (forall q :: Truncates(x, y, q) ==> Wraps(v, q))
              && (IsLong(x) && IsLong(y) ==>
                  if x == -0x8000_0000_0000_0000 && y == -1 then v == x else Truncates(x, y, v))
  {
    var x, y := Eval(l, w).0, Eval(r, Eval(l, w).1).0;
    if y != 0 {
      var p := TruncatedQuotient(x, y);
      QuotientTruncates(x, y);
      LongWraps(p);
      forall q | Truncates(x, y, q)
        ensures q == p
      {
        QuotientUnique(x, y, p, q);
      }
      if IsLong(x) && IsLong(y) {
        QuotientInRange(x, y, p);
      }
      hide Long, TruncatedQuotient, Truncates;
    }
  }

  lemma QuotientInRange(x: int, y: int, q: int)
    requires y != 0 && Truncates(x, y, q) && IsLong(x) && IsLong(y)
    ensures if x == -0x8000_0000_0000_0000 && y == -1 then q == -x else IsLong(q)
    ensures Wraps(-0x8000_0000_0000_0000, 0x8000_0000_0000_0000)
  {
    AbsProduct(y, q);
    MulMonotonic(Abs(q), 1, Abs(y));
    if Abs(y) >= 2 {
      MulMonotonic(Abs(q), 2, Abs(y));
    }
    assert Abs(y) * Abs(q) == Abs(q) * Abs(y);
  }

  /** An assignment has its right-hand side's value; the cell then holds the 16-bit number congruent to it, and
      all else is as the right-hand side left it. */
  lemma ValueOfAssignment(a: int, e: Expr, w: World, b: int)
    ensures var (x, w1) := Eval(e, w);
            var (v, w2) := Eval(Assign(a, e), w);
            && v == x && w2.messages == w1.messages
            && 0 <= Cell(w2, a) < 0x1_0000 && (Cell(w2, a) - x) % 0x1_0000 == 0
            && (b != a ==> Cell(w2, b) == Cell(w1, b))
  {
    var x := Eval(e, w).0;
    assert x == 0x1_0000 * (x / 0x1_0000) + x % 0x1_0000;
  }

  /** What is read after an assignment in the operand before it is the value assigned. */
  lemma LeftBeforeRight(a: int, e: Expr, op: Op, w: World)
    requires 0 <= Eval(e, w).0 < 0x1_0000 && op != Div
    ensures var x := Eval(e, w).0;
            Wraps(Eval(Bin(op, Paren(Assign(a, e)), Read(a)), w).0,
                  match op case Add => 2 * x case Sub => 0 case _ => x * x)
  {
    var x := Eval(e, w).0;
    ValueOfAssignment(a, e, w, a);
    ValueOfArithmetic(Paren(Assign(a, e)), Read(a), w);
    hide Long, Wraps;
  }

  /** All numbers written in the expression are 64-bit numbers. */
  predicate LongNumbers(e: Expr) {
    match e
    case Number(n) => IsLong(n)
    case Read(_) => true
    case Assign(_, x) => LongNumbers(x)
    case Neg(x) => LongNumbers(x)
    case Paren(x) => LongNumbers(x)
    case Bin(_, l, r) => LongNumbers(l) && LongNumbers(r)
  }

  predicate Cells16(w: World) {
    forall a <- w.cells :: 0 <= w.cells[a] < 0x1_0000
  }

  /** So every value is a 64-bit number and every cell a 16-bit one. */
  lemma {:induction false} EvalInRange(e: Expr, w: World)
    requires LongNumbers(e) && Cells16(w)
    ensures IsLong(Eval(e, w).0) && Cells16(Eval(e, w).1)
  {
    match e
    case Number(_) =>
    case Read(_) =>
    case Assign(_, x) => EvalInRange(x, w);
    case Neg(x) =>
      EvalInRange(x, w);
      LongWraps(-Eval(x, w).0);
    case Paren(x) => EvalInRange(x, w);
    case Bin(op, l, r) =>
      EvalInRange(l, w);
      EvalInRange(r, Eval(l, w).1);
      BinInRange(op, l, r, w);
  }

  lemma BinInRange(op: Op, l: Expr, r: Expr, w: World)
    requires IsLong(Eval(l, w).0) && IsLong(Eval(r, Eval(l, w).1).0) && Cells16(Eval(r, Eval(l, w).1).1)
    ensures IsLong(Eval(Bin(op, l, r), w).0) && Cells16(Eval(Bin(op, l, r), w).1)
  {
    ValueOfArithmetic(l, r, w);
    ValueOfDivision(l, r, w);
    DivisionKeepsCells(l, r, w);
    hide Eval, Long;
    match op
    case Add =>
    case Sub =>
    case Mul =>
    case Div =>
  }

  lemma DivisionKeepsCells(l: Expr, r: Expr, w: World)
    ensures Eval(Bin(Div, l, r), w).1.cells == Eval(r, Eval(l, w).1).1.cells
  {
  }

  /** `- 7 / 2` is accepted and is -3. */
  lemma MinusSevenHalves(w: World)
    ensures var e := Bin(Div, Neg(Number(7)), Number(2));
            && Parse([MINUS, Num(7), Operator(Div), Num(2)]) == Accepted(e) && Eval(e, w) == (-3, w)
  {
    var e := Bin(Div, Neg(Number(7)), Number(2));
    assert Yield(e) == [MINUS, Num(7), Operator(Div), Num(2)];
    assert Eval(Neg(Number(7)), w) == (-7, w) && TruncatedQuotient(-7, 2) == -3 && Long(-3) == -3;
    GroupedTextIsAccepted(e);
  }
}
