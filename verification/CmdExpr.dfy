/** Console expressions: concrete syntax trees, the tokens they print as, and what they mean. */
module CmdExpr {
  datatype Op = Add | Sub | Mul | Div

  /** A concrete syntax tree: `Paren` records a pair of parentheses in the text. */
  datatype Expr =
    | Number(n: int)
    | Read(a: int)
    | Assign(a: int, e: Expr)
    | Neg(e: Expr)
    | Paren(e: Expr)
    | Bin(op: Op, l: Expr, r: Expr)

  /** Lexical tokens; the end of the input is the end of the sequence. */
  datatype Token =
    | Num(n: int)
    | Mem(a: int)
    | Operator(op: Op)
    | Equal
    | LeftParen
    | RightParen

  const MINUS := Operator(Sub)

  // ---------- text ----------

  function Yield(e: Expr): seq<Token> {
    match e
    case Number(n) => [Num(n)]
    case Read(a) => [Mem(a)]
    case Assign(a, x) => [Mem(a), Equal] + Yield(x)
    case Neg(x) => [MINUS] + Yield(x)
    case Paren(x) => [LeftParen] + Yield(x) + [RightParen]
    case Bin(op, l, r) => Yield(l) + [Operator(op)] + Yield(r)
  }

  /** Binding strength: 1 for '+' and '-', 2 for '*' and '/', 3 for everything else. */
  function OpLevel(op: Op): int {
    if op == Add || op == Sub then 1 else 2
  }

  function Level(e: Expr): int {
    if e.Bin? then OpLevel(e.op) else 3
  }

  /** The text ends inside the right-hand side of an assignment, so that a following operator would join it. */
  predicate Open(e: Expr) {
    match e
    case Assign(_, _) => true
    case Neg(x) => Open(x)
    case Bin(_, _, r) => Open(r)
    case _ => false
  }

  /** The text ends with a memory operand, so that a following '=' would turn it into a target. */
  predicate EndsInCell(e: Expr) {
    match e
    case Read(_) => true
    case Assign(_, x) => EndsInCell(x)
    case Neg(x) => EndsInCell(x)
    case Bin(_, _, r) => EndsInCell(r)
    case _ => false
  }

  /** The text of `e` groups as `e`: operands are at least as strong as their operator demands
      (strictly stronger on the right), and no operator follows an open assignment. */
  predicate Grouped(e: Expr) {
    match e
    case Assign(_, x) => Grouped(x)
    case Neg(x) => Grouped(x) && Level(x) == 3
    case Paren(x) => Grouped(x)
    case Bin(op, l, r) =>
      Grouped(l) && Grouped(r) && !Open(l) && Level(l) >= OpLevel(op) && Level(r) > OpLevel(op)
    case _ => true
  }

  // ---------- meaning ----------

  datatype Message = DivideByZero | ParseError | StackOverflow

  /** What evaluation reads and changes: the memory cells and the error messages printed. */
  datatype World = World(cells: map<int, int>, messages: seq<Message>)

  /** The value of a 64-bit two's complement `long` after wrap-around. */
  function Long(x: int): int {
    (x + 0x8000_0000_0000_0000) % 0x1_0000_0000_0000_0000 - 0x8000_0000_0000_0000
  }

  /** C division rounds toward zero. */
  function TruncatedQuotient(x: int, y: int): int
    requires y != 0
  {
    if x >= 0 then x / y else -((-x) / y)
  }

  function Cell(w: World, a: int): int {
    if a in w.cells then w.cells[a] else 0
  }

  /** A memory write keeps 16 bits of the value. */
  function Store(w: World, a: int, v: int): World {
    w.(cells := w.cells[a := v % 0x1_0000])
  }

  /** A zero divisor prints a message and leaves the dividend as the result. */
  function Apply(op: Op, x: int, y: int, w: World): (int, World) {
    match op
    case Add => (Long(x + y), w)
    case Sub => (Long(x - y), w)
    case Mul => (Long(x * y), w)
    case Div =>
      if y == 0 then (x, w.(messages := w.messages + [DivideByZero]))
      else (Long(TruncatedQuotient(x, y)), w)
  }

  /** Left to right evaluation; an assignment stores after its right-hand side and has its value. */
  function Eval(e: Expr, w: World): (int, World) {
    match e
    case Number(n) => (n, w)
    case Read(a) => (Cell(w, a), w)
    case Assign(a, x) => var (v, w1) := Eval(x, w); (v, Store(w1, a, v))
    case Neg(x) => var (v, w1) := Eval(x, w); (Long(-v), w1)
    case Paren(x) => Eval(x, w)
    case Bin(op, l, r) =>
      var (x, w1) := Eval(l, w);
      var (y, w2) := Eval(r, w1);
      Apply(op, x, y, w2)
  }

  /** How many divisions find a zero divisor while `e` is evaluated. */
  function ZeroDivisors(e: Expr, w: World): nat {
    match e
    case Assign(_, x) => ZeroDivisors(x, w)
    case Neg(x) => ZeroDivisors(x, w)
    case Paren(x) => ZeroDivisors(x, w)
    case Bin(op, l, r) =>
      var w1 := Eval(l, w).1;
      ZeroDivisors(l, w) + ZeroDivisors(r, w1) + if op == Div && Eval(r, w1).0 == 0 then 1 else 0
    case _ => 0
  }

  lemma OneMore<T>(ms: seq<T>, m: T, a: nat, b: nat)
    ensures ms + seq(a, _ => m) + seq(b, _ => m) == ms + seq(a + b, _ => m)
  {
  }

  /** One message for each zero divisor that evaluation meets, and no other. */
  lemma {:induction false} ReportsZeroDivisors(e: Expr, w: World)
    ensures Eval(e, w).1.messages == w.messages + seq(ZeroDivisors(e, w), _ => DivideByZero)
  {
    match e
    case Assign(_, x) => ReportsZeroDivisors(x, w);
    case Neg(x) => ReportsZeroDivisors(x, w);
    case Paren(x) => ReportsZeroDivisors(x, w);
    case Bin(op, l, r) =>
      var w1 := Eval(l, w).1;
      ReportsZeroDivisors(l, w);
      ReportsZeroDivisors(r, w1);
      var a, b := ZeroDivisors(l, w), ZeroDivisors(r, w1);
      OneMore(w.messages, DivideByZero, a, b);
      OneMore(w.messages, DivideByZero, a + b, 1);
      assert [DivideByZero] == seq(1, _ => DivideByZero);
    case _ =>
  }

  /** A division has the value of its dividend, exactly when the divisor is 0 or the quotient is the dividend. */
  lemma ZeroDivisorLeavesDividend(l: Expr, r: Expr, w: World)
    ensures var (x, w1) := Eval(l, w);
            var (y, w2) := Eval(r, w1);
            var (v, w3) := Eval(Bin(Div, l, r), w);
            (w3 == w2 <==> y != 0) && (v == x <==> y == 0 || Long(TruncatedQuotient(x, y)) == x)
  {
    var w2 := Eval(r, Eval(l, w).1).1;
    assert |w2.messages + [DivideByZero]| == |w2.messages| + 1;
  }

  // ---------- printing with minimal parentheses ----------

  /** `e` without its parentheses. */
  function Strip(e: Expr): Expr {
    match e
    case Assign(a, x) => Assign(a, Strip(x))
    case Neg(x) => Neg(Strip(x))
    case Paren(x) => Strip(x)
    case Bin(op, l, r) => Bin(op, Strip(l), Strip(r))
    case _ => e
  }

  /** Parenthesises `e` for a place that takes expressions of strength `level` or more, and only
      closed ones when `closed` is set. */
  function Format(e: Expr, level: int, closed: bool): Expr {
    match e
    case Assign(a, x) =>
      var body := Assign(a, Format(x, 1, false));
      if closed then Paren(body) else body
    case Neg(x) => Neg(Format(x, 3, closed))
    case Paren(x) => Format(x, level, closed)
    case Bin(op, l, r) =>
      var k := OpLevel(op);
      if k < level then Paren(Bin(op, Format(l, k, true), Format(r, k + 1, false)))
      else Bin(op, Format(l, k, true), Format(r, k + 1, closed))
    case _ => e
  }

  lemma {:induction false} FormatGroups(e: Expr, level: int, closed: bool)
    requires 1 <= level <= 3
    ensures Grouped(Format(e, level, closed))
    ensures Level(Format(e, level, closed)) >= level
    ensures closed ==> !Open(Format(e, level, closed))
  {
    match e
    case Assign(a, x) => FormatGroups(x, 1, false);
    case Neg(x) => FormatGroups(x, 3, closed);
    case Paren(x) => FormatGroups(x, level, closed);
    case Bin(op, l, r) =>
      var k := OpLevel(op);
      FormatGroups(l, k, true);
      FormatGroups(r, k + 1, if k < level then false else closed);
    case _ =>
  }

  /** Parentheses change the text only. */
  lemma {:induction false} FormatKeepsMeaning(e: Expr, level: int, closed: bool, w: World)
    ensures Eval(Format(e, level, closed), w) == Eval(e, w)
    ensures Strip(Format(e, level, closed)) == Strip(e)
  {
    match e
    case Assign(a, x) => FormatKeepsMeaning(x, 1, false, w);
    case Neg(x) => FormatKeepsMeaning(x, 3, closed, w);
    case Paren(x) => FormatKeepsMeaning(x, level, closed, w);
    case Bin(op, l, r) =>
      var k := OpLevel(op);
      FormatKeepsMeaning(l, k, true, w);
      FormatKeepsMeaning(r, k + 1, if k < level then false else closed, Eval(l, w).1);
    case _ =>
  }

  /** Tightening the place costs at most one pair of parentheses. */
  lemma {:induction false} FormatCost(e: Expr, level: int, closed: bool)
    requires 1 <= level <= 3
    ensures |Yield(Format(e, level, closed))| <= |Yield(Format(e, level, false))| + 2
    ensures |Yield(Format(e, level, closed))| <= |Yield(Format(e, 1, false))| + 2
  {
    match e
    case Assign(a, x) =>
    case Neg(x) => FormatCost(x, 3, closed);
    case Paren(x) => FormatCost(x, level, closed);
    case Bin(op, l, r) => FormatCost(r, OpLevel(op) + 1, closed);
    case _ =>
  }

  lemma {:induction false} FormatIsMinimal(c: Expr, level: int, closed: bool)
    requires 1 <= level <= 3
    requires Grouped(c) && Level(c) >= level && (closed ==> !Open(c))
    ensures |Yield(Format(c, level, closed))| <= |Yield(c)|
  {
    match c
    case Assign(a, x) => FormatIsMinimal(x, 1, false);
    case Neg(x) => FormatIsMinimal(x, 3, closed);
    case Paren(x) =>
      FormatIsMinimal(x, 1, false);
      FormatCost(x, level, closed);
    case Bin(op, l, r) =>
      var k := OpLevel(op);
      FormatIsMinimal(l, k, true);
      FormatIsMinimal(r, k + 1, closed);
    case _ =>
  }

  lemma {:induction false} FormatIgnoresParens(e: Expr, level: int, closed: bool)
    ensures Format(Strip(e), level, closed) == Format(e, level, closed)
  {
    match e
    case Assign(a, x) => FormatIgnoresParens(x, 1, false);
    case Neg(x) => FormatIgnoresParens(x, 3, closed);
    case Paren(x) => FormatIgnoresParens(x, level, closed);
    case Bin(op, l, r) =>
      var k := OpLevel(op);
      FormatIgnoresParens(l, k, true);
      FormatIgnoresParens(r, k + 1, if k < level then false else closed);
    case _ =>
  }

  /** The printer is optimal: no other text `c` that groups as the same tree is shorter. */
  lemma FormatIsShortest(e: Expr, c: Expr)
    requires Grouped(c) && Strip(c) == Strip(e)
    ensures |Yield(Format(e, 1, false))| <= |Yield(c)|
  {
    FormatIgnoresParens(e, 1, false);
    FormatIgnoresParens(c, 1, false);
    FormatIsMinimal(c, 1, false);
  }
}
