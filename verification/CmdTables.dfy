/** The compressed LALR tables of the console's expression parser and the automaton they encode.

  Tokens and non-terminals carry the parser's internal numbers:
  0 end of input, 3 '+', 4 '-', 5 '*', 6 '/', 7 '=', 8 '(', 9 ')', 10 '[', 11 ']', 12 '.', 13 '&',
  14 memory object, 15 memory cell, 16 number, 17 bit;
  19 whole input, 20 assignment, 21 expression, 22 address-of, 23 memory, 24 bit. */
module CmdTables {
  const FLAG := -32768
  const LAST := 46
  const FINAL := 37
  const STATES := 38
  const TOKENS := 18
  const NTBASE := 19

  // yypact
  function Pact(i: int): int {
    match i
    case 0 => -2 case 1 => -2 case 2 => -2 case 3 => -10 case 4 => 23 case 5 => -32768 case 6 => -32768 case 7 => -32768
    case 8 => -32768 case 9 => 32 case 10 => -32768 case 11 => -4 case 12 => 33 case 13 => -32768
    case 14 => 25 case 15 => 27
    case 16 => -32768 case 17 => -2 case 18 => -2 case 19 => -2 case 20 => -2 case 21 => -2 case 22 => -2 case 23 => -2
    case 24 => -2 case 25 => -32768 case 26 => 21 case 27 => 4 case 28 => 4 case 29 => -32768
    case 30 => -32768 case 31 => 32
    case 32 => 32 case 33 => 32 case 34 => -32768 case 35 => 41 case 36 => 42 case 37 => -32768
    case _ => 0
  }

  // yydefact
  function Defact(i: int): int {
    match i
    case 0 => 0 case 1 => 0 case 2 => 0 case 3 => 0 case 4 => 0 case 5 => 17 case 6 => 12 case 7 => 19
    case 8 => 4 case 9 => 1 case 10 => 10 case 11 => 13 case 12 => 14 case 13 => 9 case 14 => 0 case 15 => 15
    case 16 => 16 case 17 => 0 case 18 => 0 case 19 => 0 case 20 => 0 case 21 => 0 case 22 => 0 case 23 => 0
    case 24 => 0 case 25 => 11 case 26 => 0 case 27 => 5 case 28 => 6 case 29 => 7 case 30 => 8 case 31 => 2
    case 32 => 20 case 33 => 3 case 34 => 18 case 35 => 0 case 36 => 0 case 37 => 0
    case _ => 0
  }

  // yytable
  function Table(i: int): int {
    match i
    case 0 => 13 case 1 => 14 case 2 => 1 case 3 => 22 case 4 => 4 case 5 => 5 case 6 => 2 case 7 => 7
    case 8 => 23 case 9 => 20 case 10 => 21 case 11 => 3 case 12 => 4 case 13 => 5 case 14 => 6 case 15 => 7
    case 16 => 26 case 17 => 27 case 18 => 28 case 19 => 29 case 20 => 30 case 21 => 31 case 22 => 32 case 23 => 33
    case 24 => 18 case 25 => 19 case 26 => 20 case 27 => 21 case 28 => 18 case 29 => 19 case 30 => 20 case 31 => 21
    case 32 => 34 case 33 => 17 case 34 => 25 case 35 => 18 case 36 => 19 case 37 => 20 case 38 => 21 case 39 => 23
    case 40 => 24 case 41 => 36 case 42 => 37 case 43 => 15 case 44 => 0 case 45 => 0 case 46 => 16
    case _ => 0
  }

  // yycheck
  function Check(i: int): int {
    match i
    case 0 => 1 case 1 => 2 case 2 => 4 case 3 => 7 case 4 => 14 case 5 => 15 case 6 => 8 case 7 => 17
    case 8 => 12 case 9 => 5 case 10 => 6 case 11 => 13 case 12 => 14 case 13 => 15 case 14 => 16 case 15 => 17
    case 16 => 17 case 17 => 18 case 18 => 19 case 19 => 20 case 20 => 21 case 21 => 22 case 22 => 23 case 23 => 24
    case 24 => 3 case 25 => 4 case 26 => 5 case 27 => 6 case 28 => 3 case 29 => 4 case 30 => 5 case 31 => 6
    case 32 => 11 case 33 => 10 case 34 => 9 case 35 => 3 case 36 => 4 case 37 => 5 case 38 => 6 case 39 => 12
    case 40 => 7 case 41 => 0 case 42 => 0 case 43 => 3 case 44 => -1 case 45 => -1 case 46 => 3
    case _ => 0
  }

  // yyr1
  function Lhs(i: int): int {
    match i
    case 0 => 0 case 1 => 19 case 2 => 20 case 3 => 20 case 4 => 21 case 5 => 21 case 6 => 21 case 7 => 21
    case 8 => 21 case 9 => 21 case 10 => 21 case 11 => 21 case 12 => 21 case 13 => 21 case 14 => 21 case 15 => 22
    case 16 => 22 case 17 => 23 case 18 => 23 case 19 => 24 case 20 => 24
    case _ => 0
  }

  // yyr2
  function Length(i: int): int {
    match i
    case 0 => 0 case 1 => 1 case 2 => 3 case 3 => 3 case 4 => 1 case 5 => 3 case 6 => 3 case 7 => 3
    case 8 => 3 case 9 => 2 case 10 => 1 case 11 => 3 case 12 => 1 case 13 => 1 case 14 => 1 case 15 => 2
    case 16 => 2 case 17 => 1 case 18 => 4 case 19 => 1 case 20 => 3
    case _ => 0
  }

  // yypgoto
  function Pgoto(i: int): int {
    match i
    case 0 => -32768 case 1 => -32768 case 2 => -1 case 3 => -32768 case 4 => 40 case 5 => 43
    case _ => 0
  }

  // yydefgoto
  function Defgoto(i: int): int {
    match i
    case 0 => 35 case 1 => 8 case 2 => 9 case 3 => 10 case 4 => 11 case 5 => 12
    case _ => 0
  }

  datatype Act = Shift(state: int) | Reduce(rule: int) | Accept | Error

  /** The reduction a state makes whatever the lookahead is, if it has one. */
  function Default(s: int): Act {
    if Defact(s) == 0 then Error else Reduce(Defact(s))
  }

  /** The row at displacement `n` on lookahead `t`, with default `d`. */
  function Row(n: int, d: Act, t: int): Act {
    var k := n + t;
    if k < 0 || k > LAST || Check(k) != t then d else
    var v := Table(k);
    if v < 0 then (if v == FLAG then Error else Reduce(-v))
    else if v == 0 then Error
    else if v == FINAL then Accept
    else Shift(v)
  }

  /** The driver's table lookup in state `s` on lookahead `t`. */
  function Action(s: int, t: int): Act {
    if Pact(s) == FLAG then Default(s) else Row(Pact(s), Default(s), t)
  }

  /** The driver's table lookup after a reduction to `nt` that uncovers state `s`. */
  function Goto(nt: int, s: int): int {
    var y := Pgoto(nt - NTBASE) + s;
    if 0 <= y <= LAST && Check(y) == s then Table(y) else Defgoto(nt - NTBASE)
  }

  // ---------- the automaton the tables stand for ----------

  /** An operand starts here. */
  function Operand(t: int): Act {
    match t
    case 4 => Shift(1) case 8 => Shift(2) case 13 => Shift(3) case 14 => Shift(4)
    case 15 => Shift(5) case 16 => Shift(6) case 17 => Shift(7)
    case _ => Error
  }

  /** An operand has just ended: any operator goes on with it, else `d`. */
  function AnyOperator(t: int, d: Act): Act {
    if 3 <= t <= 6 then Shift(15 + t) else d
  }

  /** The right operand of '+' or '-' has just ended: only '*' and '/' go on with it, else `d`. */
  function TightOperator(t: int, d: Act): Act {
    if 5 <= t <= 6 then Shift(15 + t) else d
  }

  function Automaton(s: int, t: int): Act {
    match s
    case 0 | 1 | 2 | 17 | 18 | 19 | 20 | 21 | 22 | 23 | 24 => Operand(t)
    case 3 => if t == 14 then Shift(4) else if t == 15 then Shift(5) else if t == 17 then Shift(7) else Error
    case 4 => if t == 10 then Shift(17) else Error
    case 5 => Reduce(17)
    case 6 => Reduce(12)
    case 7 => Reduce(19)
    case 8 => Reduce(4)
    case 9 => AnyOperator(t, Reduce(1))
    case 10 => Reduce(10)
    case 11 => if t == 7 then Shift(22) else if t == 12 then Shift(23) else Reduce(13)
    case 12 => if t == 7 then Shift(24) else Reduce(14)
    case 13 => Reduce(9)
    case 14 => AnyOperator(t, if t == 9 then Shift(25) else Error)
    case 15 => if t == 12 then Shift(23) else Reduce(15)
    case 16 => Reduce(16)
    case 25 => Reduce(11)
    case 26 => AnyOperator(t, if t == 11 then Shift(34) else Error)
    case 27 => TightOperator(t, Reduce(5))
    case 28 => TightOperator(t, Reduce(6))
    case 29 => Reduce(7)
    case 30 => Reduce(8)
    case 31 => AnyOperator(t, Reduce(2))
    case 32 => AnyOperator(t, Reduce(20))
    case 33 => AnyOperator(t, Reduce(3))
    case 34 => Reduce(18)
    case 35 => if t == 0 then Shift(36) else Error
    case 36 => if t == 0 then Accept else Error
    case _ => Error
  }

  /** The state an expression leads to from each state that expects an operand. */
  function AfterExpression(s: int): int {
    match s
    case 1 => 13 case 2 => 14 case 17 => 26 case 18 => 27 case 19 => 28 case 20 => 29
    case 21 => 30 case 22 => 31 case 23 => 32 case 24 => 33
    case _ => 9
  }

  function GotoState(nt: int, s: int): int {
    match nt
    case 19 => 35
    case 20 => 8
    case 21 => AfterExpression(s)
    case 22 => 10
    case 23 => if s == 3 then 15 else 11
    case _ => if s == 3 then 16 else 12
  }

  lemma SharedRows(d: Act, t: int)
    requires 0 <= t < TOKENS
    ensures Row(-2, Error, t) == Operand(t)
    ensures Row(32, d, t) == AnyOperator(t, d)
    ensures Row(4, d, t) == TightOperator(t, d)
  {
  }

  lemma OwnRows(s: int, t: int)
    requires 0 <= t < TOKENS && s in {3, 4, 11, 12, 14, 15, 26, 35, 36}
    ensures Action(s, t) == Automaton(s, t)
  {
  }

  /** Decompression: the packed tables encode exactly the automaton written out above. */
  lemma TablesEncodeAutomaton(s: int, t: int)
    requires 0 <= s < STATES && 0 <= t < TOKENS
    ensures Action(s, t) == Automaton(s, t)
  {
    if s in {3, 4, 11, 12, 14, 15, 26, 35, 36} {
      OwnRows(s, t);
    } else {
      hide Row, Operand, AnyOperator, TightOperator;
      SharedRows(Default(s), t);
    }
  }

  lemma TablesEncodeGotos(nt: int, s: int)
    requires NTBASE <= nt <= 24 && 0 <= s < STATES
    ensures Goto(nt, s) == GotoState(nt, s)
  {
  }

  /** No state can shift the error token (number 1), so error recovery always pops the whole stack. */
  lemma ErrorTokenNeverShifted(s: int)
    requires 0 <= s < STATES
    ensures Pact(s) == FLAG || Pact(s) + 1 < 0 || Pact(s) + 1 > LAST || Check(Pact(s) + 1) != 1
  {
  }
}
