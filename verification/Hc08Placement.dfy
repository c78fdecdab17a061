/** Where the destination of a multi-byte program may lie: exactly when the program is right for every memory. */
module Hc08Placement {
  import opened Arith
  import opened Hc08
  import opened Hc08Programs

  // ---------- addition and subtraction ----------

  /** The result is the sum or difference modulo 256^n. */
  predicate Correct(s: Cpu, g: Sign, a: int, b: int, r: int, n: nat)
    requires n > 0
  {
    Num(Program(s, g, a, b, r, n).mem, r, n) == (Num(s.mem, a, n) + Of(g, Num(s.mem, b, n))) % Power(n)
  }

  ghost predicate AlwaysCorrect(g: Sign, a: int, b: int, r: int, n: nat)
    requires n > 0
  {
    forall s: Cpu :: Bytes(s) ==> Correct(s, g, a, b, r, n)
  }

  /** The program on the low `k` bytes is what the whole program leaves in them. */
  lemma {:induction false} LowBytes(s: Cpu, g: Sign, a: int, b: int, r: int, n: nat, k: nat)
    requires 0 < k <= n && Bytes(s)
    ensures var h := n - k;
            forall j: int :: r + h <= j ==>
              Read(Program(s, g, a, b, r, n).mem, j) == Read(Program(s, g, a + h, b + h, r + h, k).mem, j)
    decreases n
  {
    hide ByteStep, Read, Bytes;
    if k < n {
      LowBytes(s, g, a + 1, b + 1, r + 1, n - 1, k);
      var u := Lower(s, g, a, b, r, n);
      ProgramFrame(s, g, a + 1, b + 1, r + 1, n - 1);
      ByteStepFrame(u, g, a, b, r, n == 1);
      var h := n - k;
      assert a + 1 + (h - 1) == a + h && b + 1 + (h - 1) == b + h && r + 1 + (h - 1) == r + h;
    }
  }

  lemma NumHead(m: Memory, p: int, d: nat)
    ensures Num(m, p, d + 1) == Read(m, p) * Power(d) + Num(m, p + 1, d)
  {
  }

  lemma Regroup(x: int, w: int, y: int, p: int, z: int)
    ensures x * (w * p) + (y * p + z) == (x * w + y) * p + z
  {
    assert x * (w * p) == (x * w) * p;
  }

  lemma {:induction false} NumSplit(m: Memory, p: int, n: nat, k: nat)
    requires k <= n
    ensures Num(m, p, n) == Num(m, p, n - k) * Power(k) + Num(m, p + n - k, k)
    decreases n
  {
    if k < n {
      NumSplit(m, p + 1, n - 1, k);
      PowerSplit(n - 1, k);
      NumHead(m, p, n - 1);
      NumHead(m, p, n - 1 - k);
      hide Num, Power, Read;
      Regroup(Read(m, p), Power(n - 1 - k), Num(m, p + 1, n - 1 - k), Power(k), Num(m, p + n - k, k));
    } else {
      assert Num(m, p, 0) == 0;
    }
  }

  lemma {:induction false} PowerSplit(n: nat, k: nat)
    requires k <= n
    ensures Power(n) == Power(n - k) * Power(k)
    decreases n
  {
    if k < n {
      PowerSplit(n - 1, k);
      assert BYTE * (Power(n - 1 - k) * Power(k)) == BYTE * Power(n - 1 - k) * Power(k);
    }
  }

  /** Equal modulo a multiple of `p` is equal modulo `p`. */
  lemma ReduceModulus(x: int, y: int, h: int, p: int, hx: int, lx: int, hy: int, ly: int) returns (c: int)
    requires p > 0 && h > 0 && h * p > 0 && x == y % (h * p)
    requires x == hx * p + lx && y == hy * p + ly
    ensures lx == ly + c * p
  {
    var q := y / (h * p);
    assert y == (h * p) * q + x;
    assert (h * p) * q == (h * q) * p;
    c := hy - h * q - hx;
    assert c * p == hy * p - (h * q) * p - hx * p;
  }

  lemma SplitSum(g: Sign, x: int, y: int, p: int, lx: int, ly: int)
    ensures (x * p + lx) + Of(g, y * p + ly) == (x + Of(g, y)) * p + (lx + Of(g, ly))
  {
    assert (x + Of(g, y)) * p == x * p + Of(g, y * p);
  }

  /** If the whole program is right, its low bytes are. */
  lemma LowBytesRight(s: Cpu, g: Sign, a: int, b: int, r: int, n: nat, k: nat) returns (c: int)
    requires 0 < k <= n && Bytes(s) && Correct(s, g, a, b, r, n)
    ensures var h := n - k;
            Num(Program(s, g, a + h, b + h, r + h, k).mem, r + h, k)
            == Num(s.mem, a + h, k) + Of(g, Num(s.mem, b + h, k)) + c * Power(k)
  {
    hide Program, Num, Power, Bytes, Of, Read;
    var h := n - k;
    var t, u := Program(s, g, a, b, r, n), Program(s, g, a + h, b + h, r + h, k);
    var m := s.mem;
    assert Num(t.mem, r, n) == (Num(m, a, n) + Of(g, Num(m, b, n))) % Power(n);
    LowBytes(s, g, a, b, r, n, k);
    NumSame(u.mem, t.mem, r + h, k);
    NumSplit(t.mem, r, n, k);
    NumSplit(m, a, n, k);
    NumSplit(m, b, n, k);
    PowerSplit(n, k);
    SplitSum(g, Num(m, a, h), Num(m, b, h), Power(k), Num(m, a + h, k), Num(m, b + h, k));
    c := ReduceModulus(Num(t.mem, r, n), Num(m, a, n) + Of(g, Num(m, b, n)), Power(h), Power(k),
                       Num(t.mem, r, h), Num(t.mem, r + h, k),
                       Num(m, a, h) + Of(g, Num(m, b, h)), Num(m, a + h, k) + Of(g, Num(m, b + h, k)));
  }

  /** Memory with a single byte 1. */
  function Single(p: int): Cpu {
    Cpu(0, FromByte(0), 0, 1, 0, 0, map[p := 1])
  }

  /** The lowest result byte. */
  lemma LowestByte(s: Cpu, g: Sign, a: int, b: int, r: int, n: nat)
    requires n > 0 && Bytes(s)
    ensures Read(Program(s, g, a, b, r, n).mem, r + n - 1)
            == (Read(s.mem, a + n - 1) + Of(g, Read(s.mem, b + n - 1))) % BYTE
  {
    hide Program, Read;
    LowBytes(s, g, a, b, r, n, 1);
    OneByteProgram(s, g, a + n - 1, b + n - 1, r + n - 1);
  }

  lemma OneByteProgram(s: Cpu, g: Sign, a: int, b: int, r: int)
    requires Bytes(s)
    ensures Read(Program(s, g, a, b, r, 1).mem, r) == (Read(s.mem, a) + Of(g, Read(s.mem, b))) % BYTE
  {
    assert Program(s, g, a, b, r, 1) == ByteStep(s, g, a, b, r, true);
  }

  lemma ProgramStep(s: Cpu, g: Sign, a: int, b: int, r: int, d: nat)
    requires d > 0
    ensures Program(s, g, a, b, r, d + 1) == ByteStep(Program(s, g, a + 1, b + 1, r + 1, d), g, a, b, r, false)
  {
    hide ByteStep;
    assert Lower(s, g, a, b, r, d + 1) == Program(s, g, a + 1, b + 1, r + 1, d);
  }

  /** How far two digits that were overwritten put the result digit off. */
  function Off(s: Cpu, low: Cpu, g: Sign, a: int, b: int): int {
    Read(low.mem, a) - Read(s.mem, a) + Of(g, Read(low.mem, b) - Read(s.mem, b))
  }

  lemma OffBy(g: Sign, w: int, x: int, y: int, x0: int, y0: int, lx: int, ly: int, z: int, c: int)
    requires z + Of(g, (BYTE * w) * c) == (x * w + lx) + Of(g, y * w + ly)
    ensures z == (x0 * w + lx) + Of(g, y0 * w + ly) + w * (x - x0 + Of(g, y - y0)) + Of(g, -c) * (BYTE * w)
  {
    assert w * (x - x0 + Of(g, y - y0)) == x * w - x0 * w + Of(g, y * w - y0 * w);
    assert Of(g, -c) * (BYTE * w) == -Of(g, (BYTE * w) * c);
  }

  lemma NoFirst(s: Cpu)
    ensures Carry(s, false) == Bit(s.P.c)
  {
  }

  /** The digit above `d` right ones, whose operands may have been overwritten. */
  lemma TopDigitOff(s: Cpu, g: Sign, a: int, b: int, r: int, d: nat) returns (c: int)
    requires d > 0 && Bytes(s) && Safe(a + 1, r + 1, d) && Safe(b + 1, r + 1, d)
    ensures var low, t := Program(s, g, a + 1, b + 1, r + 1, d), Program(s, g, a, b, r, d + 1);
            Num(t.mem, r, d + 1) == Num(s.mem, a, d + 1) + Of(g, Num(s.mem, b, d + 1))
                                    + Power(d) * Off(s, low, g, a, b) + c * (BYTE * Power(d))
  {
    hide Program, ByteStep, Read, Num, Of, Safe, Power, Bytes;
    var low, t := Program(s, g, a + 1, b + 1, r + 1, d), Program(s, g, a, b, r, d + 1);
    ProgramStep(s, g, a, b, r, d);
    NumHead(t.mem, r, d);
    NumHead(s.mem, a, d);
    NumHead(s.mem, b, d);
    NoFirst(low);
    SumIsExact(s, g, a + 1, b + 1, r + 1, d);
    ProgramFrame(s, g, a + 1, b + 1, r + 1, d);
    ByteStepAdds(low, g, a, b, r, false);
    ByteStepFrame(low, g, a, b, r, false);
    NumSame(low.mem, t.mem, r + 1, d);
    var x, y, x0, y0 := Read(low.mem, a), Read(low.mem, b), Read(s.mem, a), Read(s.mem, b);
    DigitStep(g, Power(d), x, y, Bit(low.P.c), Read(t.mem, r), Bit(t.P.c),
              Num(s.mem, a + 1, d), Num(s.mem, b + 1, d), Num(t.mem, r + 1, d));
    OffBy(g, Power(d), x, y, x0, y0, Num(s.mem, a + 1, d), Num(s.mem, b + 1, d), Num(t.mem, r, d + 1), Bit(t.P.c));
    c := Of(g, -Bit(t.P.c));
  }

  /** A digit that is off by no multiple of 256 is wrong. */
  lemma OffIsWrong(w: int, off: int, c: int)
    requires w > 0 && w * off == c * (BYTE * w)
    ensures off % BYTE == 0
  {
    assert w * (off - BYTE * c) == 0;
    assert off == BYTE * c;
  }

  predicate FirstReached(g: Sign, a: int, b: int, r: int, d: nat) {
    && d > 0 && (a - r == d || b - r == d)
    && !(0 < a - r < d) && !(0 < b - r < d) && (g == Plus || a != b)
  }

  lemma SingleBytes(p: int)
    ensures Bytes(Single(p))
  {
  }

  /** Where the lowest result byte comes to lie on an operand, the digit made of it is off. */
  lemma DigitIsOff(g: Sign, a: int, b: int, r: int, d: nat)
    requires FirstReached(g, a, b, r, d)
    ensures var s := Single(r + 2 * d);
            Off(s, Program(s, g, a + 1, b + 1, r + 1, d), g, a, b) % BYTE != 0
  {
    hide Program, Bytes, Read, Single;
    var s := Single(r + 2 * d);
    SingleBytes(r + 2 * d);
    var low := Program(s, g, a + 1, b + 1, r + 1, d);
    LowestByte(s, g, a + 1, b + 1, r + 1, d);
    ProgramFrame(s, g, a + 1, b + 1, r + 1, d);
    SingleReads(r + 2 * d);
    var z := Read(low.mem, r + d);
    assert z == (Read(s.mem, a + d) + Of(g, Read(s.mem, b + d))) % BYTE;
    if a - r == d {
      if b - r == d {
        assert z == 2 && Off(s, low, g, a, b) == 4;
      } else {
        assert z == 1 && Off(s, low, g, a, b) == 1;
      }
    } else {
      assert Read(s.mem, b + d) == 1 && Read(s.mem, a + d) == 0;
      assert Off(s, low, g, a, b) == Of(g, z);
    }
  }

  lemma SingleReads(p: int)
    ensures forall j: int :: Read(Single(p).mem, j) == if j == p then 1 else 0
  {
  }

  /** With the destination `d` below an operand the program is wrong for some memory. */
  lemma WrongSomewhere(g: Sign, a: int, b: int, r: int, n: nat, d: nat)
    requires d < n && FirstReached(g, a, b, r, d)
    ensures var s := Single(r + d + n - 1); Bytes(s) && !Correct(s, g, a, b, r, n)
  {
    hide Program, Num, Correct, Bytes, Single, Read, Off, Power;
    var s, h := Single(r + d + n - 1), n - 1 - d;
    SingleBytes(r + d + n - 1);
    DigitIsOff(g, a + h, b + h, r + h, d);
    if Correct(s, g, a, b, r, n) {
      RightIsNotOff(s, g, a, b, r, n, d);
    }
  }

  lemma RightIsNotOff(s: Cpu, g: Sign, a: int, b: int, r: int, n: nat, d: nat)
    requires d < n && FirstReached(g, a, b, r, d) && Bytes(s) && Correct(s, g, a, b, r, n)
    ensures var h := n - 1 - d;
            Off(s, Program(s, g, a + h + 1, b + h + 1, r + h + 1, d), g, a + h, b + h) % BYTE == 0
  {
    hide Program, Num, Correct, Bytes, Power, Off, Of, Read;
    var h := n - 1 - d;
    var c := LowBytesRight(s, g, a, b, r, n, d + 1);
    var c' := TopDigitOff(s, g, a + h, b + h, r + h, d);
    PowerStep(d);
    SameDigit(Power(d), Off(s, Program(s, g, a + h + 1, b + h + 1, r + h + 1, d), g, a + h, b + h), c, c');
  }

  lemma SameDigit(w: int, off: int, c: int, c': int)
    requires w > 0 && c * (BYTE * w) == w * off + c' * (BYTE * w)
    ensures off % BYTE == 0
  {
    assert (c - c') * (BYTE * w) == c * (BYTE * w) - c' * (BYTE * w);
    OffIsWrong(w, off, c - c');
  }

  lemma PowerStep(d: nat)
    ensures Power(d + 1) == BYTE * Power(d)
  {
  }

  /** Subtracting a number from itself gives 0 wherever the result goes. */
  lemma {:induction false} SelfDifference(s: Cpu, a: int, r: int, n: nat)
    requires n > 0 && Bytes(s)
    ensures var t := Program(s, Minus, a, a, r, n); !t.P.c && Num(t.mem, r, n) == 0
    decreases n
  {
    var low := Lower(s, Minus, a, a, r, n);
    if n > 1 {
      SelfDifference(s, a + 1, r + 1, n - 1);
      ProgramFrame(s, Minus, a + 1, a + 1, r + 1, n - 1);
    }
    ByteStepAdds(low, Minus, a, a, r, n == 1);
    ByteStepFrame(low, Minus, a, a, r, n == 1);
    var t := Program(s, Minus, a, a, r, n);
    NumSame(low.mem, t.mem, r + 1, n - 1);
    assert IsByte(Read(t.mem, r));
  }

  lemma RightWhenSafe(s: Cpu, g: Sign, a: int, b: int, r: int, n: nat)
    requires n > 0 && Bytes(s) && Safe(a, r, n) && Safe(b, r, n)
    ensures Correct(s, g, a, b, r, n)
  {
    hide Program, Num, Power;
    SumModulo(s, g, a, b, r, n);
  }

  lemma RightForItself(s: Cpu, a: int, r: int, n: nat)
    requires n > 0 && Bytes(s)
    ensures Correct(s, Minus, a, a, r, n)
  {
    hide Program, Num, Power;
    SelfDifference(s, a, r, n);
    DivModUnique(0, Power(n), 0, 0);
  }

  /**
   * The program is right for every memory if and only if the destination does not start below an operand
   * and reach into it, or a number is subtracted from itself.
   */
  lemma CorrectIff(g: Sign, a: int, b: int, r: int, n: nat)
    requires n > 0
    ensures AlwaysCorrect(g, a, b, r, n) <==> (Safe(a, r, n) && Safe(b, r, n)) || (g == Minus && a == b)
  {
    hide Program, Num, Power, Correct, Bytes;
    if Safe(a, r, n) && Safe(b, r, n) {
      forall s: Cpu | Bytes(s)
        ensures Correct(s, g, a, b, r, n)
      {
        RightWhenSafe(s, g, a, b, r, n);
      }
    } else if g == Minus && a == b {
      forall s: Cpu | Bytes(s)
        ensures Correct(s, g, a, b, r, n)
      {
        RightForItself(s, a, r, n);
      }
    } else {
      var d := if !Safe(a, r, n) && (Safe(b, r, n) || a <= b) then a - r else b - r;
      WrongSomewhere(g, a, b, r, n, d);
    }
  }

  // ---------- long division ----------

  /** Quotient and remainder of the division by X. */
  predicate Divides(s: Cpu, a: int, q: int, n: nat) {
    s.X != 0 ==>
      var t := Divide(Clrh(s), a, q, n);
      Num(t.mem, q, n) == Num(s.mem, a, n) / s.X && t.H == Num(s.mem, a, n) % s.X
  }

  ghost predicate AlwaysDivides(a: int, q: int, n: nat) {
    forall s: Cpu :: Bytes(s) ==> Divides(s, a, q, n)
  }

  lemma {:induction false} DivideSplit(s: Cpu, a: int, q: int, n: nat, k: nat)
    requires k <= n
    ensures Divide(s, a, q, n) == Divide(Divide(s, a, q, k), a + k, q + k, n - k)
    decreases k
  {
    hide DivideByte;
    if k > 0 {
      var u := DivideByte(s, a, q);
      DivideSplit(u, a + 1, q + 1, n - 1, k - 1);
      assert Divide(s, a, q, k) == Divide(u, a + 1, q + 1, k - 1);
      assert a + 1 + (k - 1) == a + k && q + 1 + (k - 1) == q + k && n - 1 - (k - 1) == n - k;
    }
  }

  /** Division by 1 copies a byte. */
  lemma CopyByte(s: Cpu, a: int, q: int)
    requires Bytes(s) && s.X == 1 && s.H == 0
    ensures var t := DivideByte(s, a, q);
            Bytes(t) && t.X == 1 && t.H == 0 && Read(t.mem, q) == Read(s.mem, a)
  {
    hide DivideByte, Read, Bytes;
    HasRange(s);
    DivideByteDivides(s, a, q);
    HasRange(DivideByte(s, a, q));
  }

  lemma HasRange(s: Cpu)
    requires Bytes(s)
    ensures s.H >= 0 && s.X >= 0 && forall j: int :: IsByte(Read(s.mem, j))
  {
  }

  /** The first byte of a division by 1 is copied, and is still there after `k` bytes. */
  lemma FirstCopied(s: Cpu, a: int, q: int, k: nat)
    requires Bytes(s) && s.X == 1 && s.H == 0 && k > 0
    ensures Read(Divide(s, a, q, k).mem, q) == Read(s.mem, a)
  {
    CopyByte(s, a, q);
    DivideFrame(DivideByte(s, a, q), a + 1, q + 1, k - 1);
    hide DivideByte, Read;
  }

  /** A quotient that starts inside the dividend overwrites a byte before it is divided. */
  lemma QuotientTooLarge(a: int, q: int, n: nat)
    requires !SafeDown(a, q, n)
    ensures Bytes(Single(a)) && !Divides(Single(a), a, q, n)
  {
    var s, e := Clrh(Single(a)), q - a;
    SingleBytes(a);
    assert Bytes(s) && s.X == 1 && s.H == 0;
    SingleReads(a);
    var t1, t := Divide(s, a, q, e), Divide(s, a, q, n);
    hide Divide, Read, Bytes, Single, Power;
    FirstCopied(s, a, q, e);
    DivisionIsExact(s, a, q, e);
    HasRange(t1);
    DivideSplit(s, a, q, n, e);
    FirstCopied(t1, a + e, q + e, n - e);
    FirstCopied(s, a, q, n);
    DivisionBytes(s, a, q, n);
    HasRange(t);
    OneAtTheTop(s.mem, a, n);
    LargerThanTop(t.mem, q, n, e);
  }

  lemma DivisionBytes(s: Cpu, a: int, q: int, n: nat)
    requires Bytes(s) && s.X == 1 && s.H == 0
    ensures Bytes(Divide(s, a, q, n))
    decreases n
  {
    if n > 0 {
      CopyByte(s, a, q);
      DivisionBytes(DivideByte(s, a, q), a + 1, q + 1, n - 1);
    }
  }

  lemma {:induction false} NumZero(m: Memory, p: int, n: nat)
    requires forall j :: p <= j < p + n ==> Read(m, j) == 0
    ensures Num(m, p, n) == 0
    decreases n
  {
    if n > 0 {
      NumZero(m, p + 1, n - 1);
    }
  }

  lemma OneAtTheTop(m: Memory, p: int, n: nat)
    requires n > 0 && Read(m, p) == 1 && forall j :: p < j < p + n ==> Read(m, j) == 0
    ensures Num(m, p, n) == Power(n - 1)
  {
    NumZero(m, p + 1, n - 1);
  }

  lemma {:induction false} PositiveDigit(m: Memory, p: int, n: nat, e: nat)
    requires e < n && (forall j: int :: IsByte(Read(m, j))) && Read(m, p + e) > 0
    ensures Num(m, p, n) > 0
    decreases n
  {
    NumHead(m, p, n - 1);
    NumRange(m, p + 1, n - 1);
    if e > 0 {
      PositiveDigit(m, p + 1, n - 1, e - 1);
      MulMonotonic(Power(n - 1), 0, Read(m, p));
    } else {
      MulMonotonic(Power(n - 1), 1, Read(m, p));
    }
    assert Read(m, p) * Power(n - 1) == Power(n - 1) * Read(m, p);
    hide Num, Power, Read;
  }

  lemma LargerThanTop(m: Memory, p: int, n: nat, e: nat)
    requires 0 < e < n && (forall j: int :: IsByte(Read(m, j))) && Read(m, p) == 1 && Read(m, p + e) == 1
    ensures Num(m, p, n) > Power(n - 1)
  {
    PositiveDigit(m, p + 1, n - 1, e - 1);
    NumHead(m, p, n - 1);
  }

  /** The division is right for every dividend and divisor if and only if the quotient does not start inside the
      dividend. */
  lemma DividesIff(a: int, q: int, n: nat)
    ensures AlwaysDivides(a, q, n) <==> SafeDown(a, q, n)
  {
    hide Divides, Bytes;
    if SafeDown(a, q, n) {
      forall s: Cpu | Bytes(s)
        ensures Divides(s, a, q, n)
      {
        DividesWhenSafe(s, a, q, n);
      }
    } else {
      QuotientTooLarge(a, q, n);
    }
  }

  lemma DividesWhenSafe(s: Cpu, a: int, q: int, n: nat)
    requires Bytes(s) && SafeDown(a, q, n)
    ensures Divides(s, a, q, n)
  {
    hide Divide, Num;
    if s.X != 0 {
      LongDivision(s, a, q, n);
    }
  }
}
