/** Multi-byte programs made of the single-byte instructions: numbers are big-endian byte strings. */
module Hc08Programs {
  import opened Arith
  import opened Hc08

  predicate IsByte(b: int) {
    0 <= b < BYTE
  }

  ghost predicate Bytes(s: Cpu) {
    IsByte(s.A) && IsByte(s.X) && IsByte(s.H) && forall a: int :: IsByte(Read(s.mem, a))
  }

  function Power(n: nat): (r: nat)
    ensures r > 0
  {
    if n == 0 then 1 else BYTE * Power(n - 1)
  }

  /** The number in the `n` bytes from `p`, most significant byte first. */
  function Num(m: Memory, p: int, n: nat): int
    decreases n
  {
    if n == 0 then 0 else Read(m, p) * Power(n - 1) + Num(m, p + 1, n - 1)
  }

  /** The same bytes as a two's complement number. */
  function SignedNum(m: Memory, p: int, n: nat): int
    requires n > 0
  {
    Num(m, p, n) - (if Bit7(Read(m, p)) then Power(n) else 0)
  }

  lemma {:induction false} NumRange(m: Memory, p: int, n: nat)
    requires forall a: int :: IsByte(Read(m, a))
    ensures 0 <= Num(m, p, n) < Power(n)
    decreases n
  {
    if n > 0 {
      NumRange(m, p + 1, n - 1);
      var b, w := Read(m, p), Power(n - 1);
      MulMonotonic(w, 0, b);
      MulMonotonic(w, b, BYTE - 1);
      assert b * w == w * b;
    }
  }

  lemma {:induction false} NumSame(m: Memory, m': Memory, p: int, n: nat)
    requires forall j :: p <= j < p + n ==> Read(m', j) == Read(m, j)
    ensures Num(m', p, n) == Num(m, p, n)
    decreases n
  {
    if n > 0 {
      NumSame(m, m', p + 1, n - 1);
    }
  }

  /** Writing from the low end of the destination reaches no source byte that is still to be read. */
  predicate Safe(source: int, dest: int, n: nat) {
    source <= dest || dest + n <= source
  }

  // ---------- addition and subtraction ----------

  datatype Sign = Plus | Minus

  function Of(g: Sign, x: int): int {
    match g case Plus => x case Minus => -x
  }

  function Combine(s: Cpu, g: Sign, o: Operand, first: bool): Cpu {
    match g
    case Plus => if first then Add(s, o) else Adc(s, o)
    case Minus => if first then Sub(s, o) else Sbc(s, o)
  }

  /** One byte of the program: LDA, the instruction, STA. */
  function ByteStep(s: Cpu, g: Sign, a: int, b: int, r: int, first: bool): Cpu {
    Sta(Combine(Lda(s, At(a)), g, At(b), first), r)
  }

  /** LDA/ADD/STA on the lowest byte, then LDA/ADC/STA on each higher one (or SUB, SBC). */
  function Program(s: Cpu, g: Sign, a: int, b: int, r: int, n: nat): Cpu
    requires n > 0
    decreases n, 1
  {
    ByteStep(Lower(s, g, a, b, r, n), g, a, b, r, n == 1)
  }

  /** The program for all bytes but the highest. */
  function Lower(s: Cpu, g: Sign, a: int, b: int, r: int, n: nat): Cpu
    requires n > 0
    decreases n, 0
  {
    if n == 1 then s else Program(s, g, a + 1, b + 1, r + 1, n - 1)
  }

  /** The state before the last STA. */
  function BeforeLastStore(s: Cpu, g: Sign, a: int, b: int, r: int, n: nat): Cpu
    requires n > 0
  {
    Combine(Lda(Lower(s, g, a, b, r, n), At(a)), g, At(b), n == 1)
  }

  function Carry(s: Cpu, first: bool): int {
    if first then 0 else Bit(s.P.c)
  }

  function SignedByte(b: int): int {
    b - (if Bit7(b) then BYTE else 0)
  }

  /** The bits of a sum or difference of two bytes and a carry. */
  lemma ResultBits(q: int)
    requires -BYTE <= q < 2 * BYTE
    ensures Bit8(q) <==> !(0 <= q < BYTE)
    ensures q % BYTE == if q < 0 then q + BYTE else if q < BYTE then q else q - BYTE
    ensures Bit7(q) <==> q % BYTE >= 128
  {
    if q < 0 {
      assert q / 256 == -1 && q / 128 == (if q < -128 then -2 else -1);
    } else if q < BYTE {
      assert q / 256 == 0 && q / 128 == (if q < 128 then 0 else 1);
    } else {
      assert q / 256 == 1 && q / 128 == (if q < 384 then 2 else 3);
    }
  }

  lemma ByteSign(x: int)
    requires IsByte(x)
    ensures Bit7(x) <==> x >= 128
  {
  }

  /** V, the exclusive or of four bits, is the signed overflow. */
  lemma OverflowBit(g: Sign, x: int, y: int, d: int, q: int)
    requires IsByte(x) && IsByte(y) && 0 <= d <= 1 && q == x + Of(g, y + d)
    ensures var e := SignedByte(x) + Of(g, SignedByte(y) + d);
            (Bit7(x) != Bit7(y)) != (Bit7(q) != Bit8(q)) <==> !(-128 <= e < 128)
  {
    ResultBits(q);
    ByteSign(x);
    ByteSign(y);
    hide Bit7, Bit8;
  }

  /** One instruction: the result byte, the carry as the next digit, and V. */
  lemma OneByte(s: Cpu, g: Sign, o: Operand, first: bool)
    requires IsByte(s.A) && IsByte(Fetch(s, o))
    ensures var t := Combine(s, g, o, first);
            var e := SignedByte(s.A) + Of(g, SignedByte(Fetch(s, o)) + Carry(s, first));
            && IsByte(t.A)
            && t.A + Of(g, BYTE * Bit(t.P.c)) == s.A + Of(g, Fetch(s, o) + Carry(s, first))
            && (t.P.v <==> !(-128 <= e < 128))
            && t == s.(A := t.A, P := t.P)
  {
    hide Bit7, Bit8, SignedByte, Bit4, Fetch;
    var x, b, cin := s.A, Fetch(s, o), Carry(s, first);
    var q := x + Of(g, b + cin);
    var t := Combine(s, g, o, first);
    assert t.A == q % BYTE && t.P.c == Bit8(q) && t.P.v == ((Bit7(x) != Bit7(b)) != (Bit7(q) != Bit8(q)));
    ResultBits(q);
    OverflowBit(g, x, b, cin, q);
  }

  lemma ByteStepAdds(s: Cpu, g: Sign, a: int, b: int, r: int, first: bool)
    requires Bytes(s)
    ensures var t := ByteStep(s, g, a, b, r, first);
            && Read(t.mem, r) + Of(g, BYTE * Bit(t.P.c)) == Read(s.mem, a) + Of(g, Read(s.mem, b) + Carry(s, first))
  {
    OneByte(Lda(s, At(a)), g, At(b), first);
    hide Combine;
  }

  lemma ByteStepFrame(s: Cpu, g: Sign, a: int, b: int, r: int, first: bool)
    requires Bytes(s)
    ensures var t := ByteStep(s, g, a, b, r, first);
            && Bytes(t)
            && t == s.(A := t.A, P := t.P, mem := t.mem)
            && (forall j: int :: j != r ==> Read(t.mem, j) == Read(s.mem, j))
  {
    hide Combine;
    OneByte(Lda(s, At(a)), g, At(b), first);
    var t := ByteStep(s, g, a, b, r, first);
    forall j: int
      ensures IsByte(Read(t.mem, j)) && (j != r ==> Read(t.mem, j) == Read(s.mem, j))
    {
      assert IsByte(Read(s.mem, j));
    }
  }

  /** What the program leaves alone. */
  lemma {:induction false} ProgramFrame(s: Cpu, g: Sign, a: int, b: int, r: int, n: nat)
    requires n > 0 && Bytes(s)
    ensures var t := Program(s, g, a, b, r, n);
            && Bytes(t)
            && t == s.(A := t.A, P := t.P, mem := t.mem)
            && (forall j: int :: j < r || r + n <= j ==> Read(t.mem, j) == Read(s.mem, j))
    decreases n
  {
    if n > 1 {
      ProgramFrame(s, g, a + 1, b + 1, r + 1, n - 1);
    }
    var u := Lower(s, g, a, b, r, n);
    ByteStepFrame(u, g, a, b, r, n == 1);
    hide ByteStep, Read;
  }

  lemma Distribute(w: nat, x: int, y: int, z: int)
    ensures w * (x + y) == w * x + w * y && w * (BYTE * z) == (BYTE * w) * z
  {
  }

  /** The top digit `x`, `y` and the carry `d` from below make digit `z` and carry `c`. */
  lemma DigitStep(g: Sign, w: nat, x: int, y: int, d: int, z: int, c: int, lx: int, ly: int, lz: int)
    requires z + Of(g, BYTE * c) == x + Of(g, y + d)
    requires lz + Of(g, w * d) == lx + Of(g, ly)
    ensures (z * w + lz) + Of(g, (BYTE * w) * c) == (x * w + lx) + Of(g, y * w + ly)
  {
    var k := z + Of(g, BYTE * c);
    assert w * k == w * z + Of(g, (BYTE * w) * c) by {
      Distribute(w, z, Of(g, BYTE * c), c);
    }
    assert w * k == w * x + Of(g, w * y + w * d) by {
      Distribute(w, x, Of(g, y + d), 0);
      Distribute(w, y, d, 0);
    }
  }

  /**
   * The program adds (or subtracts) `n`-byte numbers: the result and the final carry (or borrow), as
   * the digit above the result, make the exact sum (or difference).
   */
  lemma {:induction false} SumIsExact(s: Cpu, g: Sign, a: int, b: int, r: int, n: nat)
    requires n > 0 && Bytes(s) && Safe(a, r, n) && Safe(b, r, n)
    ensures var t := Program(s, g, a, b, r, n);
            Num(t.mem, r, n) + Of(g, Power(n) * Bit(t.P.c)) == Num(s.mem, a, n) + Of(g, Num(s.mem, b, n))
    decreases n
  {
    hide Read, Of, ByteStep, Lower, Carry, Safe;
    var low := Lower(s, g, a, b, r, n);
    var t := Program(s, g, a, b, r, n);
    LowerIsExact(s, g, a, b, r, n);
    ByteStepAdds(low, g, a, b, r, n == 1);
    ByteStepFrame(low, g, a, b, r, n == 1);
    NumSame(low.mem, t.mem, r + 1, n - 1);
    DigitStep(g, Power(n - 1), Read(s.mem, a), Read(s.mem, b), Carry(low, n == 1),
              Read(t.mem, r), Bit(t.P.c),
              Num(s.mem, a + 1, n - 1), Num(s.mem, b + 1, n - 1), Num(t.mem, r + 1, n - 1));
  }

  lemma LowerIsExact(s: Cpu, g: Sign, a: int, b: int, r: int, n: nat)
    requires n > 0 && Bytes(s) && Safe(a, r, n) && Safe(b, r, n)
    ensures var t := Lower(s, g, a, b, r, n);
            && Bytes(t)
            && Read(t.mem, a) == Read(s.mem, a) && Read(t.mem, b) == Read(s.mem, b)
            && Num(t.mem, r + 1, n - 1) + Of(g, Power(n - 1) * Carry(t, n == 1))
               == Num(s.mem, a + 1, n - 1) + Of(g, Num(s.mem, b + 1, n - 1))
    decreases n, 0
  {
    if n > 1 {
      ProgramFrame(s, g, a + 1, b + 1, r + 1, n - 1);
      SumIsExact(s, g, a + 1, b + 1, r + 1, n - 1);
    }
  }

  /** Modulo 256^n, with the carry set exactly when the exact result does not fit. */
  lemma SumModulo(s: Cpu, g: Sign, a: int, b: int, r: int, n: nat)
    requires n > 0 && Bytes(s) && Safe(a, r, n) && Safe(b, r, n)
    ensures var t := Program(s, g, a, b, r, n);
            var exact := Num(s.mem, a, n) + Of(g, Num(s.mem, b, n));
            && Num(t.mem, r, n) == exact % Power(n)
            && (t.P.c <==> !(0 <= exact < Power(n)))
  {
    var t := Program(s, g, a, b, r, n);
    SumIsExact(s, g, a, b, r, n);
    ProgramFrame(s, g, a, b, r, n);
    NumRange(t.mem, r, n);
    var exact := Num(s.mem, a, n) + Of(g, Num(s.mem, b, n));
    var c := Of(g, Bit(t.P.c));
    assert Of(g, Power(n) * Bit(t.P.c)) == Power(n) * c;
    DivModUnique(exact, Power(n), c, Num(t.mem, r, n));
  }

  lemma TopDigitDecides(w: nat, q: int, e: int)
    requires 0 <= e < w
    ensures -128 * w <= w * q + e < 128 * w <==> -128 <= q < 128
  {
    if q >= 128 {
      MulMonotonic(w, 128, q);
    } else if q >= -128 {
      MulMonotonic(w, -128, q);
      MulMonotonic(w, q, 127);
    } else {
      MulMonotonic(w, q, -129);
    }
  }

  /** Before the last store V says that the signed `n`-byte result is out of range. */
  lemma SignedOverflow(s: Cpu, g: Sign, a: int, b: int, r: int, n: nat)
    requires n > 0 && Bytes(s) && Safe(a, r, n) && Safe(b, r, n)
    ensures var exact := SignedNum(s.mem, a, n) + Of(g, SignedNum(s.mem, b, n));
            BeforeLastStore(s, g, a, b, r, n).P.v <==> !(-128 * Power(n - 1) <= exact < 128 * Power(n - 1))
  {
    var low := Lower(s, g, a, b, r, n);
    LowerIsExact(s, g, a, b, r, n);
    NumRange(low.mem, r + 1, n - 1);
    var w, d := Power(n - 1), Carry(low, n == 1);
    var x, y := SignedByte(Read(s.mem, a)), SignedByte(Read(s.mem, b));
    var e := Num(low.mem, r + 1, n - 1);
    var q := x + Of(g, y + d);
    assert BeforeLastStore(s, g, a, b, r, n).P.v <==> !(-128 <= q < 128) by {
      OneByte(Lda(low, At(a)), g, At(b), n == 1);
      hide Combine, SignedByte;
    }
    SignedSplit(s.mem, a, n);
    SignedSplit(s.mem, b, n);
    hide BeforeLastStore, SignedNum, SignedByte, Num, Read, Lower, Carry, Power, Bytes;
    SignedDigits(g, w, x, y, d, Num(s.mem, a + 1, n - 1), Num(s.mem, b + 1, n - 1), e);
    TopDigitDecides(w, q, e);
  }

  lemma SignedDigits(g: Sign, w: nat, x: int, y: int, d: int, lx: int, ly: int, lz: int)
    requires lz + Of(g, w * d) == lx + Of(g, ly)
    ensures w * (x + Of(g, y + d)) + lz == (w * x + lx) + Of(g, w * y + ly)
  {
    Distribute(w, x, Of(g, y + d), 0);
    Distribute(w, y, d, 0);
    assert w * Of(g, y + d) == Of(g, w * (y + d));
  }

  lemma SignedSplit(m: Memory, p: int, n: nat)
    requires n > 0
    ensures SignedNum(m, p, n) == Power(n - 1) * SignedByte(Read(m, p)) + Num(m, p + 1, n - 1)
  {
    Distribute(Power(n - 1), Read(m, p), -(if Bit7(Read(m, p)) then BYTE else 0), 0);
  }

  /** The store that ends the program clears V, so no overflow shows after it. */
  lemma FinalVIsClear(s: Cpu, g: Sign, a: int, b: int, r: int, n: nat)
    requires n > 0
    ensures Program(s, g, a, b, r, n) == Sta(BeforeLastStore(s, g, a, b, r, n), r)
    ensures !Program(s, g, a, b, r, n).P.v
  {
    hide Combine, Lower;
  }

  // ---------- long division ----------

  /** One byte of a long division. */
  function DivideByte(s: Cpu, a: int, q: int): Cpu {
    Sta(Div(Lda(s, At(a))), q)
  }

  /** LDA a; DIV; STA q for each byte from the top. */
  function Divide(s: Cpu, a: int, q: int, n: nat): Cpu
    decreases n
  {
    if n == 0 then s else Divide(DivideByte(s, a, q), a + 1, q + 1, n - 1)
  }

  /** Each DIV of the run finds H < X and reports no overflow. */
  predicate NeverOverflows(s: Cpu, a: int, q: int, n: nat)
    decreases n
  {
    n > 0 ==>
      s.H < s.X && !Div(Lda(s, At(a))).P.c && NeverOverflows(DivideByte(s, a, q), a + 1, q + 1, n - 1)
  }

  /** Writing from the top end of the destination reaches no source byte that is still to be read. */
  predicate SafeDown(source: int, dest: int, n: nat) {
    dest <= source || source + n <= dest
  }

  lemma ByteQuotient(h: int, a: int, x: int)
    requires IsByte(a) && 0 <= h < x
    ensures var d := h * BYTE + a;
            0 <= d / x <= 0xff && 0 <= d % x < x && d / x * x + d % x == d
  {
    var d := h * BYTE + a;
    var q := d / x;
    assert x * q + d % x == d;
    if q > 0xff {
      MulMonotonic(x, BYTE, q);
    } else if q < 0 {
      MulMonotonic(x, q, -1);
    }
  }

  lemma OneDivision(s: Cpu)
    requires IsByte(s.A) && IsByte(s.X) && 0 <= s.H < s.X
    ensures var t := Div(s);
            && !t.P.c && IsByte(t.A) && 0 <= t.H < t.X == s.X
            && t.A * s.X + t.H == s.H * BYTE + s.A
            && t == s.(A := t.A, H := t.H, P := t.P)
  {
    ByteQuotient(s.H, s.A, s.X);
  }

  lemma DivideByteDivides(s: Cpu, a: int, q: int)
    requires Bytes(s) && s.H < s.X
    ensures var t := DivideByte(s, a, q);
            && Bytes(t) && t.H < t.X == s.X && !t.P.c && !Div(Lda(s, At(a))).P.c
            && Read(t.mem, q) * s.X + t.H == s.H * BYTE + Read(s.mem, a)
            && (forall j: int :: j != q ==> Read(t.mem, j) == Read(s.mem, j))
  {
    hide Div;
    OneDivision(Lda(s, At(a)));
    var t := DivideByte(s, a, q);
    forall j: int
      ensures IsByte(Read(t.mem, j)) && (j != q ==> Read(t.mem, j) == Read(s.mem, j))
    {
      assert IsByte(Read(s.mem, j));
    }
  }

  lemma DivisionStep(w: nat, x: int, h: int, b: int, q: int, h': int, rest: int, lowQ: int, rem: int)
    requires q * x + h' == h * BYTE + b
    requires lowQ * x + rem == h' * w + rest
    ensures (q * w + lowQ) * x + rem == h * (BYTE * w) + (b * w + rest)
  {
    assert (q * w + lowQ) * x == (q * x) * w + lowQ * x;
    assert (q * x + h') * w == (q * x) * w + h' * w;
    assert (h * BYTE + b) * w == h * (BYTE * w) + b * w;
  }

  lemma {:induction false} DivideFrame(s: Cpu, a: int, q: int, n: nat)
    ensures forall j: int :: j < q || q + n <= j ==> Read(Divide(s, a, q, n).mem, j) == Read(s.mem, j)
    decreases n
  {
    if n > 0 {
      DivideFrame(DivideByte(s, a, q), a + 1, q + 1, n - 1);
    }
  }

  lemma {:induction false} DivisionIsExact(s: Cpu, a: int, q: int, n: nat)
    requires Bytes(s) && s.H < s.X && SafeDown(a, q, n)
    ensures var t := Divide(s, a, q, n);
            && Bytes(t) && t.X == s.X && t.H < t.X
            && Num(t.mem, q, n) * s.X + t.H == s.H * Power(n) + Num(s.mem, a, n)
            && NeverOverflows(s, a, q, n)
            && (n > 0 ==> !t.P.c)
    decreases n
  {
    if n > 0 {
      var u := DivideByte(s, a, q);
      assert Power(n) == BYTE * Power(n - 1);
      assert Num(s.mem, a, n) == Read(s.mem, a) * Power(n - 1) + Num(s.mem, a + 1, n - 1);
      hide Read, DivideByte, Div, Lda, Power, Bytes;
      DivideByteDivides(s, a, q);
      DivisionIsExact(u, a + 1, q + 1, n - 1);
      DivideFrame(u, a + 1, q + 1, n - 1);
      NumSame(s.mem, u.mem, a + 1, n - 1);
      var t := Divide(u, a + 1, q + 1, n - 1);
      DivisionStep(Power(n - 1), s.X, s.H, Read(s.mem, a), Read(u.mem, q), u.H,
                   Num(s.mem, a + 1, n - 1), Num(t.mem, q + 1, n - 1), t.H);
    }
  }

  /** CLRH and the loop compute the n-byte quotient and leave the remainder in H. */
  lemma LongDivision(s: Cpu, a: int, q: int, n: nat)
    requires Bytes(s) && s.X != 0 && SafeDown(a, q, n)
    ensures var t := Divide(Clrh(s), a, q, n);
            && Num(t.mem, q, n) == Num(s.mem, a, n) / s.X
            && t.H == Num(s.mem, a, n) % s.X
            && NeverOverflows(Clrh(s), a, q, n)
  {
    assert Bytes(Clrh(s)) && s.X > 0;
    hide Divide, Num, Power, NeverOverflows;
    DivisionIsExact(Clrh(s), a, q, n);
    var t := Divide(Clrh(s), a, q, n);
    assert 0 * Power(n) == 0;
    assert s.X * Num(t.mem, q, n) == Num(t.mem, q, n) * s.X;
    DivModUnique(Num(s.mem, a, n), s.X, Num(t.mem, q, n), t.H);
  }

  lemma {:induction false} DivisionByZero(s: Cpu, a: int, q: int, n: nat)
    requires s.X == 0 && n > 0
    ensures Divide(s, a, q, n).P.c && Divide(s, a, q, n).H == s.H
    decreases n
  {
    if n > 1 {
      DivisionByZero(DivideByte(s, a, q), a + 1, q + 1, n - 1);
    }
  }

  /** After CLRH the carry at the end of the program reports exactly a zero divisor. */
  lemma CarryReportsZeroDivisor(s: Cpu, a: int, q: int, n: nat)
    requires Bytes(s) && SafeDown(a, q, n) && n > 0
    ensures Divide(Clrh(s), a, q, n).P.c <==> s.X == 0
  {
    if s.X == 0 {
      DivisionByZero(Clrh(s), a, q, n);
    } else {
      DivisionIsExact(Clrh(s), a, q, n);
    }
  }
}
