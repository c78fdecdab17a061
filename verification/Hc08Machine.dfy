/** The programs as the processor object runs them, instruction by instruction. */
module Hc08Machine {
  import opened Hc08
  import opened Hc08Programs
  import opened Hc08Multiply

  /** LDA a; ADD, ADC, SUB or SBC b; STA r. */
  method RunByte(p: Processor, g: Sign, a: int, b: int, r: int, first: bool)
    modifies p
    ensures p.State() == ByteStep(old(p.State()), g, a, b, r, first)
  {
    hide Lda, Sta, Add, Adc, Sub, Sbc;
    p.InstLda(At(a));
    match g {
      case Plus =>
        if first {
          p.InstAdd(At(b));
        } else {
          p.InstAdc(At(b));
        }
      case Minus =>
        if first {
          p.InstSub(At(b));
        } else {
          p.InstSbc(At(b));
        }
    }
    p.InstSta(r);
  }

  lemma FirstByteStep(s: Cpu, g: Sign, a: int, b: int, r: int)
    ensures Program(s, g, a, b, r, 1) == ByteStep(s, g, a, b, r, true)
  {
    hide ByteStep;
  }

  lemma NextByteStep(s: Cpu, g: Sign, a: int, b: int, r: int, n: nat)
    requires n > 1
    ensures Program(s, g, a, b, r, n) == ByteStep(Program(s, g, a + 1, b + 1, r + 1, n - 1), g, a, b, r, false)
  {
    hide ByteStep;
  }

  /** Adding or subtracting `n`-byte numbers: the result is right modulo 256^n and C tells whether it fits. */
  method RunSum(p: Processor, g: Sign, a: int, b: int, r: int, n: nat)
    requires n > 0 && Bytes(p.State())
    modifies p
    ensures p.State() == Program(old(p.State()), g, a, b, r, n)
    ensures Safe(a, r, n) && Safe(b, r, n) ==>
              var exact := Num(old(p.mem), a, n) + Of(g, Num(old(p.mem), b, n));
              Num(p.mem, r, n) == exact % Power(n) && (p.P.c <==> !(0 <= exact < Power(n)))
  {
    hide Bytes, Program, ByteStep, Num, Power, Safe;
    ghost var s := p.State();
    FirstByteStep(s, g, a + n - 1, b + n - 1, r + n - 1);
    RunByte(p, g, a + n - 1, b + n - 1, r + n - 1, true);
    var i := n - 1;
    while i > 0
      invariant 0 <= i < n
      invariant p.State() == Program(s, g, a + i, b + i, r + i, n - i)
    {
      i := i - 1;
      NextByteStep(s, g, a + i, b + i, r + i, n - i);
      RunByte(p, g, a + i, b + i, r + i, false);
    }
    if Safe(a, r, n) && Safe(b, r, n) {
      SumModulo(s, g, a, b, r, n);
    }
  }

  lemma DivideOneByte(s: Cpu, a: int, q: int, n: nat)
    requires n > 0
    ensures Divide(s, a, q, n) == Divide(Sta(Div(Lda(s, At(a))), q), a + 1, q + 1, n - 1)
  {
    hide Lda, Div, Sta;
  }

  lemma DivideNothing(s: Cpu, a: int, q: int)
    ensures Divide(s, a, q, 0) == s
  {
  }

  /** Dividing an `n`-byte number by X: the quotient in memory and the remainder in H. */
  method RunDivision(p: Processor, a: int, q: int, n: nat)
    requires Bytes(p.State())
    modifies p
    ensures p.State() == Divide(Clrh(old(p.State())), a, q, n)
    ensures old(p.X) != 0 && SafeDown(a, q, n) ==>
              Num(p.mem, q, n) == Num(old(p.mem), a, n) / old(p.X) && p.H == Num(old(p.mem), a, n) % old(p.X)
  {
    hide Bytes, Lda, Div, Sta, Num, SafeDown, Clrh, Divide;
    ghost var s := p.State();
    p.InstClrh();
    for i := 0 to n
      invariant Divide(p.State(), a + i, q + i, n - i) == Divide(Clrh(s), a, q, n)
    {
      DivideOneByte(p.State(), a + i, q + i, n - i);
      p.InstLda(At(a + i));
      p.InstDiv();
      p.InstSta(q + i);
    }
    DivideNothing(p.State(), a + n, q + n);
    if s.X != 0 && SafeDown(a, q, n) {
      LongDivision(s, a, q, n);
    }
  }

  /** LDX m; LDA a; MUL; ADD c; STA r; TXA; ADC #0; STA c. */
  method RunProductByte(p: Processor, l: Layout)
    modifies p
    ensures p.State() == MultiplyByte(old(p.State()), l)
  {
    hide Ldx, Lda, Mul, Add, Sta, Txa, Adc;
    p.InstLdx(At(l.m));
    p.InstLda(At(l.a));
    p.InstMul();
    p.InstAdd(At(l.c));
    p.InstSta(l.r);
    p.InstTxa();
    p.InstAdc(Immediate(0));
    p.InstSta(l.c);
  }

  lemma NextProductByte(s: Cpu, l: Layout, n: nat)
    requires n > 0
    ensures Multiply(s, l, n) == MultiplyByte(Multiply(s, Shifted(l, 1), n - 1), l)
  {
    hide MultiplyByte;
  }

  /** Multiplying an `n`-byte number by a byte: the low bytes in memory and the rest in the carry byte. */
  method RunProduct(p: Processor, l: Layout, n: nat)
    requires Bytes(p.State())
    modifies p
    ensures p.State() == Multiply(old(p.State()), l, n)
    ensures Placed(l, n) && Read(old(p.mem), l.c) == 0 ==>
              var exact := Num(old(p.mem), l.a, n) * Read(old(p.mem), l.m);
              Num(p.mem, l.r, n) == exact % Power(n) && Read(p.mem, l.c) == exact / Power(n)
  {
    ghost var s := p.State();
    RunProductBytes(p, l, n);
    if Placed(l, n) && Read(s.mem, l.c) == 0 {
      hide Bytes, Multiply, Num, Power, Placed, Read;
      ProductModulo(s, l, n);
    }
  }

  method RunProductBytes(p: Processor, l: Layout, n: nat)
    modifies p
    ensures p.State() == Multiply(old(p.State()), l, n)
  {
    hide MultiplyByte;
    ghost var s := p.State();
    var i := n;
    while i > 0
      invariant 0 <= i <= n
      invariant p.State() == Multiply(s, Shifted(l, i), n - i)
    {
      i := i - 1;
      NextProductByte(s, Shifted(l, i), n - i);
      RunProductByte(p, Shifted(l, i));
    }
  }
}
