/** Multiplication of a multi-byte number by a byte: MUL leaves sixteen bits, ADD and ADC carry them upward. */
module Hc08Multiply {
  import opened Arith
  import opened Hc08
  import opened Hc08Programs

  /** Where things are: the factor, the carry byte, the number and the result. */
  datatype Layout = Layout(m: int, c: int, a: int, r: int)

  /** LDX m; LDA a; MUL; ADD c; STA r. */
  function LowHalf(s: Cpu, l: Layout): Cpu {
    Sta(Add(Mul(Lda(Ldx(s, At(l.m)), At(l.a))), At(l.c)), l.r)
  }

  /** TXA; ADC #0; STA c. */
  function HighHalf(s: Cpu, l: Layout): Cpu {
    Sta(Adc(Txa(s), Immediate(0)), l.c)
  }

  /** One byte of the program. */
  function MultiplyByte(s: Cpu, l: Layout): Cpu {
    HighHalf(LowHalf(s, l), l)
  }

  function Shifted(l: Layout, i: int): Layout {
    l.(a := l.a + i, r := l.r + i)
  }

  function Higher(l: Layout): Layout {
    Shifted(l, 1)
  }

  /** The program: the bytes from the lowest up. */
  function Multiply(s: Cpu, l: Layout, n: nat): Cpu
    decreases n
  {
    if n == 0 then s else MultiplyByte(Multiply(s, Higher(l), n - 1), l)
  }

  predicate Outside(x: int, p: int, n: nat) {
    x < p || p + n <= x
  }

  /** From the second byte on: the carry byte is neither the factor nor a byte of the number still to be read, and
      the result overwrites neither the factor nor such a byte. */
  predicate Apart(l: Layout, n: nat)
    requires n > 0
  {
    l.m != l.c && !(l.r < l.m < l.r + n) && Outside(l.c, l.a, n - 1) && Safe(l.a, l.r, n)
  }

  /** The carry byte is no byte of the result, and nothing is overwritten that is still to be read. */
  predicate Placed(l: Layout, n: nat) {
    Outside(l.c, l.r, n) && (n <= 1 || Apart(l, n))
  }

  /** A product of two bytes plus a byte fits in two. */
  lemma ProductFits(x: int, y: int, c: int)
    requires IsByte(x) && IsByte(y) && IsByte(c)
    ensures 0 <= x * y + c < BYTE * 255 + BYTE && 0 <= x * y / BYTE < 255 && 0 <= x * y
  {
    MulMonotonic(x, 0, y);
    MulMonotonic(x, y, 255);
    assert x * 255 <= 255 * 255;
  }

  /** The byte sum of MUL's low byte and the carry, and what its own carry adds to the high byte. */
  lemma TwoDigits(p: int, c: int)
    requires 0 <= p < BYTE * 255 && IsByte(c)
    ensures var q := p % BYTE + c;
            0 <= q < 2 * BYTE && q % BYTE + BYTE * (p / BYTE % BYTE + q / BYTE) == p + c
            && 0 <= p / BYTE % BYTE + q / BYTE < BYTE && 0 <= q / BYTE <= 1
  {
    var q := p % BYTE + c;
    assert 0 <= p / BYTE < 255;
    assert p / BYTE % BYTE == p / BYTE;
    assert q == BYTE * (q / BYTE) + q % BYTE;
  }

  lemma LowHalfDoes(s: Cpu, l: Layout)
    requires Bytes(s)
    ensures var t := LowHalf(s, l);
            var p := Read(s.mem, l.a) * Read(s.mem, l.m);
            var q := p % BYTE + Read(s.mem, l.c);
            t.X == p / BYTE % BYTE && t.mem == s.mem[l.r := q % BYTE] && (t.P.c <==> q / BYTE == 1)
            && t.H == s.H
  {
    var x, y, c := Read(s.mem, l.a), Read(s.mem, l.m), Read(s.mem, l.c);
    var q := x * y % BYTE + c;
    assert IsByte(x) && IsByte(y) && IsByte(c);
    hide IsByte, Read, Bit7, Bit4;
    ProductFits(x, y, c);
    TwoDigits(x * y, c);
    ResultBits(q);
    assert Bit8(q) <==> q / BYTE == 1;
  }

  lemma HighHalfDoes(s: Cpu, l: Layout)
    requires IsByte(s.X) && 0 <= s.X + Bit(s.P.c) < BYTE
    ensures var t := HighHalf(s, l);
            t.mem == s.mem[l.c := s.X + Bit(s.P.c)] && t.A == s.X + Bit(s.P.c) && t.X == s.X && t.H == s.H
  {
    hide Bit7, Bit4, Bit8;
  }

  lemma MultiplyByteDoes(s: Cpu, l: Layout)
    requires Bytes(s)
    ensures var p := Read(s.mem, l.a) * Read(s.mem, l.m);
            var q := p % BYTE + Read(s.mem, l.c);
            var k := p / BYTE % BYTE + q / BYTE;
            var t := MultiplyByte(s, l);
            && t.mem == s.mem[l.r := q % BYTE][l.c := k] && IsByte(k) && IsByte(q % BYTE)
            && IsByte(t.A) && IsByte(t.X) && t.H == s.H
            && q % BYTE + BYTE * k == p + Read(s.mem, l.c)
  {
    hide LowHalf, HighHalf, Read, Bytes;
    var x, y, c := Read(s.mem, l.a), Read(s.mem, l.m), Read(s.mem, l.c);
    AllBytes(s, l);
    LowHalfDoes(s, l);
    ProductFits(x, y, c);
    TwoDigits(x * y, c);
    HighHalfDoes(LowHalf(s, l), l);
  }

  lemma AllBytes(s: Cpu, l: Layout)
    requires Bytes(s)
    ensures IsByte(Read(s.mem, l.a)) && IsByte(Read(s.mem, l.m)) && IsByte(Read(s.mem, l.c))
  {
  }

  /** One byte: the result digit and the new carry byte make the product plus the old carry byte. */
  lemma OneByteProduct(s: Cpu, l: Layout)
    requires Bytes(s) && l.c != l.r
    ensures var t := MultiplyByte(s, l);
            && Read(t.mem, l.r) + BYTE * Read(t.mem, l.c) == Read(s.mem, l.a) * Read(s.mem, l.m) + Read(s.mem, l.c)
            && Bytes(t)
            && (forall j: int :: j != l.r && j != l.c ==> Read(t.mem, j) == Read(s.mem, j))
  {
    hide MultiplyByte;
    MultiplyByteDoes(s, l);
    var p := Read(s.mem, l.a) * Read(s.mem, l.m);
    var q := p % BYTE + Read(s.mem, l.c);
    TwoWrites(s, MultiplyByte(s, l), l.r, q % BYTE, l.c, p / BYTE % BYTE + q / BYTE);
  }

  lemma TwoWrites(s: Cpu, t: Cpu, r: int, z: int, c: int, k: int)
    requires Bytes(s) && t.mem == s.mem[r := z][c := k] && r != c && IsByte(z) && IsByte(k)
    requires IsByte(t.A) && IsByte(t.X) && t.H == s.H
    ensures Read(t.mem, r) == z && Read(t.mem, c) == k && Bytes(t)
    ensures forall j: int :: j != r && j != c ==> Read(t.mem, j) == Read(s.mem, j)
  {
    forall j: int
      ensures IsByte(Read(t.mem, j)) && (j != r && j != c ==> Read(t.mem, j) == Read(s.mem, j))
    {
      assert IsByte(Read(s.mem, j));
    }
  }

  /** What the program leaves alone. */
  lemma {:induction false} MultiplyFrame(s: Cpu, l: Layout, n: nat)
    requires Bytes(s) && Outside(l.c, l.r, n)
    ensures var t := Multiply(s, l, n);
            Bytes(t) && forall j: int :: Outside(j, l.r, n) && j != l.c ==> Read(t.mem, j) == Read(s.mem, j)
    decreases n
  {
    hide MultiplyByte, Read, Bytes;
    if n > 0 {
      MultiplyFrame(s, Higher(l), n - 1);
      OneByteProduct(Multiply(s, Higher(l), n - 1), l);
    }
  }

  lemma ProductStep(w: nat, x: int, y: int, d: int, z: int, c: int, low: int, lowR: int, c0: int)
    requires z + BYTE * c == x * y + d && lowR + d * w == low * y + c0
    ensures (z * w + lowR) + c * (BYTE * w) == (x * w + low) * y + c0
  {
    assert (z + BYTE * c) * w == (x * y + d) * w;
    assert (z + BYTE * c) * w == z * w + c * (BYTE * w);
    assert (x * y + d) * w == (x * w) * y + d * w;
    assert (x * w + low) * y == (x * w) * y + low * y;
  }

  lemma TopByte(m: Memory, p: int, n: nat)
    requires n > 0
    ensures Num(m, p, n) == Read(m, p) * Power(n - 1) + Num(m, p + 1, n - 1) && Power(n) == BYTE * Power(n - 1)
  {
  }

  /** The result and the final carry byte, as the digit above it, make the exact product plus the first carry. */
  lemma {:induction false} ProductIsExact(s: Cpu, l: Layout, n: nat)
    requires Bytes(s) && Placed(l, n)
    ensures var t := Multiply(s, l, n);
            Num(t.mem, l.r, n) + Read(t.mem, l.c) * Power(n) == Num(s.mem, l.a, n) * Read(s.mem, l.m) + Read(s.mem, l.c)
    decreases n
  {
    if n == 0 {
    } else {
      ProductOfTop(s, l, n);
    }
  }

  lemma {:induction false} ProductOfTop(s: Cpu, l: Layout, n: nat)
    requires Bytes(s) && Placed(l, n) && n > 0
    ensures var t := Multiply(s, l, n);
            Num(t.mem, l.r, n) + Read(t.mem, l.c) * Power(n) == Num(s.mem, l.a, n) * Read(s.mem, l.m) + Read(s.mem, l.c)
    decreases n, 0
  {
    hide MultiplyByte, Read, Power, Num, Bytes;
    var h := Higher(l);
    var u, t := Multiply(s, h, n - 1), Multiply(s, l, n);
    TopByte(s.mem, l.a, n);
    TopByte(t.mem, l.r, n);
    ProductIsExact(s, h, n - 1);
    MultiplyFrame(s, h, n - 1);
    OneByteProduct(u, l);
    NumSame(u.mem, t.mem, l.r + 1, n - 1);
    assert Read(u.mem, l.a) == Read(s.mem, l.a) && Read(u.mem, l.m) == Read(s.mem, l.m);
    ProductStep(Power(n - 1), Read(s.mem, l.a), Read(s.mem, l.m), Read(u.mem, l.c), Read(t.mem, l.r), Read(t.mem, l.c),
                Num(s.mem, l.a + 1, n - 1), Num(u.mem, l.r + 1, n - 1), Read(s.mem, l.c));
  }

  lemma FitsIff(exact: int, w: int, k: int, z: int)
    requires w > 0 && exact == z + k * w && 0 <= z < w && 0 <= k
    ensures exact % w == z && exact / w == k && (k == 0 <==> exact < w)
  {
    DivModUnique(exact, w, k, z);
    if k > 0 {
      MulMonotonic(w, 1, k);
    }
  }

  /** From a zero carry byte: the product modulo 256^n, and the carry byte is zero exactly when it fits. */
  lemma ProductModulo(s: Cpu, l: Layout, n: nat)
    requires Bytes(s) && Placed(l, n) && Read(s.mem, l.c) == 0
    ensures var t := Multiply(s, l, n);
            var exact := Num(s.mem, l.a, n) * Read(s.mem, l.m);
            Num(t.mem, l.r, n) == exact % Power(n) && Read(t.mem, l.c) == exact / Power(n)
            && (Read(t.mem, l.c) == 0 <==> exact < Power(n))
  {
    hide Multiply, Num, Read, Power, Apart, MultiplyByte;
    var t := Multiply(s, l, n);
    ProductIsExact(s, l, n);
    MultiplyFrame(s, l, n);
    NumRange(t.mem, l.r, n);
    assert IsByte(Read(t.mem, l.c));
    FitsIff(Num(s.mem, l.a, n) * Read(s.mem, l.m), Power(n), Read(t.mem, l.c), Num(t.mem, l.r, n));
  }
}
