/** The condition codes after each arithmetic instruction, in the terms of the bytes they are about. */
module Hc08Flags {
  import Arith
  import opened Hc08
  import opened Hc08Programs

  /** A byte as a two's complement number. */
  function Signed(b: int): int {
    if b >= 128 then b - 256 else b
  }

  /** Where each flag stands in the byte pushed by SWI. */
  lemma FlagPlaces(p: Flags)
    ensures ToByte(p) == 128 * Bit(p.v) + 64 * Bit(p.b6) + 32 * Bit(p.b5) + 16 * Bit(p.h)
                         + 8 * Bit(p.i) + 4 * Bit(p.n) + 2 * Bit(p.z) + Bit(p.c)
  {
  }

  /** N is the sign of the byte `b` and Z says that it is 0; the flags outside N, Z and V are those of `p`. */
  predicate Describes(p1: Flags, p: Flags, b: int) {
    && (p1.n <==> Signed(b) < 0) && (p1.z <==> b == 0)
    && p1 == p.(n := p1.n, z := p1.z, v := p1.v)
  }

  /** Loads and stores: N and Z of the byte, V clear. */
  lemma MovesDescribe(s: Cpu, o: Operand, ea: int)
    requires IsByte(s.A) && IsByte(Fetch(s, o))
    ensures var b := Fetch(s, o);
            && Lda(s, o).A == b && Describes(Lda(s, o).P, s.P, b) && !Lda(s, o).P.v
            && Ldx(s, o).X == b && Describes(Ldx(s, o).P, s.P, b) && !Ldx(s, o).P.v
            && Describes(Sta(s, ea).P, s.P, s.A) && !Sta(s, ea).P.v
    ensures Txa(s) == s.(A := s.X)
  {
    hide Fetch;
    ByteSign(Fetch(s, o));
    ByteSign(s.A);
  }

  /** The half carry of a sum, its carry and its two's complement overflow. */
  predicate SumFlags(p1: Flags, p: Flags, x: int, y: int, d: int) {
    && Describes(p1, p.(c := p1.c, h := p1.h), (x + y + d) % 256)
    && (p1.c <==> x + y + d > 255) && (p1.h <==> x % 16 + y % 16 + d > 15)
    && (p1.v <==> !(-128 <= Signed(x) + Signed(y) + d <= 127))
  }

  lemma HalfCarry(x: int, y: int, d: int)
    requires IsByte(x) && IsByte(y) && 0 <= d <= 1
    ensures (Bit4(x) != Bit4(y)) != Bit4(x + y + d) <==> x % 16 + y % 16 + d > 15
  {
    var q := x + y + d;
    assert q == 16 * (x / 16 + y / 16) + (x % 16 + y % 16 + d);
    assert q / 16 == x / 16 + y / 16 + (if x % 16 + y % 16 + d > 15 then 1 else 0);
    HalfParity(x / 16, y / 16, q / 16);
  }

  lemma HalfParity(a: int, b: int, c: int)
    requires a + b <= c <= a + b + 1
    ensures ((a % 2 == 1) != (b % 2 == 1)) != (c % 2 == 1) <==> c == a + b + 1
  {
  }

  /** ADD and ADC, the carry counted in: the sum modulo 256 and its flags; nothing else changes. */
  lemma SumsDescribe(s: Cpu, o: Operand)
    requires IsByte(s.A) && IsByte(Fetch(s, o))
    ensures var y := Fetch(s, o);
            && Add(s, o) == s.(A := (s.A + y) % 256, P := Add(s, o).P) && SumFlags(Add(s, o).P, s.P, s.A, y, 0)
            && Adc(s, o) == s.(A := (s.A + y + Bit(s.P.c)) % 256, P := Adc(s, o).P)
            && SumFlags(Adc(s, o).P, s.P, s.A, y, Bit(s.P.c))
  {
    SumDescribes(s, o, 0);
    SumDescribes(s, o, Bit(s.P.c));
  }

  lemma SignedOfByte(x: int)
    requires IsByte(x)
    ensures (Bit7(x) <==> x >= 128) && (Signed(x) < 0 <==> x >= 128) && Signed(x) == if x >= 128 then x - 256 else x
  {
    ByteSign(x);
  }

  lemma SumDescribes(s: Cpu, o: Operand, d: int)
    requires IsByte(s.A) && IsByte(Fetch(s, o)) && 0 <= d <= 1
    ensures SumFlags(Sum(s, o, d).P, s.P, s.A, Fetch(s, o), d)
  {
    hide Bit4, Bit7, Bit8, Fetch, Signed;
    var x, y := s.A, Fetch(s, o);
    HalfCarry(x, y, d);
    ResultBits(x + y + d);
    SignedOfByte(x);
    SignedOfByte(y);
    SignedOfByte((x + y + d) % 256);
  }

  /** SUB and SBC: the difference modulo 256, C its borrow, V its overflow; the half carry stays. */
  predicate DifferenceFlags(p1: Flags, p: Flags, x: int, y: int, d: int) {
    && Describes(p1, p.(c := p1.c), (x - y - d) % 256)
    && (p1.c <==> x < y + d) && (p1.v <==> !(-128 <= Signed(x) - Signed(y) - d <= 127))
  }

  lemma DifferencesDescribe(s: Cpu, o: Operand)
    requires IsByte(s.A) && IsByte(Fetch(s, o))
    ensures var y := Fetch(s, o);
            && Sub(s, o) == s.(A := (s.A - y) % 256, P := Sub(s, o).P) && DifferenceFlags(Sub(s, o).P, s.P, s.A, y, 0)
            && Sbc(s, o) == s.(A := (s.A - y - Bit(s.P.c)) % 256, P := Sbc(s, o).P)
            && DifferenceFlags(Sbc(s, o).P, s.P, s.A, y, Bit(s.P.c))
  {
    DifferenceDescribes(s, o, 0);
    DifferenceDescribes(s, o, Bit(s.P.c));
  }

  lemma DifferenceDescribes(s: Cpu, o: Operand, d: int)
    requires IsByte(s.A) && IsByte(Fetch(s, o)) && 0 <= d <= 1
    ensures DifferenceFlags(Difference(s, o, d).P, s.P, s.A, Fetch(s, o), d)
  {
    var x, y := s.A, Fetch(s, o);
    ResultBits(x - y - d);
    ByteSign(x);
    ByteSign(y);
    hide Bit4, Bit7, Bit8, Fetch;
  }

  /** MUL: the sixteen bits of the product in X and A, C and H clear, all else as it was. */
  lemma ProductDescribes(s: Cpu)
    requires IsByte(s.A) && IsByte(s.X)
    ensures var t := Mul(s);
            && t.X * 256 + t.A == s.A * s.X && IsByte(t.A) && IsByte(t.X)
            && t == s.(A := t.A, X := t.X, P := s.P.(c := false, h := false))
  {
    var p := s.A * s.X;
    ProductRange(s.A, s.X);
    assert p / 256 % 256 == p / 256;
  }

  lemma ProductRange(x: int, y: int)
    requires IsByte(x) && IsByte(y)
    ensures 0 <= x * y < 0x1_0000
  {
    Arith.MulMonotonic(x, 0, y);
    Arith.MulMonotonic(x, y, 255);
  }

  /** DIV: quotient and remainder of H:A by X, Z for a zero quotient, C clear; or C set and nothing else changed,
      exactly when X is 0 or the quotient is no byte, which is when H is not below X. */
  lemma QuotientDescribes(s: Cpu)
    requires IsByte(s.A) && IsByte(s.X) && IsByte(s.H)
    ensures var t := Div(s);
            if s.H >= s.X then t == s.(P := s.P.(c := true))
            else
              && t.A * s.X + t.H == s.H * 256 + s.A && 0 <= t.H < s.X && IsByte(t.A)
              && t == s.(A := t.A, H := t.H, P := s.P.(c := false, z := t.A == 0))
  {
    if s.H < s.X {
      ByteQuotient(s.H, s.A, s.X);
    } else if s.X > 0 {
      TooLarge(s.H, s.A, s.X);
    }
  }

  lemma TooLarge(h: int, a: int, x: int)
    requires 0 < x <= h && 0 <= a
    ensures (h * BYTE + a) / x > 0xff
  {
    var d := h * BYTE + a;
    var q := d / x;
    assert d == x * q + d % x && d % x < x;
    Arith.MulMonotonic(256, x, h);
    if q < 0xff {
      Arith.MulMonotonic(x, q, 0xff);
    }
  }

  /** CLRH: H is 0, and N, Z and V describe that byte. */
  lemma ClearDescribes(s: Cpu)
    ensures Clrh(s).H == 0 && Describes(Clrh(s).P, s.P, 0) && !Clrh(s).P.v && Clrh(s) == s.(H := 0, P := Clrh(s).P)
  {
  }

  /** Pushes, pulls, subroutine calls and returns leave all flags. */
  lemma StackKeepsFlags(s: Cpu, r: Reg, target: int)
    ensures Push(s, r).P == Pull(s, r).P == Jsr(s, target).P == Rts(s).P == s.P
  {
  }
}
