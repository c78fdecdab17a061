/** The HC08 instructions for byte arithmetic and the stack. */
module Hc08 {
  const BYTE := 0x100
  const WORD := 0x1_0000

  type Memory = map<int, int>

  function Read(m: Memory, a: int): int {
    if a in m then m[a] else 0
  }

  /** The condition code register, highest bit first; bits 6 and 5 have no function. */
  datatype Flags = Flags(v: bool, b6: bool, b5: bool, h: bool, i: bool, n: bool, z: bool, c: bool)

  function Bit(b: bool): int {
    if b then 1 else 0
  }

  /** The bits of `x` followed by one more. */
  function Joined(x: int, b: bool): int {
    2 * x + Bit(b)
  }

  function ToByte(p: Flags): int {
    Joined(Joined(Joined(Joined(Joined(Joined(Joined(Bit(p.v), p.b6), p.b5), p.h), p.i), p.n), p.z), p.c)
  }

  function Rest(x: int): int {
    x / 2
  }

  function Last(x: int): bool {
    x % 2 == 1
  }

  function FromByte(x: int): Flags {
    var x1 := Rest(x);
    var x2 := Rest(x1);
    var x3 := Rest(x2);
    var x4 := Rest(x3);
    var x5 := Rest(x4);
    var x6 := Rest(x5);
    var x7 := Rest(x6);
    Flags(Last(x7), Last(x6), Last(x5), Last(x4), Last(x3), Last(x2), Last(x1), Last(x))
  }

  lemma LastBit(x: int, b: bool, k: int)
    requires 0 <= x < k
    ensures Rest(Joined(x, b)) == x && Last(Joined(x, b)) == b && 0 <= Joined(x, b) < 2 * k
  {
  }

  lemma FlagsRoundTrip(p: Flags)
    ensures 0 <= ToByte(p) < BYTE && FromByte(ToByte(p)) == p
  {
    hide Joined, Rest, Last;
    var x7 := Bit(p.v);
    var x6 := Joined(x7, p.b6);
    var x5 := Joined(x6, p.b5);
    var x4 := Joined(x5, p.h);
    var x3 := Joined(x4, p.i);
    var x2 := Joined(x3, p.n);
    var x1 := Joined(x2, p.z);
    LastBit(x7, p.b6, 2);
    LastBit(x6, p.b5, 4);
    LastBit(x5, p.h, 8);
    LastBit(x4, p.i, 16);
    LastBit(x3, p.n, 32);
    LastBit(x2, p.z, 64);
    LastBit(x1, p.c, 128);
    TopBit(p.v);
  }

  lemma TopBit(b: bool)
    ensures Last(Bit(b)) == b
  {
  }

  datatype Cpu = Cpu(A: int, P: Flags, H: int, X: int, SP: int, PC: int, mem: Memory)

  /** An instruction's operand, once fetched: an immediate byte or an effective address. */
  datatype Operand = Immediate(b: int) | At(ea: int)

  function Fetch(s: Cpu, o: Operand): int {
    match o
    case Immediate(b) => b
    case At(ea) => Read(s.mem, ea)
  }

  // ---------- flags of a result that may be negative or exceed a byte ----------

  function Bit4(x: int): bool { x / 16 % 2 == 1 }
  function Bit7(x: int): bool { x / 128 % 2 == 1 }
  function Bit8(x: int): bool { x / 256 % 2 == 1 }

  function WithNZ(p: Flags, x: int): Flags {
    p.(n := Bit7(x), z := x % BYTE == 0)
  }

  /** V is bit 7 of operand1 ^ operand2 ^ result ^ (result >> 1), C is bit 8 of the result. */
  function WithArithmetic(p: Flags, x: int, y: int, r: int): Flags {
    WithNZ(p, r).(v := (Bit7(x) != Bit7(y)) != (Bit7(r) != Bit8(r)), c := Bit8(r))
  }

  function WithHalfCarry(p: Flags, x: int, y: int, r: int): Flags {
    p.(h := (Bit4(x) != Bit4(y)) != Bit4(r))
  }

  // ---------- the instructions ----------

  function Lda(s: Cpu, o: Operand): Cpu {
    var b := Fetch(s, o);
    s.(A := b, P := WithNZ(s.P.(v := false), b))
  }

  function Ldx(s: Cpu, o: Operand): Cpu {
    var b := Fetch(s, o);
    s.(X := b, P := WithNZ(s.P.(v := false), b))
  }

  function Txa(s: Cpu): Cpu {
    s.(A := s.X)
  }

  function Sta(s: Cpu, ea: int): Cpu {
    s.(P := WithNZ(s.P.(v := false), s.A), mem := s.mem[ea := s.A])
  }

  function Sum(s: Cpu, o: Operand, carry: int): Cpu {
    var b := Fetch(s, o);
    var r := s.A + b + carry;
    s.(A := r % BYTE, P := WithHalfCarry(WithArithmetic(s.P, s.A, b, r), s.A, b, r))
  }

  function Add(s: Cpu, o: Operand): Cpu {
    Sum(s, o, 0)
  }

  function Adc(s: Cpu, o: Operand): Cpu {
    Sum(s, o, Bit(s.P.c))
  }

  function Difference(s: Cpu, o: Operand, borrow: int): Cpu {
    var b := Fetch(s, o);
    var r := s.A - b - borrow;
    s.(A := r % BYTE, P := WithArithmetic(s.P, s.A, b, r))
  }

  function Sub(s: Cpu, o: Operand): Cpu {
    Difference(s, o, 0)
  }

  function Sbc(s: Cpu, o: Operand): Cpu {
    Difference(s, o, Bit(s.P.c))
  }

  function Clrh(s: Cpu): Cpu {
    s.(H := 0, P := s.P.(v := false, n := false, z := true))
  }

  function Div(s: Cpu): Cpu {
    var dividend := s.H * BYTE + s.A;
    if s.X == 0 || dividend / s.X > 0xff then s.(P := s.P.(c := true))
    else s.(A := dividend / s.X, H := dividend % s.X, P := s.P.(c := false, z := dividend / s.X == 0))
  }

  function Mul(s: Cpu): Cpu {
    var r := s.A * s.X;
    s.(A := r % BYTE, X := r / BYTE % BYTE, P := s.P.(c := false, h := false))
  }

  function Push1(s: Cpu, b: int): Cpu {
    s.(mem := s.mem[s.SP := b], SP := (s.SP - 1) % WORD)
  }

  function Push2(s: Cpu, w: int): Cpu {
    s.(mem := s.mem[s.SP - 1 := w / BYTE % BYTE][s.SP := w % BYTE], SP := (s.SP - 2) % WORD)
  }

  function Top1(s: Cpu): int {
    Read(s.mem, s.SP + 1)
  }

  function Top2(s: Cpu): int {
    Read(s.mem, s.SP + 1) * BYTE + Read(s.mem, s.SP + 2)
  }

  function Drop(s: Cpu, k: int): Cpu {
    s.(SP := (s.SP + k) % WORD)
  }

  datatype Reg = RegA | RegX | RegH

  function Get(s: Cpu, r: Reg): int {
    match r case RegA => s.A case RegX => s.X case RegH => s.H
  }

  function Put(s: Cpu, r: Reg, b: int): Cpu {
    match r case RegA => s.(A := b) case RegX => s.(X := b) case RegH => s.(H := b)
  }

  function Push(s: Cpu, r: Reg): Cpu {
    Push1(s, Get(s, r))
  }

  function Pull(s: Cpu, r: Reg): Cpu {
    Drop(Put(s, r, Top1(s)), 1)
  }

  function Jsr(s: Cpu, target: int): Cpu {
    Push2(s, s.PC).(PC := target)
  }

  function Rts(s: Cpu): Cpu {
    Drop(s.(PC := Top2(s)), 2)
  }

  /** The software interrupt clears the mask bit. */
  function Swi(s: Cpu): Cpu {
    var t := Push1(Push1(Push1(Push2(s, s.PC), s.X), s.A), ToByte(s.P));
    t.(P := t.P.(i := false), PC := Read(t.mem, 0xfffc) * BYTE + Read(t.mem, 0xfffd))
  }

  function Rti(s: Cpu): Cpu {
    var s1 := Drop(s.(P := FromByte(Top1(s)).(b6 := true, b5 := true)), 1);
    var s2 := Drop(s1.(A := Top1(s1)), 1);
    var s3 := Drop(s2.(X := Top1(s2)), 1);
    Drop(s3.(PC := Top2(s3)), 2)
  }

  // ---------- the processor object ----------

  class Processor {
    var A: int
    var P: Flags
    var H: int
    var X: int
    var SP: int
    var PC: int
    var mem: Memory

    constructor (s: Cpu)
      ensures State() == s
    {
      A, P, H, X, SP, PC, mem := s.A, s.P, s.H, s.X, s.SP, s.PC, s.mem;
    }

    function State(): Cpu
      reads this
    {
      Cpu(A, P, H, X, SP, PC, mem)
    }

    method InstLda(o: Operand)
      modifies `A, `P
      ensures State() == Lda(old(State()), o)
    {
      A := Fetch(State(), o);
      P := P.(v := false);
      P := WithNZ(P, A);
    }

    method InstLdx(o: Operand)
      modifies `X, `P
      ensures State() == Ldx(old(State()), o)
    {
      X := Fetch(State(), o);
      P := P.(v := false);
      P := WithNZ(P, X);
    }

    method InstTxa()
      modifies `A
      ensures State() == Txa(old(State()))
    {
      A := X;
    }

    method InstSta(ea: int)
      modifies `P, `mem
      ensures State() == Sta(old(State()), ea)
    {
      P := P.(v := false);
      P := WithNZ(P, A);
      mem := mem[ea := A];
    }

    method InstAdd(o: Operand)
      modifies `A, `P
      ensures State() == Add(old(State()), o)
    {
      var operand1, operand2 := A, Fetch(State(), o);
      var result := operand1 + operand2;
      P := WithNZ(P, result);
      P := P.(v := (Bit7(operand1) != Bit7(operand2)) != (Bit7(result) != Bit8(result)));
      P := P.(c := Bit8(result));
      P := P.(h := (Bit4(operand1) != Bit4(operand2)) != Bit4(result));
      A := result % BYTE;
    }

    method InstAdc(o: Operand)
      modifies `A, `P
      ensures State() == Adc(old(State()), o)
    {
      var carryin := if P.c then 1 else 0;
      var operand1, operand2 := A, Fetch(State(), o);
      var result := operand1 + operand2 + carryin;
      P := WithNZ(P, result);
      P := P.(v := (Bit7(operand1) != Bit7(operand2)) != (Bit7(result) != Bit8(result)));
      P := P.(c := Bit8(result));
      P := P.(h := (Bit4(operand1) != Bit4(operand2)) != Bit4(result));
      A := result % BYTE;
    }

    method InstSub(o: Operand)
      modifies `A, `P
      ensures State() == Sub(old(State()), o)
    {
      var operand1, operand2 := A, Fetch(State(), o);
      var result := operand1 - operand2;
      P := WithNZ(P, result);
      P := P.(v := (Bit7(operand1) != Bit7(operand2)) != (Bit7(result) != Bit8(result)));
      P := P.(c := Bit8(result));
      A := result % BYTE;
    }

    method InstSbc(o: Operand)
      modifies `A, `P
      ensures State() == Sbc(old(State()), o)
    {
      var carryin := if P.c then 1 else 0;
      var operand1, operand2 := A, Fetch(State(), o);
      var result := operand1 - operand2 - carryin;
      P := WithNZ(P, result);
      P := P.(v := (Bit7(operand1) != Bit7(operand2)) != (Bit7(result) != Bit8(result)));
      P := P.(c := Bit8(result));
      A := result % BYTE;
    }

    method InstClrh()
      modifies `H, `P
      ensures State() == Clrh(old(State()))
    {
      P := P.(v := false);
      P := P.(n := false);
      P := P.(z := true);
      H := 0;
    }

    method InstDiv()
      modifies `A, `H, `P
      ensures State() == Div(old(State()))
    {
      var dividend := H * BYTE + A;
      if X != 0 {
        var quotient := dividend / X;
        if quotient <= 0xff {
          A := quotient;
          H := dividend % X;
          P := P.(c := false);
          P := P.(z := quotient == 0);
        } else {
          P := P.(c := true);
        }
      } else {
        P := P.(c := true);
      }
    }

    method InstMul()
      modifies `A, `X, `P
      ensures State() == Mul(old(State()))
    {
      var result := A * X;
      A := result % BYTE;
      X := result / BYTE % BYTE;
      P := P.(c := false);
      P := P.(h := false);
    }

    method DoPush1(b: int)
      modifies `mem, `SP
      ensures State() == Push1(old(State()), b)
    {
      mem := mem[SP := b];
      SP := (SP - 1) % WORD;
    }

    method DoPush2(w: int)
      modifies `mem, `SP
      ensures State() == Push2(old(State()), w)
    {
      mem := mem[SP - 1 := w / BYTE % BYTE];
      mem := mem[SP := w % BYTE];
      SP := (SP - 2) % WORD;
    }

    method DoPop1() returns (b: int)
      modifies `SP
      ensures State() == Drop(old(State()), 1) && b == Top1(old(State()))
    {
      b := Read(mem, SP + 1);
      SP := (SP + 1) % WORD;
    }

    method DoPop2() returns (w: int)
      modifies `SP
      ensures State() == Drop(old(State()), 2) && w == Top2(old(State()))
    {
      w := Read(mem, SP + 1) * BYTE + Read(mem, SP + 2);
      SP := (SP + 2) % WORD;
    }

    method InstPush(r: Reg)
      modifies `mem, `SP
      ensures State() == Push(old(State()), r)
    {
      match r
      case RegA => DoPush1(A);
      case RegX => DoPush1(X);
      case RegH => DoPush1(H);
    }

    method InstPull(r: Reg)
      modifies `A, `X, `H, `SP
      ensures State() == Pull(old(State()), r)
    {
      match r
      case RegA => A := DoPop1();
      case RegX => X := DoPop1();
      case RegH => H := DoPop1();
    }

    method InstJsr(target: int)
      modifies `mem, `SP, `PC
      ensures State() == Jsr(old(State()), target)
    {
      DoPush2(PC);
      PC := target;
    }

    method InstRts()
      modifies `SP, `PC
      ensures State() == Rts(old(State()))
    {
      PC := DoPop2();
    }

    method InstSwi()
      modifies `mem, `SP, `PC, `P
      ensures State() == Swi(old(State()))
    {
      DoPush2(PC);
      DoPush1(X);
      DoPush1(A);
      DoPush1(ToByte(P));
      P := P.(i := false);
      PC := Read(mem, 0xfffc) * BYTE + Read(mem, 0xfffd);
    }

    method InstRti()
      modifies `A, `X, `SP, `PC, `P
      ensures State() == Rti(old(State()))
    {
      hide FromByte, Read;
      var b := DoPop1();
      P := FromByte(b);
      P := P.(b6 := true, b5 := true);
      A := DoPop1();
      X := DoPop1();
      PC := DoPop2();
    }
  }
}
