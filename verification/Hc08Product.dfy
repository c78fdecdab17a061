/** Where the numbers of the multiplication may lie: exactly when the program is right for every memory. */
module Hc08Product {
  import opened Arith
  import opened Hc08
  import opened Hc08Programs
  import opened Hc08Placement
  import opened Hc08Multiply

  /** Result and final carry byte make the exact product plus the first carry byte. */
  predicate Exact(s: Cpu, l: Layout, n: nat) {
    var t := Multiply(s, l, n);
    Num(t.mem, l.r, n) + Read(t.mem, l.c) * Power(n) == Num(s.mem, l.a, n) * Read(s.mem, l.m) + Read(s.mem, l.c)
  }

  ghost predicate AlwaysExact(l: Layout, n: nat) {
    forall s: Cpu :: Bytes(s) ==> Exact(s, l, n)
  }

  // ---------- a witness with small bytes ----------

  /** The factor `v` and one byte 1 at `x`, which is the factor if it lies there. */
  function Witness(x: int, m: int, v: int): Cpu {
    Cpu(0, FromByte(0), 0, 0, 0, 0, map[x := 1][m := v])
  }

  lemma WitnessReads(x: int, m: int, v: int)
    requires 0 <= v <= 2
    ensures var s := Witness(x, m, v);
            Bytes(s) && forall j: int :: Read(s.mem, j) == if j == m then v else if j == x then 1 else 0
  {
  }

  /** A number with bytes up to `v`. */
  lemma {:induction false} SmallNum(m: Memory, p: int, n: nat, v: int)
    requires forall j: int :: 0 <= Read(m, j) <= v
    ensures 0 <= 255 * Num(m, p, n) <= v * (Power(n) - 1)
    decreases n
  {
    if n > 0 {
      SmallNum(m, p + 1, n - 1, v);
      NumHead(m, p, n - 1);
      MulMonotonic(Power(n - 1), 0, Read(m, p));
      MulMonotonic(Power(n - 1), Read(m, p), v);
      PowerStep(n - 1);
      hide Num, Power, Read;
      SmallStep(Power(n - 1), v, Read(m, p), Num(m, p + 1, n - 1));
    }
  }

  lemma SmallStep(w: int, v: int, d: int, low: int)
    requires 0 <= w * d <= w * v && 0 <= 255 * low <= v * (w - 1)
    ensures 0 <= 255 * (d * w + low) <= v * (BYTE * w - 1)
  {
    assert v * (BYTE * w - 1) == 255 * (w * v) + v * (w - 1);
    assert d * w == w * d;
  }

  // ---------- the carry byte in the result ----------

  lemma {:induction false} StaysBytes(s: Cpu, l: Layout, n: nat)
    requires Bytes(s)
    ensures Bytes(Multiply(s, l, n))
    decreases n
  {
    hide MultiplyByte, Bytes;
    if n > 0 {
      StaysBytes(s, Higher(l), n - 1);
      ByteStaysBytes(Multiply(s, Higher(l), n - 1), l);
    }
  }

  lemma ByteStaysBytes(u: Cpu, l: Layout)
    requires Bytes(u)
    ensures Bytes(MultiplyByte(u, l))
  {
    hide MultiplyByte, Bytes, Read;
    MultiplyByteDoes(u, l);
    var p := Read(u.mem, l.a) * Read(u.mem, l.m);
    var q := p % BYTE + Read(u.mem, l.c);
    KeepsBytes(u, MultiplyByte(u, l), l, q % BYTE, p / BYTE % BYTE + q / BYTE);
  }

  lemma KeepsBytes(u: Cpu, t: Cpu, l: Layout, z: int, k: int)
    requires Bytes(u) && IsByte(t.A) && IsByte(t.X) && t.H == u.H
    requires IsByte(z) && IsByte(k) && t.mem == u.mem[l.r := z][l.c := k]
    ensures Bytes(t)
  {
    forall j: int
      ensures IsByte(Read(t.mem, j))
    {
      assert IsByte(Read(u.mem, j));
    }
  }

  /** A byte below 2 at position `j` of a sum of small numbers shows in its digit. */
  lemma DigitShows(hi: int, w: int, low: int, hi': int, low': int)
    requires 0 <= low < w && 0 <= low' <= w
    ensures hi * (BYTE * w) + low != hi' * (BYTE * w) + (w + low')
  {
    DivModUnique(hi * (BYTE * w) + low, BYTE * w, hi, low);
    DivModUnique(hi' * (BYTE * w) + (w + low'), BYTE * w, hi', w + low');
  }

  /** `n` digits with a zero at position `j`. */
  lemma ZeroDigit(m: Memory, p: int, n: nat, j: nat)
    requires j < n && (forall x: int :: IsByte(Read(m, x))) && Read(m, p + j) == 0
    ensures var d := n - 1 - j; var low := Num(m, p + j + 1, d);
            Num(m, p, n) == Num(m, p, j) * (BYTE * Power(d)) + low && 0 <= low < Power(d)
  {
    var d := n - 1 - j;
    NumSplit(m, p, n, d + 1);
    NumHead(m, p + j, d);
    PowerStep(d);
    NumRange(m, p + j + 1, d);
    hide Num, Power, Read;
  }

  /** And one with a 1 there. */
  lemma OneDigit(m: Memory, p: int, n: nat, j: nat)
    requires j < n && Read(m, p + j) == 1
    ensures var d := n - 1 - j;
            Num(m, p, n) == Num(m, p, j) * (BYTE * Power(d)) + (Power(d) + Num(m, p + j + 1, d))
  {
    var d := n - 1 - j;
    NumSplit(m, p, n, d + 1);
    NumHead(m, p + j, d);
    PowerStep(d);
    hide Num, Power, Read;
  }

  /** If result and carry byte were right, the carry byte of a small product would be 0. */
  lemma NoCarryLeft(z: int, k: int, w: int, exact: int)
    requires w > 0 && z + k * w == exact && 0 <= exact < w && 0 <= z && 0 <= k
    ensures k == 0 && z == exact
  {
    if k >= 1 {
      MulMonotonic(w, 1, k);
    }
  }

  /** A carry byte among the result bytes: the program is wrong for some memory. */
  lemma CarryInResult(l: Layout, n: nat)
    requires l.r <= l.c < l.r + n
    ensures var s := Witness(l.a + l.c - l.r, l.m, 1); Bytes(s) && !Exact(s, l, n)
  {
    hide Multiply, Num, Power, Read, Witness, Bytes;
    var j := l.c - l.r;
    var s, d := Witness(l.a + j, l.m, 1), n - 1 - j;
    WitnessReads(l.a + j, l.m, 1);
    if Exact(s, l, n) {
      var t := Multiply(s, l, n);
      StaysBytes(s, l, n);
      BytesRead(t);
      SmallNum(s.mem, l.a, n, 1);
      SmallNum(s.mem, l.a + j + 1, d, 1);
      NumRange(t.mem, l.r, n);
      PowerStep(n - 1);
      NoCarryLeft(Num(t.mem, l.r, n), Read(t.mem, l.c), Power(n), Num(s.mem, l.a, n) + Read(s.mem, l.c));
      ZeroDigit(t.mem, l.r, n, j);
      OneDigit(s.mem, l.a, n, j);
      DigitShows(Num(t.mem, l.r, j), Power(d), Num(t.mem, l.c + 1, d),
                 Num(s.mem, l.a, j), Num(s.mem, l.a + j + 1, d) + Read(s.mem, l.c));
    }
  }

  lemma BytesRead(s: Cpu)
    requires Bytes(s)
    ensures forall j: int :: IsByte(Read(s.mem, j))
  {
  }

  // ---------- the first byte read after it was overwritten ----------

  /** What byte `i` needs to read has been overwritten by a byte before it. */
  predicate Broken(l: Layout, n: nat, i: nat) {
    l.m == l.c || l.r + i < l.m < l.r + n || l.c == l.a + i || 0 < l.a - l.r < n - i
  }

  /** The last byte position, in memory order, that is broken; only the very last is never. */
  lemma {:induction false} LastBroken(l: Layout, n: nat, i: nat) returns (f: nat)
    requires i + 1 < n && (exists k: nat :: k <= i && Broken(l, n, k)) && forall k :: i < k < n - 1 ==> !Broken(l, n, k)
    ensures f <= i && Broken(l, n, f) && forall k :: f < k < n - 1 ==> !Broken(l, n, k)
  {
    if Broken(l, n, i) {
      f := i;
    } else {
      f := LastBroken(l, n, i - 1);
    }
  }

  /** Apart from the carry byte in the result, a placement is bad exactly if some byte is broken. */
  lemma SomeBroken(l: Layout, n: nat)
    requires Outside(l.c, l.r, n) && !Placed(l, n)
    ensures n >= 2 && exists k: nat :: k <= n - 2 && Broken(l, n, k)
  {
    assert Outside(l.c, l.a, n - 1) ==> Broken(l, n, 0);
    assert !Outside(l.c, l.a, n - 1) ==> Broken(l, n, l.c - l.a);
  }

  /** The bytes after the last broken one are placed well. */
  lemma RestPlaced(l: Layout, n: nat, f: nat, i: nat)
    requires Outside(l.c, l.r, n) && f < i <= n && forall k :: f < k < n - 1 ==> !Broken(l, n, k)
    ensures Placed(Shifted(l, i), n - i)
  {
    if n - i > 1 {
      assert !Broken(l, n, i);
      if !Outside(l.c, l.a + i, n - i - 1) {
        assert Broken(l, n, l.c - l.a);
      }
    }
  }

  /** The program on the low `k` bytes is what the whole program leaves in them. */
  lemma {:induction false} LowDigits(s: Cpu, l: Layout, n: nat, k: nat)
    requires k <= n && Bytes(s) && Outside(l.c, l.r, n)
    ensures forall j: int :: l.r + n - k <= j && j != l.c ==>
              Read(Multiply(s, l, n).mem, j) == Read(Multiply(s, Shifted(l, n - k), k).mem, j)
    decreases n
  {
    hide MultiplyByte, Read, Bytes;
    if k < n {
      LowDigits(s, Higher(l), n - 1, k);
      MultiplyFrame(s, Higher(l), n - 1);
      OneByteProduct(Multiply(s, Higher(l), n - 1), l);
      assert Shifted(Higher(l), n - 1 - k) == Shifted(l, n - k);
    } else {
      assert Shifted(l, 0) == l;
    }
  }

  /** The state before byte `f` is done. */
  function Before(s: Cpu, l: Layout, n: nat, f: nat): Cpu
    requires f < n
  {
    Multiply(s, Shifted(l, f + 1), n - 1 - f)
  }

  /** A digit above right ones: the product of what is read there and the carry byte, modulo 256. */
  lemma DigitAbove(s: Cpu, l: Layout, n: nat, f: nat) returns (k: int)
    requires f < n && Bytes(s) && Outside(l.c, l.r, n)
    ensures var u := Before(s, l, n, f);
            0 <= k < BYTE && Bytes(u)
            && Read(Multiply(s, Shifted(l, f), n - f).mem, l.r + f) + BYTE * k
               == Read(u.mem, l.a + f) * Read(u.mem, l.m) + Read(u.mem, l.c)
            && Num(Multiply(s, Shifted(l, f), n - f).mem, l.r + f + 1, n - 1 - f) == Num(u.mem, l.r + f + 1, n - 1 - f)
  {
    hide MultiplyByte, Read, Bytes, Num;
    var h, u := Shifted(l, f), Before(s, l, n, f);
    assert Higher(h) == Shifted(l, f + 1);
    MultiplyFrame(s, Higher(h), n - 1 - f);
    OneByteProduct(u, h);
    var t := MultiplyByte(u, h);
    BytesRead(t);
    k := Read(t.mem, l.c);
    assert t == Multiply(s, h, n - f);
    NumSame(u.mem, t.mem, l.r + f + 1, n - 1 - f);
  }

  /** Equations modulo powers of 256, on the digits. */
  lemma SplitExact(z: int, w: int, p: int, zh: int, zl: int, ah: int, al: int, y: int, c: int, k: int) returns (e: int)
    requires (zh * p + zl) + k * (w * p) == (ah * p + al) * y + c
    ensures zl == al * y + c + e * p
  {
    e := ah * y - zh - k * w;
    assert (ah * p + al) * y == (ah * y) * p + al * y;
    assert e * p == (ah * y) * p - zh * p - (k * w) * p;
    assert (k * w) * p == k * (w * p);
  }

  /** If the whole product is right, it is right in its low `k` bytes, modulo their power. */
  lemma LowProductRight(s: Cpu, l: Layout, n: nat, k: nat) returns (e: int)
    requires k <= n && Bytes(s) && Outside(l.c, l.r, n) && Exact(s, l, n)
    ensures var h := n - k;
            Num(Multiply(s, Shifted(l, h), k).mem, l.r + h, k)
            == Num(s.mem, l.a + h, k) * Read(s.mem, l.m) + Read(s.mem, l.c) + e * Power(k)
  {
    hide Multiply, Num, Power, Bytes, Read;
    var h := n - k;
    var t, u := Multiply(s, l, n), Multiply(s, Shifted(l, h), k);
    LowDigits(s, l, n, k);
    NumSame(u.mem, t.mem, l.r + h, k);
    NumSplit(t.mem, l.r, n, k);
    NumSplit(s.mem, l.a, n, k);
    PowerSplit(n, k);
    e := SplitExact(0, Power(h), Power(k), Num(t.mem, l.r, h), Num(t.mem, l.r + h, k),
                    Num(s.mem, l.a, h), Num(s.mem, l.a + h, k), Read(s.mem, l.m), Read(s.mem, l.c), Read(t.mem, l.c));
  }

  lemma SameProduct(w: int, z: int, low: int, k: int, c: int, x: int, y: int, x': int, y': int,
                    al: int, c0: int, e: int)
    requires w > 0 && z * w + low == (x * w + al) * y + c0 + e * (BYTE * w)
    requires low + c * w == al * y + c0 && z + BYTE * k == x' * y' + c
    ensures (x' * y' - x * y) % BYTE == 0
  {
    assert (x * w + al) * y == (x * y) * w + al * y;
    assert (z - c) * w == (x * y + BYTE * e) * w;
    assert z - c == x * y + BYTE * e;
  }

  /** If the whole product is right, byte `f` multiplied what it should, modulo 256. */
  lemma RightProductRead(s: Cpu, l: Layout, n: nat, f: nat)
    requires f < n && Bytes(s) && Outside(l.c, l.r, n) && Placed(Shifted(l, f + 1), n - 1 - f) && Exact(s, l, n)
    ensures var u := Before(s, l, n, f);
            (Read(u.mem, l.a + f) * Read(u.mem, l.m) - Read(s.mem, l.a + f) * Read(s.mem, l.m)) % BYTE == 0
  {
    hide Multiply, Num, Power, Bytes, Read, Exact, Outside, Apart;
    var u, t, d := Before(s, l, n, f), Multiply(s, Shifted(l, f), n - f), n - 1 - f;
    var e := LowProductRight(s, l, n, n - f);
    var k := DigitAbove(s, l, n, f);
    ProductIsExact(s, Shifted(l, f + 1), d);
    NumHead(t.mem, l.r + f, d);
    NumHead(s.mem, l.a + f, d);
    PowerStep(d);
    SameProduct(Power(d), Read(t.mem, l.r + f), Num(u.mem, l.r + f + 1, d), k, Read(u.mem, l.c),
                Read(s.mem, l.a + f), Read(s.mem, l.m), Read(u.mem, l.a + f), Read(u.mem, l.m),
                Num(s.mem, l.a + f + 1, d), Read(s.mem, l.c), e);
  }

  // ---------- what the witness leaves before the broken byte ----------

  /** Small bytes leave no carry. */
  lemma NoCarry(s: Cpu, l: Layout, n: nat)
    requires Bytes(s) && Placed(l, n) && n > 0 && forall j: int :: 0 <= Read(s.mem, j) <= 2
    ensures Read(Multiply(s, l, n).mem, l.c) == 0
  {
    hide Multiply, Num, Power, Bytes, Read, Apart;
    var t, x, y := Multiply(s, l, n), Num(s.mem, l.a, n), Read(s.mem, l.m);
    ProductIsExact(s, l, n);
    MultiplyFrame(s, l, n);
    BytesRead(t);
    NumRange(t.mem, l.r, n);
    SmallNum(s.mem, l.a, n, 2);
    PowerStep(n - 1);
    MulMonotonic(x, 0, y);
    MulMonotonic(x, y, 2);
    NoCarryLeft(Num(t.mem, l.r, n), Read(t.mem, l.c), Power(n), x * y + Read(s.mem, l.c));
  }

  /** A byte that is not broken reads what was there at first. */
  lemma ReadsFirst(s: Cpu, l: Layout, n: nat, i: nat)
    requires i < n && Bytes(s) && Outside(l.c, l.r, n) && (i < n - 1 ==> !Broken(l, n, i))
    ensures var u := Before(s, l, n, i);
            Read(u.mem, l.a + i) == Read(s.mem, l.a + i) && Read(u.mem, l.m) == Read(s.mem, l.m)
  {
    hide MultiplyByte, Read, Bytes;
    MultiplyFrame(s, Shifted(l, i + 1), n - 1 - i);
  }

  /** From a zero carry byte, small bytes make their products the digits of the result. */
  lemma SmallDigit(s: Cpu, l: Layout, n: nat, f: nat, i: nat)
    requires f < i < n && Bytes(s) && Outside(l.c, l.r, n) && forall k :: f < k < n - 1 ==> !Broken(l, n, k)
    requires (forall j: int :: 0 <= Read(s.mem, j) <= 2) && Read(s.mem, l.c) == 0
    ensures Read(Before(s, l, n, f).mem, l.r + i) == Read(s.mem, l.a + i) * Read(s.mem, l.m)
  {
    hide MultiplyByte, Read, Bytes, Num, Broken, Apart;
    ReadsFirst(s, l, n, i);
    var k := DigitAbove(s, l, n, i);
    if i < n - 1 {
      RestPlaced(l, n, f, i + 1);
      NoCarry(s, Shifted(l, i + 1), n - 1 - i);
    }
    LowDigits(s, Shifted(l, f + 1), n - 1 - f, n - i);
    assert Shifted(Shifted(l, f + 1), i - f - 1) == Shifted(l, i);
    StaysBytes(s, Shifted(l, i), n - i);
    BytesRead(Multiply(s, Shifted(l, i), n - i));
    assert Read(s.mem, l.a + i) * Read(s.mem, l.m) <= 4 by {
      MulMonotonic(Read(s.mem, l.a + i), Read(s.mem, l.m), 2);
    }
  }

  /** On the witness the product read at the broken byte is another one. */
  lemma OtherProduct(l: Layout, n: nat, f: nat)
    requires f < n - 1 && Outside(l.c, l.r, n) && Broken(l, n, f) && forall k :: f < k < n - 1 ==> !Broken(l, n, k)
    ensures var s := Witness(l.a + f, l.m, 2); var u := Before(s, l, n, f);
            (Read(u.mem, l.a + f) * Read(u.mem, l.m) - Read(s.mem, l.a + f) * Read(s.mem, l.m)) % BYTE != 0
  {
    hide Multiply, Read, Bytes, Witness, Apart;
    var s := Witness(l.a + f, l.m, 2);
    var u := Before(s, l, n, f);
    WitnessReads(l.a + f, l.m, 2);
    RestPlaced(l, n, f, f + 1);
    NoCarry(s, Shifted(l, f + 1), n - 1 - f);
    if l.m != l.c && l.c != l.a + f {
      MultiplyFrame(s, Shifted(l, f + 1), n - 1 - f);
      SmallDigit(s, l, n, f, f + 1);
      SmallDigit(s, l, n, f, n - 1);
      assert f + 1 < n - 1 ==> !Broken(l, n, f + 1);
    }
  }

  lemma BrokenIsWrong(l: Layout, n: nat, f: nat)
    requires f < n - 1 && Outside(l.c, l.r, n) && Broken(l, n, f) && forall k :: f < k < n - 1 ==> !Broken(l, n, k)
    ensures var s := Witness(l.a + f, l.m, 2); Bytes(s) && !Exact(s, l, n)
  {
    hide *;
    var s := Witness(l.a + f, l.m, 2);
    WitnessReads(l.a + f, l.m, 2);
    RestPlaced(l, n, f, f + 1);
    OtherProduct(l, n, f);
    if Exact(s, l, n) {
      RightProductRead(s, l, n, f);
    }
  }

  /**
   * The product is right for every memory, carry byte included, if and only if the carry byte is no byte of the
   * result and, with more than one byte, is neither the factor nor a byte of the number but the lowest, the factor
   * is no byte of the result but the highest, and the result does not start below the number and reach into it.
   */
  lemma ExactIff(l: Layout, n: nat)
    ensures AlwaysExact(l, n) <==> Placed(l, n)
  {
    hide Exact, Bytes, Apart;
    if Placed(l, n) {
      forall s: Cpu | Bytes(s)
        ensures Exact(s, l, n)
      {
        PlacedIsExact(s, l, n);
      }
    } else if !Outside(l.c, l.r, n) {
      CarryInResult(l, n);
    } else {
      SomeBroken(l, n);
      var f := LastBroken(l, n, n - 2);
      BrokenIsWrong(l, n, f);
    }
  }

  lemma PlacedIsExact(s: Cpu, l: Layout, n: nat)
    requires Bytes(s) && Placed(l, n)
    ensures Exact(s, l, n)
  {
    hide Multiply, Num, Power, Read, Placed;
    ProductIsExact(s, l, n);
  }
}
