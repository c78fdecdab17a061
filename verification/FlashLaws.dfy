/** The flash controller's registers and cells one by one: what a write to each register leaves where. */
module FlashLaws {
  import Arith
  import opened Flash
  import opened FlashDevice

  // ---------- the address registers ----------

  /** FADDRH holds bits 15 to 8 of the address and FADDRL bits 7 to 0; the two highest select the bank. A write to
      either leaves the other, and everything but address and bank, alone. */
  lemma AddressWritten(s: State, v: int)
    requires Shape(s) && 0 <= v < 256
    ensures var t := Step(s, ToFaddrh(v));
            t == s.(address := 256 * v + s.faddrl, faddrh := v, bank := v / 64)
    ensures var t := Step(s, ToFaddrl(v));
            t == s.(address := 256 * s.faddrh + v, faddrl := v, bank := s.faddrh / 64)
  {
    HighBits(v, s.faddrl);
    HighBits(s.faddrh, v);
  }

  lemma HighBits(h: int, l: int)
    requires 0 <= h < 256 && 0 <= l < 256
    ensures AddressBank(h * 256 + l) == h / 64 && (h * 256 + l) / 512 == h / 2 && (h * 256 + l) % 512 == h % 2 * 256 + l
  {
    var a := h * 256 + l;
    assert a / 0x4000 == h / 64;
    assert a == 512 * (h / 2) + (h % 2 * 256 + l);
  }

  /** In either order the two registers make up the address, with its page and its word. */
  lemma AddressOfBoth(s: State, h: int, l: int)
    requires Shape(s) && 0 <= h < 256 && 0 <= l < 256
    ensures Shape(Step(s, ToFaddrh(h))) && Shape(Step(s, ToFaddrl(l)))
    ensures var t, u := Step(Step(s, ToFaddrh(h)), ToFaddrl(l)), Step(Step(s, ToFaddrl(l)), ToFaddrh(h));
            && t == u && t.address == 256 * h + l && t.bank == h / 64
            && PageOf(t.address) == h / 2 && WordOf(t.address) == h % 2 * 256 + l
  {
    StepKeepsShape(s, ToFaddrh(h));
    StepKeepsShape(s, ToFaddrl(l));
    AddressWritten(s, h);
    AddressWritten(s, l);
    AddressWritten(Step(s, ToFaddrh(h)), l);
    AddressWritten(Step(s, ToFaddrl(l)), h);
    HighBits(h, l);
    hide Shape, Step;
  }

  // ---------- the control register ----------

  /** The byte at an address counted through all banks. */
  function Cell(s: State, x: int): Byte
    requires Shape(s) && 0 <= x < 8 * FLASHBANK_SIZE
  {
    s.flash[x / FLASHBANK_SIZE][x % FLASHBANK_SIZE]
  }

  /** Erasing page `p` makes its 2048 bytes 0xFF and its counts 0, keeps its lock bit, and leaves all other bytes and
      pages and all registers but the bank. */
  lemma EraseExactly(s: State, p: nat, x: int)
    requires Shape(s) && p < PAGES && 0 <= x < 8 * FLASHBANK_SIZE
    ensures var t := ErasePage(s, p);
            && Shape(t) && t == s.(bank := t.bank, pages := t.pages, flash := t.flash)
            && Cell(t, x) == (if 2048 * p <= x < 2048 * p + 2048 then 0xFF else Cell(s, x))
            && t.pages[p].writes == 0 && (forall w :: 0 <= w < PAGE_SIZE ==> t.pages[p].words[w] == 0)
            && t.pages[p].lockbit == s.pages[p].lockbit
            && forall q :: 0 <= q < PAGES && q != p ==> t.pages[q] == s.pages[q]
  {
    StepErase(s, p);
    PagePlace(p);
    var b, d := x / FLASHBANK_SIZE, x % FLASHBANK_SIZE;
    assert x == FLASHBANK_SIZE * b + d;
    assert p == 16 * (p / 16) + p % 16;
  }

  /** FCTL: bit 0 erases the page that FADDRH selects, and bit 1 alone decides whether writes are accepted. */
  lemma ControlWritten(s: State, v: int)
    requires Shape(s) && 0 <= v < 256
    ensures var t := Step(s, ToFctl(v));
            && 0 <= s.faddrh / 2 < PAGES && (t.writing <==> v % 4 >= 2)
            && t.(writing := s.writing) == if v % 2 == 1 then ErasePage(s, s.faddrh / 2) else s
  {
    hide ErasePage, Shape;
    EraseKeepsMode(s, s.faddrh / 2 % 128);
    assert s.faddrh / 2 % 128 == s.faddrh / 2 && (v / 2 % 2 == 1 <==> v % 4 >= 2) by {
      Halves(s, v);
    }
  }

  lemma EraseKeepsMode(s: State, p: int)
    requires Shape(s) && 0 <= p < PAGES
    ensures ErasePage(s, p).writing == s.writing
  {
  }

  lemma Halves(s: State, v: int)
    requires Shape(s) && 0 <= v < 256
    ensures 0 <= s.faddrh / 2 < PAGES && s.faddrh / 2 % 128 == s.faddrh / 2 && (v / 2 % 2 == 1 <==> v % 4 >= 2)
  {
  }

  /** Reset: address, register and byte count 0, no write accepted, every count 0 and every page unlocked; the cells,
      the bank and the address registers stay. */
  lemma ResetLeaves(s: State)
    requires Shape(s)
    ensures var t := Step(s, DoReset);
            && t == s.(address := 0, reg := 0, TXNum := 0, writing := false, regFull := false, pages := t.pages)
            && |t.pages| == PAGES
            && forall p :: 0 <= p < PAGES ==>
                 && t.pages[p].writes == 0 && !t.pages[p].lockbit && |t.pages[p].words| == PAGE_SIZE
                 && forall w :: 0 <= w < PAGE_SIZE ==> t.pages[p].words[w] == 0
  {
  }

  // ---------- the data register ----------

  /** The fourth byte: the four bytes stand in order at four times the address, modulo the bank's size, in the bank
      selected; no other byte of any bank changes. */
  lemma WordBytes(s: State, ps: seq<Byte>, b: Byte, i: int, d: int)
    requires Shape(s) && Pending(s, ps) && |ps| == 3 && s.writing && 0 <= i < 8 && 0 <= d < FLASHBANK_SIZE
    ensures Shape(Step(s, ToFwdata(b)))
    ensures var first := 4 * s.address % 0x8000;
            Step(s, ToFwdata(b)).flash[i][d] ==
            if i == s.bank && first <= d < first + 4 then (ps + [b])[d - first] else s.flash[i][d]
  {
    hide Step, Pending, Stored, Shape, FirstByte;
    BankFacts(s);
    StepKeepsShape(s, ToFwdata(b));
    BankFacts(Step(s, ToFwdata(b)));
    WordLands(s, ps, b);
    StoredBytes(s.flash[s.bank], FirstByte(s.address), ps, b, d);
  }

  lemma BankFacts(s: State)
    requires Shape(s)
    ensures |s.flash| == 8 && 0 <= s.bank < 8 && forall b :: 0 <= b < 8 ==> |s.flash[b]| == FLASHBANK_SIZE
    ensures FirstByte(s.address) == 4 * s.address % 0x8000
    ensures 0 <= FirstByte(s.address) && FirstByte(s.address) + 3 < FLASHBANK_SIZE
  {
    FourTimes(s.address);
  }

  lemma StoredBytes(bank: seq<Byte>, first: int, ps: seq<Byte>, b: Byte, d: int)
    requires 0 <= first && first + 3 < |bank| && 0 <= d < |bank| && |ps| == 3
    ensures var r := Stored(bank, first, ps[0], ps[1], ps[2], b);
            |r| == |bank| && r[d] == if first <= d < first + 4 then (ps + [b])[d - first] else bank[d]
  {
  }

  lemma FourTimes(a: int)
    ensures 4 * (a % 0x2000) == 4 * a % 0x8000
  {
    Arith.DivModUnique(4 * a, 0x8000, a / 0x2000, 4 * (a % 0x2000));
  }

  /** After it the register is empty and ready for the next word, at the same address; writes stay enabled. */
  lemma WordLeavesReady(s: State, ps: seq<Byte>, b: Byte)
    requires Shape(s) && Pending(s, ps) && |ps| == 3 && s.writing
    ensures var t := Step(s, ToFwdata(b));
            t == s.(reg := 0, TXNum := 0, regFull := false, pages := t.pages, flash := t.flash)
  {
    hide Assemble, Joined, Stored, ByteAt, LockBits, CountWrite;
  }

  /** Without a write enabled the data register takes nothing. */
  lemma DataIgnored(s: State, b: Byte)
    requires Shape(s) && !s.writing
    ensures Step(s, ToFwdata(b)) == s
  {
  }

  // ---------- the lock bits ----------

  /** Bit `r` of a byte. */
  predicate BitOfByte(b: Byte, r: nat)
    requires r < 8
  {
    (b >> r) & 1 == 1
  }

  /** Bit `r` of byte `q` of a word is the word's bit 8q + r. */
  lemma BitInByte(x: bv32, q: nat, r: nat)
    requires q < 4 && r < 8
    ensures BitAt(x, 8 * q + r) == BitOfByte(ByteAt(x, q), r)
  {
    hide BitAt;
    var y := if q == 0 then x else if q == 1 then x >> 8 else if q == 2 then x >> 16 else x >> 24;
    assert ByteAt(x, q) == (y & 0xFF) as Byte;
    LowByte(y, r);
    ShiftedBit(x, q, r);
  }

  lemma LowByte(y: bv32, r: nat)
    requires r < 8
    ensures BitAt(y, r) == BitOfByte((y & 0xFF) as Byte, r)
  {
    match r
    case 0 =>
    case 1 =>
    case 2 =>
    case 3 =>
    case 4 =>
    case 5 =>
    case 6 =>
    case _ =>
  }

  lemma ShiftedBit(x: bv32, q: nat, r: nat)
    requires q < 4 && r < 8
    ensures BitAt(x, 8 * q + r) ==
            BitAt(if q == 0 then x else if q == 1 then x >> 8 else if q == 2 then x >> 16 else x >> 24, r)
  {
    match r
    case 0 =>
    case 1 =>
    case 2 =>
    case 3 =>
    case 4 =>
    case 5 =>
    case 6 =>
    case _ =>
  }

  lemma BitOfPending(ps: seq<Byte>, j: nat)
    requires |ps| == 4 && j < 32
    ensures BitAt(Assemble(ps), j) == BitOfByte(ps[j / 8], j % 8)
  {
    assert ps == [ps[0], ps[1], ps[2], ps[3]];
    BytesOfWord(ps[0], ps[1], ps[2], ps[3]);
    BitInByte(Assemble(ps), j / 8, j % 8);
    hide BitAt, BitOfByte, ByteAt, Assemble;
    assert 8 * (j / 8) + j % 8 == j;
  }

  /** A word written at address `w` below 4 sets the lock bits of the 32 pages from 32 * (3 - w) on, page by page from
      the lowest bit of the first byte, a 0 locking the page; all other words leave all lock bits. */
  lemma WordLocks(s: State, ps: seq<Byte>, b: Byte, k: nat)
    requires Shape(s) && Pending(s, ps) && |ps| == 3 && s.writing && k < PAGES
    ensures Shape(Step(s, ToFwdata(b))) && |s.pages| == PAGES == |Step(s, ToFwdata(b)).pages|
    ensures Step(s, ToFwdata(b)).pages[k].lockbit ==
            if s.address == 3 - k / 32 then !BitOfByte((ps + [b])[k % 32 / 8], k % 8) else s.pages[k].lockbit
  {
    hide BitAt, BitOfByte, Assemble, Step, FlashWrite, Shape, Pending;
    StepKeepsShape(s, ToFwdata(b));
    FourthByteWrites(s, ps, b);
    BitOfPending(ps + [b], k % 32);
    assert k % 32 % 8 == k % 8;
    LockedByWord(s.(reg := Assemble(ps + [b]), TXNum := 0, regFull := true), k);
  }

  lemma FourthByteWrites(s: State, ps: seq<Byte>, b: Byte)
    requires Shape(s) && Pending(s, ps) && |ps| == 3 && s.writing
    ensures var t := s.(reg := Assemble(ps + [b]), TXNum := 0, regFull := true);
            Shape(t) && Step(s, ToFwdata(b)) == FlashWrite(t)
  {
    hide Assemble, Joined, FlashWrite;
    AssembleNext(ps, b);
  }

  lemma LockedByWord(t: State, k: nat)
    requires Shape(t) && k < PAGES
    ensures |FlashWrite(t).pages| == PAGES == |t.pages|
    ensures FlashWrite(t).pages[k].lockbit ==
            if t.address == 3 - k / 32 then !BitAt(t.reg, k % 32) else t.pages[k].lockbit
  {
    hide BitAt, Stored, ByteAt;
    var w := t.address;
    assert w < 4 ==> PageOf(w) == 0 && WordOf(w) == w;
    assert k == 32 * (k / 32) + k % 32;
  }
}
