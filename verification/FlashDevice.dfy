/** The flash controller object. */
module FlashDevice {
  import opened Arith
  import opened Flash

  /** The state after erasing the first `n` pages in order. */
  function ErasedBelow(s: State, n: nat): (r: State)
    requires Shape(s) && n <= PAGES
    ensures Shape(r)
  {
    if n == 0 then s
    else
      StepErase(ErasedBelow(s, n - 1), n - 1);
      ErasePage(ErasedBelow(s, n - 1), n - 1)
  }

  lemma StepErase(s: State, page: nat)
    requires Shape(s) && page < PAGES
    ensures Shape(ErasePage(s, page))
  {
  }

  lemma PagePlace(page: nat)
    requires page < PAGES
    ensures PageStart(page) == PAGE_SIZE * (page % 16) && EraseBank(page) == page / 16
  {
    assert page * PAGE_SIZE == FLASHBANK_SIZE * (page / 16) + PAGE_SIZE * (page % 16);
    DivModUnique(page * PAGE_SIZE, FLASHBANK_SIZE, page / 16, PAGE_SIZE * (page % 16));
  }

  /** The erased part after `n` pages: whole banks, then the start of the next one. */
  lemma {:induction false} ErasedSoFar(s: State, n: nat)
    requires Shape(s) && n <= PAGES
    ensures var t := ErasedBelow(s, n);
            && (forall b, d :: 0 <= b < 8 && 0 <= d < FLASHBANK_SIZE ==>
                  t.flash[b][d] == if b * FLASHBANK_SIZE + d < n * PAGE_SIZE then 0xFF else s.flash[b][d])
            && (forall p :: 0 <= p < PAGES ==> t.pages[p] == if p < n then CleanCounts(s.pages[p]) else s.pages[p])
  {
    hide PageStart, EraseBank, CleanCounts;
    if n > 0 {
      ErasedSoFar(s, n - 1);
      var t := ErasedBelow(s, n - 1);
      PagePlace(n - 1);
      var u := ErasePage(t, n - 1);
      forall b, d | 0 <= b < 8 && 0 <= d < FLASHBANK_SIZE
        ensures u.flash[b][d] == if b * FLASHBANK_SIZE + d < n * PAGE_SIZE then 0xFF else s.flash[b][d]
      {
        assert t.flash[b][d] == if b * FLASHBANK_SIZE + d < (n - 1) * PAGE_SIZE then 0xFF else s.flash[b][d];
      }
    }
  }

  /** A chip erase leaves no byte programmed and no write counted. */
  lemma ChipEraseBlanksAll(s: State)
    requires Shape(s)
    ensures var t := ErasedBelow(s, PAGES);
            && (forall b, d :: 0 <= b < 8 && 0 <= d < FLASHBANK_SIZE ==> t.flash[b][d] == 0xFF)
            && (forall p :: 0 <= p < PAGES ==> t.pages[p] == CleanCounts(s.pages[p]))
  {
    ErasedSoFar(s, PAGES);
  }

  lemma {:induction false} KeepsRegisters(s: State, n: nat)
    requires Shape(s) && n <= PAGES
    ensures var t := ErasedBelow(s, n); t == s.(bank := t.bank, pages := t.pages, flash := t.flash)
  {
    if n > 0 {
      KeepsRegisters(s, n - 1);
    }
  }

  class FlashController {
    var address: int
    var reg: bv32
    var TXNum: int
    var writing: bool
    var regFull: bool
    var bank: int
    var faddrh: int
    var faddrl: int
    const PageTab: array<Page>
    const banks: array<seq<Byte>>

    ghost function Value(): State
      reads this, PageTab, banks
    {
      State(address, reg, TXNum, writing, regFull, bank, faddrh, faddrl, PageTab[..], banks[..])
    }

    ghost predicate Valid()
      reads this, PageTab, banks
    {
      Shape(Value())
    }

    /** The banks and the address cells hold anything before; then come a reset and a chip erase. */
    constructor (content: seq<seq<Byte>>, addressHigh: int, addressLow: int)
      requires |content| == 8 && forall b :: 0 <= b < 8 ==> |content[b]| == FLASHBANK_SIZE
      requires 0 <= addressHigh < 256 && 0 <= addressLow < 256
      ensures Valid() && fresh(PageTab) && fresh(banks)
      ensures forall b, d :: 0 <= b < 8 && 0 <= d < FLASHBANK_SIZE ==> Value().flash[b][d] == 0xFF
      ensures Sound(Traced(Value(), [], []))
    {
      faddrh, faddrl, bank, address, TXNum := addressHigh, addressLow, 0, 0, 0;
      PageTab := new Page[PAGES](_ => Page(0, seq(PAGE_SIZE, _ => 0), false));
      banks := new seq<Byte>[8](b requires 0 <= b < 8 => content[b]);
      new;
      Reset();
      ghost var s := Value();
      ChipErase();
      ChipEraseBlanksAll(s);
      KeepsRegisters(s, PAGES);
      SumZeros(PAGE_SIZE);
      assert forall p :: 0 <= p < PAGES ==> PageTab[p] == CleanPages()[p];
    }

    method ErasePage(page: nat)
      requires Valid() && page < PAGES
      modifies `bank, PageTab, banks
      ensures Valid() && Value() == Flash.ErasePage(old(Value()), page)
    {
      ghost var s := Value();
      bank := page / 16 % 8;
      var start := page * PAGE_SIZE % FLASHBANK_SIZE;
      PagePlace(page);
      var i := 0;
      while i < PAGE_SIZE
        invariant 0 <= i <= PAGE_SIZE && PageTab.Length == PAGES && banks.Length == 8
        invariant |banks[bank]| == FLASHBANK_SIZE && |PageTab[page].words| == PAGE_SIZE
        invariant forall d :: 0 <= d < FLASHBANK_SIZE ==>
                    banks[bank][d] == if start <= d < start + i then 0xFF else s.flash[bank][d]
        invariant forall b :: 0 <= b < 8 && b != bank ==> banks[b] == s.flash[b]
        invariant PageTab[page] == s.pages[page].(words := PageTab[page].words)
        invariant forall j :: 0 <= j < i ==> PageTab[page].words[j] == 0
        invariant forall p :: 0 <= p < PAGES && p != page ==> PageTab[p] == s.pages[p]
        modifies PageTab, banks
      {
        banks[bank] := banks[bank][start + i := 0xFF];
        PageTab[page] := PageTab[page].(words := PageTab[page].words[i := 0]);
        i := i + 1;
      }
      PageTab[page] := PageTab[page].(writes := 0);
      assert PageTab[page].words == CleanCounts(s.pages[page]).words;
      assert banks[bank] == Blanked(s.flash[bank], start);
      assert banks[..] == Flash.ErasePage(s, page).flash;
    }

    method ChipErase()
      requires Valid()
      modifies `bank, PageTab, banks
      ensures Valid() && Value() == ErasedBelow(old(Value()), PAGES)
    {
      ghost var s := Value();
      var i := 0;
      while i < PAGES
        invariant 0 <= i <= PAGES && Valid() && Value() == ErasedBelow(s, i)
      {
        ErasePage(i);
        i := i + 1;
      }
    }

    method Reset()
      requires Valid()
      modifies this, PageTab
      ensures Valid() && Value() == Flash.Reset(old(Value()))
    {
      var i := 0;
      while i < PAGES
        invariant 0 <= i <= PAGES && PageTab.Length == PAGES
        invariant forall p :: 0 <= p < i ==> PageTab[p] == CleanPages()[p]
        invariant forall p :: i <= p < PAGES ==> |PageTab[p].words| == PAGE_SIZE
        modifies PageTab
      {
        PageTab[i] := PageTab[i].(writes := 0, lockbit := false);
        var j := 0;
        while j < PAGE_SIZE
          invariant 0 <= j <= PAGE_SIZE && |PageTab[i].words| == PAGE_SIZE
          invariant PageTab[i].writes == 0 && !PageTab[i].lockbit
          invariant forall k :: 0 <= k < j ==> PageTab[i].words[k] == 0
          invariant forall p :: 0 <= p < i ==> PageTab[p] == CleanPages()[p]
          invariant forall p :: i < p < PAGES ==> |PageTab[p].words| == PAGE_SIZE
          modifies PageTab
        {
          PageTab[i] := PageTab[i].(words := PageTab[i].words[j := 0]);
          j := j + 1;
        }
        assert PageTab[i].words == CleanPages()[i].words;
        i := i + 1;
      }
      assert PageTab[..] == CleanPages();
      writing, regFull, reg, address, TXNum := false, false, 0, 0, 0;
    }

    method FlashWrite()
      requires Valid()
      modifies `reg, `regFull, PageTab, banks
      ensures Valid() && Value() == Flash.FlashWrite(old(Value()))
    {
      ghost var s := Value();
      var page, word := address / 512 % 128, address % 512;
      Count(page, word);
      Store();
      if page == 0 && word < 4 {
        SetLocks(word);
      }
      assert PageTab[..] == LockBits(s, CountWrite(s));
      reg := 0;
      regFull := false;
    }

    method Count(page: nat, word: nat)
      requires Valid() && page == PageOf(address) && word == WordOf(address)
      modifies PageTab
      ensures Valid() && PageTab[..] == CountWrite(old(Value()))
    {
      ghost var s := Value();
      PageTab[page] := PageTab[page].(writes := PageTab[page].writes + 1);
      PageTab[page] := PageTab[page].(words := PageTab[page].words[word := PageTab[page].words[word] + 1]);
      assert PageTab[..] == CountWrite(s);
    }

    /** The four bytes of the register, lowest first. */
    method Store()
      requires Valid()
      modifies banks
      ensures Valid() && banks[..] == Flash.FlashWrite(old(Value())).flash
    {
      hide ByteAt, LockBits, CountWrite;
      ghost var s := Value();
      var first := 4 * (address % 0x2000);
      ghost var was := banks[bank];
      var i := 0;
      while i < 4
        invariant 0 <= i <= 4 && banks.Length == 8 && |banks[bank]| == FLASHBANK_SIZE
        invariant forall b :: 0 <= b < 8 && b != bank ==> banks[b] == s.flash[b]
        invariant forall d :: 0 <= d < FLASHBANK_SIZE ==>
                    banks[bank][d] == if first <= d < first + i then ByteAt(reg, d - first) else was[d]
      {
        banks[bank] := banks[bank][first + i := ByteAt(reg, i)];
        i := i + 1;
      }
      assert banks[bank] == Stored(was, first, ByteAt(reg, 0), ByteAt(reg, 1), ByteAt(reg, 2), ByteAt(reg, 3));
      assert banks[..] == Flash.FlashWrite(s).flash;
    }

    method SetLocks(word: nat)
      requires Valid() && word < 4
      modifies PageTab
      ensures PageTab.Length == PAGES
      ensures forall k :: 0 <= k < PAGES ==>
                PageTab[k] == if (3 - word) * 32 <= k < (3 - word) * 32 + 32
                              then old(PageTab[k]).(lockbit := !BitAt(reg, k - (3 - word) * 32)) else old(PageTab[k])
    {
      var base := (3 - word) * 32;
      var i := 0;
      while i < 32
        invariant 0 <= i <= 32
        invariant forall k :: 0 <= k < PAGES ==>
                    PageTab[k] == if base <= k < base + i
                                  then old(PageTab[k]).(lockbit := !BitAt(reg, k - base)) else old(PageTab[k])
      {
        PageTab[base + i] := PageTab[base + i].(lockbit := !BitAt(reg, i));
        i := i + 1;
      }
    }

    method WriteFwdata(v: Byte)
      requires Valid()
      modifies `reg, `regFull, `TXNum, PageTab, banks
      ensures Valid() && Value() == TakeByte(old(Value()), v)
    {
      if !regFull && writing {
        if TXNum == 0 {
          reg := 0;
        }
        reg := Joined(reg, TXNum, v);
        TXNum := TXNum + 1;
        if TXNum == 4 {
          regFull := true;
          TXNum := 0;
          FlashWrite();
        }
      }
    }

    /** A write to one of the registers; the cell takes the value after it. */
    method Write(e: Event)
      requires Valid() && IsEvent(e)
      modifies this, PageTab, banks
      ensures Valid() && Value() == Step(old(Value()), e)
    {
      match e
      case ToFctl(v) =>
        if v % 2 == 1 {
          ErasePage(faddrh / 2 % 128);
        }
        writing := v / 2 % 2 == 1;
      case ToFaddrh(v) =>
        address := v * 256 + faddrl;
        bank := address / 0x4000 % 4;
        faddrh := v;
      case ToFaddrl(v) =>
        address := faddrh * 256 + v;
        bank := address / 0x4000 % 4;
        faddrl := v;
      case ToFwdata(b) =>
        WriteFwdata(b);
      case DoReset =>
        Reset();
    }
  }
}
