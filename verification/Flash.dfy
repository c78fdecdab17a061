/** The CC2530 flash controller: the bytes it assembles and the writes it counts. */
module Flash {
  type Byte = bv8

  const PAGES: nat := 128
  const PAGE_SIZE: nat := 2048
  const FLASHBANK_SIZE: nat := 32768

  datatype Page = Page(writes: int, words: seq<int>, lockbit: bool)

  datatype State = State(
    address: int,
    reg: bv32,
    TXNum: int,
    writing: bool,
    regFull: bool,
    bank: int,
    faddrh: int,
    faddrl: int,
    pages: seq<Page>,
    flash: seq<seq<Byte>>)

  predicate Shape(s: State) {
    && |s.pages| == PAGES
    && (forall p :: 0 <= p < PAGES ==> |s.pages[p].words| == PAGE_SIZE)
    && 0 <= s.TXNum < 4 && 0 <= s.faddrh < 256 && 0 <= s.faddrl < 256
    && 0 <= s.address < 0x1_0000
    && |s.flash| == 8 && (forall b :: 0 <= b < 8 ==> |s.flash[b]| == FLASHBANK_SIZE) && 0 <= s.bank < 8
  }

  // ---------- address arithmetic ----------

  function PageOf(address: int): int { address / 512 % 128 }
  function WordOf(address: int): int { address % 512 }

  /** The bank the address registers select, and the one a page erase selects. */
  function AddressBank(address: int): int { address / 0x4000 % 4 }
  function EraseBank(page: int): int { page / 16 % 8 }

  function FirstByte(address: int): int { 4 * (address % 0x2000) }
  function PageStart(page: int): int { page * PAGE_SIZE % FLASHBANK_SIZE }

  // ---------- the operations ----------

  function Shifted(x: bv32, j: int): bv32 {
    if j == 0 then x else if j == 1 then x << 8 else if j == 2 then x << 16 else x << 24
  }

  /** A byte joined to the register at place `j`. */
  function Joined(reg: bv32, j: int, v: Byte): bv32 {
    reg | Shifted(v as bv32, j)
  }

  function ByteAt(x: bv32, j: int): Byte {
    ((if j == 0 then x else if j == 1 then x >> 8 else if j == 2 then x >> 16 else x >> 24) & 0xFF) as Byte
  }

  function BitAt(x: bv32, i: nat): bool
    requires i < 32
  {
    (x >> i) & 1 == 1
  }

  /** Clean pages: the counts that reset leaves, with no page locked. */
  function CleanPages(): (ps: seq<Page>) {
    seq(PAGES, _ => Page(0, seq(PAGE_SIZE, _ => 0), false))
  }

  function Reset(s: State): State {
    s.(address := 0, reg := 0, TXNum := 0, writing := false, regFull := false, pages := CleanPages())
  }

  /** A bank with one page of it erased. */
  function Blanked(bank: seq<Byte>, start: int): (r: seq<Byte>)
    ensures |r| == |bank|
  {
    seq(|bank|, i requires 0 <= i < |bank| => if start <= i < start + PAGE_SIZE then 0xFF else bank[i])
  }

  function CleanCounts(page: Page): Page {
    page.(writes := 0, words := seq(PAGE_SIZE, _ => 0))
  }

  function ErasePage(s: State, page: int): State
    requires Shape(s) && 0 <= page < PAGES
  {
    var bank := EraseBank(page);
    s.(bank := bank,
       pages := s.pages[page := CleanCounts(s.pages[page])],
       flash := s.flash[bank := Blanked(s.flash[bank], PageStart(page))])
  }

  function CountWrite(s: State): seq<Page>
    requires Shape(s)
  {
    var p, w := PageOf(s.address), WordOf(s.address);
    var page := s.pages[p];
    s.pages[p := page.(writes := page.writes + 1, words := page.words[w := page.words[w] + 1])]
  }

  /** The words 0 to 3 of page 0 set the lock bits of 32 pages each. */
  function LockBits(s: State, pages: seq<Page>): (r: seq<Page>)
    requires Shape(s) && |pages| == PAGES
    ensures |r| == PAGES
  {
    var w := WordOf(s.address);
    if PageOf(s.address) == 0 && w < 4 then
      seq(PAGES, k requires 0 <= k < PAGES =>
        if (3 - w) * 32 <= k < (3 - w) * 32 + 32 then pages[k].(lockbit := !BitAt(s.reg, k - (3 - w) * 32))
        else pages[k])
    else pages
  }

  /** Four bytes in a bank. */
  function Stored(bank: seq<Byte>, d: int, b0: Byte, b1: Byte, b2: Byte, b3: Byte): seq<Byte>
    requires 0 <= d && d + 3 < |bank|
  {
    bank[d := b0][d + 1 := b1][d + 2 := b2][d + 3 := b3]
  }

  function FlashWrite(s: State): State
    requires Shape(s)
  {
    var bank := Stored(s.flash[s.bank], FirstByte(s.address),
                       ByteAt(s.reg, 0), ByteAt(s.reg, 1), ByteAt(s.reg, 2), ByteAt(s.reg, 3));
    s.(pages := LockBits(s, CountWrite(s)), flash := s.flash[s.bank := bank], reg := 0, regFull := false)
  }

  /** A byte for the data register. */
  function TakeByte(s: State, v: Byte): State
    requires Shape(s)
  {
    if s.regFull || !s.writing then s
    else
      var reg := Joined(if s.TXNum == 0 then 0 else s.reg, s.TXNum, v);
      if s.TXNum + 1 == 4 then FlashWrite(s.(reg := reg, TXNum := 0, regFull := true))
      else s.(reg := reg, TXNum := s.TXNum + 1)
  }

  datatype Event =
    | ToFctl(v: int)
    | ToFaddrh(v: int)
    | ToFaddrl(v: int)
    | ToFwdata(b: Byte)
    | DoReset

  predicate IsEvent(e: Event) {
    (e.ToFctl? || e.ToFaddrh? || e.ToFaddrl?) ==> 0 <= e.v < 256
  }

  /** The bits of the control register. */
  predicate Erases(v: int) { v % 2 == 1 }
  predicate Writes(v: int) { v / 2 % 2 == 1 }

  function Step(s: State, e: Event): State
    requires Shape(s) && IsEvent(e)
  {
    match e
    case ToFctl(v) =>
      (if Erases(v) then ErasePage(s, s.faddrh / 2 % 128) else s).(writing := Writes(v))
    case ToFaddrh(v) =>
      var a := v * 256 + s.faddrl;
      s.(address := a, bank := AddressBank(a), faddrh := v)
    case ToFaddrl(v) =>
      var a := s.faddrh * 256 + v;
      s.(address := a, bank := AddressBank(a), faddrl := v)
    case ToFwdata(b) => TakeByte(s, b)
    case DoReset => Reset(s)
  }

  // ---------- what every run keeps ----------

  function Sum(xs: seq<int>): int {
    if xs == [] then 0 else xs[0] + Sum(xs[1..])
  }

  lemma {:induction false} SumUpdate(xs: seq<int>, i: nat, x: int)
    requires i < |xs|
    ensures Sum(xs[i := x]) == Sum(xs) - xs[i] + x
  {
    if i == 0 {
      assert xs[0 := x][1..] == xs[1..];
    } else {
      assert xs[i := x][1..] == xs[1..][i - 1 := x];
      SumUpdate(xs[1..], i - 1, x);
    }
  }

  lemma {:induction false} SumZeros(n: nat)
    ensures Sum(seq(n, _ => 0)) == 0
  {
    if n > 0 {
      assert seq(n, _ => 0)[1..] == seq(n - 1, _ => 0);
      SumZeros(n - 1);
    }
  }

  /** The count of a page is the sum of the counts of its words. */
  predicate CountsAgree(s: State) {
    forall p :: 0 <= p < |s.pages| ==> s.pages[p].writes == Sum(s.pages[p].words)
  }

  lemma StepKeepsShape(s: State, e: Event)
    requires Shape(s) && IsEvent(e)
    ensures Shape(Step(s, e))
  {
  }

  lemma StepKeepsCounts(s: State, e: Event)
    requires Shape(s) && IsEvent(e) && CountsAgree(s)
    ensures CountsAgree(Step(s, e))
  {
    SumZeros(PAGE_SIZE);
    if e.ToFwdata? {
      var p, w := PageOf(s.address), WordOf(s.address);
      SumUpdate(s.pages[p].words, w, s.pages[p].words[w] + 1);
    }
  }

  // ---------- the pending bytes ----------

  function Assemble(ps: seq<Byte>): bv32 {
    if |ps| == 0 then 0
    else if |ps| == 1 then ps[0] as bv32
    else if |ps| == 2 then (ps[0] as bv32) | ((ps[1] as bv32) << 8)
    else if |ps| == 3 then (ps[0] as bv32) | ((ps[1] as bv32) << 8) | ((ps[2] as bv32) << 16)
    else (ps[0] as bv32) | ((ps[1] as bv32) << 8) | ((ps[2] as bv32) << 16) | ((ps[3] as bv32) << 24)
  }

  /** The bytes accepted since the last whole word or reset. */
  function NextPending(s: State, ps: seq<Byte>, e: Event): seq<Byte> {
    match e
    case ToFwdata(b) => if !s.writing then ps else if |ps| == 3 then [] else ps + [b]
    case DoReset => []
    case _ => ps
  }

  predicate Pending(s: State, ps: seq<Byte>) {
    !s.regFull && |ps| == s.TXNum && (ps != [] ==> s.reg == Assemble(ps))
  }

  lemma TakeByteKeepsPending(s: State, ps: seq<Byte>, b: Byte)
    requires Shape(s) && Pending(s, ps)
    ensures Pending(TakeByte(s, b), NextPending(s, ps, ToFwdata(b)))
  {
    hide LockBits, CountWrite, Stored, Assemble, ByteAt, Joined;
    AssembleNext(ps, b);
  }

  lemma StepKeepsPending(s: State, ps: seq<Byte>, e: Event)
    requires Shape(s) && IsEvent(e) && Pending(s, ps)
    ensures Pending(Step(s, e), NextPending(s, ps, e))
  {
    hide TakeByte, Blanked, CleanPages, Assemble;
    if e.ToFwdata? {
      TakeByteKeepsPending(s, ps, e.b);
    }
  }

  lemma AssembleNext(ps: seq<Byte>, b: Byte)
    requires |ps| < 4
    ensures Assemble(ps + [b]) == Joined(if ps == [] then 0 else Assemble(ps), |ps|, b)
  {
    if |ps| == 0 {
    } else if |ps| == 1 {
    } else if |ps| == 2 {
    } else {
    }
  }

  lemma BytesOfWord(b0: Byte, b1: Byte, b2: Byte, b3: Byte)
    ensures var r := Assemble([b0, b1, b2, b3]);
            ByteAt(r, 0) == b0 && ByteAt(r, 1) == b1 && ByteAt(r, 2) == b2 && ByteAt(r, 3) == b3
  {
  }

  /** The fourth byte stores the word at four times the word address, in the order of arrival. */
  lemma WordLands(s: State, ps: seq<Byte>, b: Byte)
    requires Shape(s) && Pending(s, ps) && |ps| == 3 && s.writing
    ensures Step(s, ToFwdata(b)).flash ==
            s.flash[s.bank := Stored(s.flash[s.bank], FirstByte(s.address), ps[0], ps[1], ps[2], b)]
  {
    hide ByteAt, Stored, LockBits, CountWrite, FirstByte, Assemble, Joined;
    AssembleNext(ps, b);
    assert ps + [b] == [ps[0], ps[1], ps[2], b];
    BytesOfWord(ps[0], ps[1], ps[2], b);
  }

  /** One to three bytes, and everything that is neither a fourth byte nor an erase, leave the flash alone. */
  lemma NothingElseWrites(s: State, ps: seq<Byte>, e: Event)
    requires Shape(s) && IsEvent(e) && Pending(s, ps)
    requires !(e.ToFwdata? && s.writing && |ps| == 3) && !(e.ToFctl? && Erases(e.v))
    ensures Step(s, e).flash == s.flash
    ensures !e.DoReset? ==> Step(s, e).pages == s.pages
  {
  }

  // ---------- the counts are the history ----------

  datatype Effect = Wrote(page: int, word: int) | ErasedPage(page: int) | AllReset

  function EffectOf(s: State, e: Event): seq<Effect> {
    match e
    case ToFwdata(_) =>
      if s.writing && !s.regFull && s.TXNum == 3 then [Wrote(PageOf(s.address), WordOf(s.address))] else []
    case ToFctl(v) => if Erases(v) then [ErasedPage(s.faddrh / 2 % 128)] else []
    case DoReset => [AllReset]
    case _ => []
  }

  /** The writes of a word since its page was last erased or all counts were reset. */
  function WordWrites(log: seq<Effect>, p: int, w: int): nat {
    if log == [] then 0
    else
      var before := log[..|log| - 1];
      match log[|log| - 1]
      case Wrote(q, v) => WordWrites(before, p, w) + if q == p && v == w then 1 else 0
      case ErasedPage(q) => if q == p then 0 else WordWrites(before, p, w)
      case AllReset => 0
  }

  predicate Explained(s: State, log: seq<Effect>)
    requires Shape(s)
  {
    forall p, w :: 0 <= p < PAGES && 0 <= w < PAGE_SIZE ==> s.pages[p].words[w] == WordWrites(log, p, w)
  }

  lemma LastEffect(log: seq<Effect>, f: Effect, p: int, w: int)
    ensures WordWrites(log + [f], p, w) ==
            match f
            case Wrote(q, v) => WordWrites(log, p, w) + (if q == p && v == w then 1 else 0)
            case ErasedPage(q) => if q == p then 0 else WordWrites(log, p, w)
            case AllReset => 0
  {
    assert (log + [f])[..|log|] == log;
  }

  /** The word counts a step leaves. */
  lemma StepCounts(s: State, e: Event, p: int, w: int)
    requires Shape(s) && IsEvent(e) && 0 <= p < PAGES && 0 <= w < PAGE_SIZE
    ensures Shape(Step(s, e))
    ensures var fs := EffectOf(s, e);
            Step(s, e).pages[p].words[w] ==
            if fs == [] then s.pages[p].words[w]
            else
              match fs[0]
              case Wrote(q, v) => s.pages[p].words[w] + (if q == p && v == w then 1 else 0)
              case ErasedPage(q) => if q == p then 0 else s.pages[p].words[w]
              case AllReset => 0
  {
    hide Stored, Blanked, Joined, ByteAt, BitAt;
    StepKeepsShape(s, e);
  }

  lemma StepKeepsExplained(s: State, log: seq<Effect>, e: Event)
    requires Shape(s) && IsEvent(e) && Explained(s, log)
    ensures Shape(Step(s, e)) && Explained(Step(s, e), log + EffectOf(s, e))
  {
    StepKeepsShape(s, e);
    hide Step, Shape, WordWrites;
    var fs := EffectOf(s, e);
    forall p, w | 0 <= p < PAGES && 0 <= w < PAGE_SIZE
      ensures Step(s, e).pages[p].words[w] == WordWrites(log + fs, p, w)
    {
      StepCounts(s, e, p, w);
      if fs == [] {
        assert log + fs == log;
      } else {
        LastEffect(log, fs[0], p, w);
        assert [fs[0]] == fs;
      }
    }
  }

  /** A run with the pending bytes and the history kept beside it. */
  datatype Traced = Traced(s: State, pending: seq<Byte>, log: seq<Effect>)

  ghost predicate Sound(t: Traced) {
    Shape(t.s) && CountsAgree(t.s) && Pending(t.s, t.pending) && Explained(t.s, t.log)
  }

  function Advance(t: Traced, e: Event): Traced
    requires Shape(t.s) && IsEvent(e)
  {
    Traced(Step(t.s, e), NextPending(t.s, t.pending, e), t.log + EffectOf(t.s, e))
  }

  ghost predicate Reaches(t: Traced, events: seq<Event>, u: Traced)
    decreases |events|
  {
    if events == [] then u == t
    else Shape(t.s) && IsEvent(events[0]) && Reaches(Advance(t, events[0]), events[1..], u)
  }

  lemma AdvanceSound(t: Traced, e: Event)
    requires Sound(t) && IsEvent(e)
    ensures Sound(Advance(t, e))
  {
    StepKeepsShape(t.s, e);
    StepKeepsCounts(t.s, e);
    StepKeepsPending(t.s, t.pending, e);
    StepKeepsExplained(t.s, t.log, e);
    hide Step, Shape, CountsAgree, Explained, Pending;
  }

  /**
   * In every run from a sound state: each word counts its writes since its page was erased or the controller
   * reset, each page counts the sum of its words, and the register holds the pending bytes.
   */
  lemma {:induction false} EveryRunIsSound(t: Traced, events: seq<Event>, u: Traced)
    requires Sound(t) && Reaches(t, events, u)
    ensures Sound(u)
    decreases |events|
  {
    if events != [] {
      AdvanceSound(t, events[0]);
      EveryRunIsSound(Advance(t, events[0]), events[1..], u);
    }
  }

  /** Reset makes a sound state of any state. */
  lemma ResetIsSound(s: State)
    requires Shape(s)
    ensures Sound(Traced(Reset(s), [], []))
  {
    SumZeros(PAGE_SIZE);
  }

  /** So every run after a reset is sound, whatever came before it. */
  lemma RunsFromResetAreSound(s: State, events: seq<Event>, u: Traced)
    requires Shape(s) && Reaches(Traced(Reset(s), [], []), events, u)
    ensures Sound(u)
  {
    ResetIsSound(s);
    EveryRunIsSound(Traced(Reset(s), [], []), events, u);
  }

  // ---------- the bank a page lives in ----------

  lemma BanksAgreeIff(a: int)
    requires 0 <= a < 0x1_0000
    ensures EraseBank(PageOf(a)) == AddressBank(a) <==> PageOf(a) < 16
  {
    var p := PageOf(a);
    assert p == a / 512;
    assert a / 0x4000 == p / 32;
  }

  /** Erasing the page of a word blanks the word for pages below 16; for the others it blanks another bank. */
  lemma EraseReachesIff(s: State, i: nat)
    requires Shape(s) && i < 4
    ensures var p, b, d := PageOf(s.address), AddressBank(s.address), FirstByte(s.address) + i;
            && d < FLASHBANK_SIZE
            && ErasePage(s, p).flash[b][d] == (if p < 16 then 0xFF else s.flash[b][d])
            && (EraseBank(p) == b <==> p < 16)
  {
    var a, p := s.address, PageOf(s.address);
    BanksAgreeIff(a);
    PageHoldsWord(a);
    assert FirstByte(a) + 3 < FLASHBANK_SIZE && 0 <= p < PAGES && 0 <= AddressBank(a) < 8;
    hide PageOf, EraseBank, AddressBank, PageStart, FirstByte;
  }

  /** Four bytes for the data register, one after the other. */
  function FourBytes(s: State, b0: Byte, b1: Byte, b2: Byte, b3: Byte): State
    requires Shape(s)
  {
    StepKeepsShape(s, ToFwdata(b0));
    var s1 := Step(s, ToFwdata(b0));
    StepKeepsShape(s1, ToFwdata(b1));
    var s2 := Step(s1, ToFwdata(b1));
    StepKeepsShape(s2, ToFwdata(b2));
    Step(Step(s2, ToFwdata(b2)), ToFwdata(b3))
  }

  lemma TakesEarlyByte(s: State, ps: seq<Byte>, b: Byte)
    requires Shape(s) && Pending(s, ps) && s.writing && |ps| < 3
    ensures var t := Step(s, ToFwdata(b));
            Pending(t, ps + [b]) && t == s.(reg := t.reg, TXNum := t.TXNum)
  {
    StepKeepsPending(s, ps, ToFwdata(b));
    hide Assemble, Joined, FlashWrite;
  }

  lemma FourBytesLand(s: State, b0: Byte, b1: Byte, b2: Byte, b3: Byte)
    requires Shape(s) && Pending(s, []) && s.writing
    ensures FourBytes(s, b0, b1, b2, b3).flash ==
            s.flash[s.bank := Stored(s.flash[s.bank], FirstByte(s.address), b0, b1, b2, b3)]
  {
    var s1, s2 := Step(s, ToFwdata(b0)), Step(Step(s, ToFwdata(b0)), ToFwdata(b1));
    hide Step, Shape, Pending, Stored, FirstByte;
    TakesEarlyByte(s, [], b0);
    StepKeepsShape(s, ToFwdata(b0));
    TakesEarlyByte(s1, [b0], b1);
    StepKeepsShape(s1, ToFwdata(b1));
    assert [b0] + [b1] == [b0, b1] && [] + [b0] == [b0];
    TakesEarlyByte(s2, [b0, b1], b2);
    StepKeepsShape(s2, ToFwdata(b2));
    assert [b0, b1] + [b2] == [b0, b1, b2];
    WordLands(Step(s2, ToFwdata(b2)), [b0, b1, b2], b3);
  }

  /**
   * An erase moves the bank that later writes go to: a word written after it lands in the bank the erase chose,
   * and after writing the address registers again in the bank of the address. The two are the same exactly for
   * pages below 16.
   */
  lemma WriteAfterErase(s: State, v: int, b0: Byte, b1: Byte, b2: Byte, b3: Byte)
    requires Shape(s) && Pending(s, []) && 0 <= v < 256 && Erases(v) && Writes(v)
    requires s.address == s.faddrh * 256 + s.faddrl
    ensures var p, b, d := PageOf(s.address), AddressBank(s.address), FirstByte(s.address);
            var t := Step(s, ToFctl(v));
            && Shape(t) && t.flash == ErasePage(s, p).flash
            && FourBytes(t, b0, b1, b2, b3).flash ==
               t.flash[EraseBank(p) := Stored(t.flash[EraseBank(p)], d, b0, b1, b2, b3)]
            && (EraseBank(p) == b <==> p < 16)
    ensures var b, d := AddressBank(s.address), FirstByte(s.address);
            var t := Step(s, ToFctl(v));
            var u := Step(t, ToFaddrl(s.faddrl));
            && Shape(u) && FourBytes(u, b0, b1, b2, b3).flash == t.flash[b := Stored(t.flash[b], d, b0, b1, b2, b3)]
  {
    hide Stored, FirstByte, Pending, Step, ErasePage, FourBytes, Erases, Writes;
    EraseMovesBank(s, v);
    EraseReachesIff(s, 0);
    var t := Step(s, ToFctl(v));
    var u := Step(t, ToFaddrl(s.faddrl));
    FourBytesLand(t, b0, b1, b2, b3);
    FourBytesLand(u, b0, b1, b2, b3);
  }

  lemma PageInRegister(h: int, l: int)
    requires 0 <= h < 256 && 0 <= l < 256
    ensures h / 2 % 128 == PageOf(h * 256 + l)
  {
    assert (h * 256 + l) / 512 == h / 2;
  }

  /** The state after an erase and after writing the low address register again. */
  lemma EraseMovesBank(s: State, v: int)
    requires Shape(s) && Pending(s, []) && 0 <= v < 256 && Erases(v) && Writes(v)
    requires s.address == s.faddrh * 256 + s.faddrl
    ensures var t := Step(s, ToFctl(v));
            && Shape(t) && Pending(t, []) && t.writing && t.address == s.address
            && t.bank == EraseBank(PageOf(s.address))
            && t.flash == ErasePage(s, PageOf(s.address)).flash
    ensures var t := Step(s, ToFctl(v));
            var u := Step(t, ToFaddrl(s.faddrl));
            && Shape(u) && Pending(u, []) && u.writing && u.address == s.address && u.bank == AddressBank(s.address)
            && u.flash == t.flash
  {
    PageInRegister(s.faddrh, s.faddrl);
    StepKeepsShape(s, ToFctl(v));
    StepKeepsShape(Step(s, ToFctl(v)), ToFaddrl(s.faddrl));
    hide Shape, Blanked, Assemble, CleanCounts;
  }

  lemma PageHoldsWord(a: int)
    requires 0 <= a < 0x1_0000
    ensures PageStart(PageOf(a)) <= FirstByte(a) && FirstByte(a) + 3 < PageStart(PageOf(a)) + PAGE_SIZE
  {
    var p, w := a / 512, a % 512;
    assert p * PAGE_SIZE % FLASHBANK_SIZE == PAGE_SIZE * (p % 16) by {
      assert p == 16 * (p / 16) + p % 16;
    }
    assert a % 0x2000 == 512 * (p % 16) + w;
  }
}
