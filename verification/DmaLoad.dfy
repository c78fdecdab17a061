/** What the eight configuration bytes mean, and what a channel configured by them does to memory. */
module DmaLoad {
  import opened Arith
  import opened Dma
  import opened DmaLaws

  /** The fields of a configuration, as a program sets them up. */
  datatype Fields = Fields(
    source: int, destination: int, vlen: int, len: int, word: bool, mode: int, trigger: int,
    sourceCode: int, destinationCode: int, mask: bool, low: int)

  predicate IsFields(f: Fields) {
    && 0 <= f.source < 0x1_0000 && 0 <= f.destination < 0x1_0000 && 0 <= f.vlen < 8 && 0 <= f.len < 0x2000
    && 0 <= f.mode < 4 && 0 <= f.trigger < 32 && 0 <= f.sourceCode < 4 && 0 <= f.destinationCode < 4 && 0 <= f.low < 8
  }

  function One(b: bool): int {
    if b then 1 else 0
  }

  /** The eight bytes at `a`; the low three bits of the last one play no part. */
  predicate Encodes(m: Memory, a: int, f: Fields) {
    && Read(m, a) * 256 + Read(m, a + 1) == f.source
    && Read(m, a + 2) * 256 + Read(m, a + 3) == f.destination
    && Read(m, a + 4) == f.vlen * 32 + f.len / 256
    && Read(m, a + 5) == f.len % 256
    && Read(m, a + 6) == One(f.word) * 128 + f.mode * 32 + f.trigger
    && Read(m, a + 7) == f.sourceCode * 64 + f.destinationCode * 16 + One(f.mask) * 8 + f.low
  }

  // ---------- the fields come back ----------

  lemma LengthField(vlen: int, len: int)
    requires 0 <= vlen < 8 && 0 <= len < 0x2000
    ensures var b := vlen * 32 + len / 256; b / 32 % 8 == vlen && b % 32 == len / 256
  {
    DivModUnique(vlen * 32 + len / 256, 32, vlen, len / 256);
  }

  lemma ModeField(word: bool, mode: int, trigger: int)
    requires 0 <= mode < 4 && 0 <= trigger < 32
    ensures var b := One(word) * 128 + mode * 32 + trigger;
            && b / 128 % 2 == One(word) && b % 32 == trigger
            && b / 32 % 2 == mode % 2 && b / 64 % 2 == mode / 2
  {
    var b := One(word) * 128 + mode * 32 + trigger;
    DivModUnique(b, 128, One(word), mode * 32 + trigger);
    DivModUnique(b, 32, One(word) * 4 + mode, trigger);
    DivModUnique(b, 64, One(word) * 2 + mode / 2, mode % 2 * 32 + trigger);
  }

  lemma IncrementField(s: int, d: int, mask: bool, low: int)
    requires 0 <= s < 4 && 0 <= d < 4 && 0 <= low < 8
    ensures var b := s * 64 + d * 16 + One(mask) * 8 + low;
            b / 64 % 4 == s && b / 16 % 4 == d && b / 8 % 2 == One(mask)
  {
    var b := s * 64 + d * 16 + One(mask) * 8 + low;
    DivModUnique(b, 64, s, d * 16 + One(mask) * 8 + low);
    DivModUnique(b, 16, s * 4 + d, One(mask) * 8 + low);
    DivModUnique(b, 8, s * 8 + d * 2 + One(mask), low);
  }

  /** Increment codes: stay, one up, two up, one down. */
  predicate Steps(code: int, inc: int) {
    (code == 0 && inc == 0) || (code == 1 && inc == 1) || (code == 2 && inc == 2) || (code == 3 && inc == -1)
  }

  /** The number of units: LEN, or with a variable length no more than the first source byte says, and no more than
      LEN. Codes 1, 3 and 4 add 1, 2 and 3 to that byte. */
  predicate Counts(f: Fields, first: int, count: int) {
    var variable := first + (if f.vlen == 1 then 1 else if f.vlen == 3 then 2 else if f.vlen == 4 then 3 else 0);
    if f.vlen == 0 || f.vlen == 7 then count == f.len
    else count <= f.len && count <= variable && (count == f.len || count == variable)
  }

  lemma IncrementSteps(code: int)
    requires 0 <= code < 4
    ensures Steps(code, Increment(code))
  {
  }

  lemma CountIs(f: Fields, first: int)
    requires IsFields(f)
    ensures Counts(f, first, TransferCount(f.vlen, f.len, first))
  {
  }

  /** A load of bytes laid out in this way gives exactly the fields. */
  lemma LoadsFields(m: Memory, a: int, f: Fields)
    requires IsFields(f) && Encodes(m, a, f)
    ensures var t := Decode(m, a);
            && t.source == f.source && t.destination == f.destination
            && Counts(f, Read(m, f.source), t.count)
            && Steps(f.sourceCode, t.srcInc) && Steps(f.destinationCode, t.destInc)
            && t.word == f.word && t.triggerEvent == f.trigger && t.itMask == f.mask
            && (t.single <==> f.mode == 0 || f.mode == 2) && (t.repeated <==> f.mode == 2 || f.mode == 3)
  {
    hide TransferCount, Increment, Steps, Counts;
    IncrementSteps(f.sourceCode);
    IncrementSteps(f.destinationCode);
    CountIs(f, Read(m, f.source));
    LengthField(f.vlen, f.len);
    ModeField(f.word, f.mode, f.trigger);
    IncrementField(f.sourceCode, f.destinationCode, f.mask, f.low);
    assert f.len / 256 * 256 + f.len % 256 == f.len;
  }

  /** Every set of fields has such bytes. */
  lemma FieldsHaveBytes(f: Fields, a: int) returns (m: Memory)
    requires IsFields(f)
    ensures Encodes(m, a, f) && forall x :: 0 <= Read(m, x) < 256
  {
    var b4 := f.vlen * 32 + f.len / 256;
    var b6 := One(f.word) * 128 + f.mode * 32 + f.trigger;
    var b7 := f.sourceCode * 64 + f.destinationCode * 16 + One(f.mask) * 8 + f.low;
    m := map[a := f.source / 256, a + 1 := f.source % 256, a + 2 := f.destination / 256, a + 3 := f.destination % 256,
             a + 4 := b4, a + 5 := f.len % 256, a + 6 := b6, a + 7 := b7];
  }

  /** In the loading state a channel takes over the fields, its addresses at the start, nothing moved yet, and waits
      for a trigger with its arm flag clear. */
  lemma ChannelLoads(i: int, c: Channel, a: int, h: Shared, f: Fields)
    requires c.state == LoadDMAChannelConfig && IsFields(f) && Encodes(h.xram, a, f)
    ensures var (c1, h1) := StateTrans(i, c, a, h);
            && h1 == h && c1.state == DMAChannelArmed && !c1.armed && !c1.triggered && c1.moved == 0
            && c1.runs == c.runs
            && c1.s == f.source && c1.d == f.destination && c1.word == f.word && c1.triggerEvent == f.trigger
            && c1.itMask == f.mask && Counts(f, Read(h.xram, f.source), c1.transferCount)
            && Steps(f.sourceCode, c1.srcInc) && Steps(f.destinationCode, c1.destInc)
            && (c1.single <==> f.mode == 0 || f.mode == 2) && (c1.repeated <==> f.mode == 2 || f.mode == 3)
  {
    LoadsFields(h.xram, a, f);
    hide Decode;
  }

  // ---------- one unit ----------

  /** A byte unit copies one byte; a word unit two adjacent ones, the second in the direction the destination moves. */
  lemma UnitCopies(m: Memory, s: int, d: int, word: bool, destInc: int, a: int)
    requires word ==> d != s + 1 && d != s - 1
    ensures var r, way := MoveUnit(m, s, d, word, destInc), if destInc < 0 then -1 else 1;
            Read(r, a) == if a == d then Read(m, s) else if word && a == d + way then Read(m, s + way) else Read(m, a)
  {
  }

  /** Each unit moves both addresses by their increments and counts down. With units left a single-mode channel waits
      unless its trigger flag is set, all others go on; after the last one a repeated channel loads its configuration
      anew and the others disarm. Triggering takes a waiting channel on and clears the flag. */
  lemma UnitEnds(i: int, c: Channel, a: int, h: Shared)
    requires c.state == TransferOneByteOrWord
    ensures var c1 := StateTrans(i, c, a, h).0;
            && c1.s == c.s + c.srcInc && c1.d == c.d + c.destInc && c1.transferCount == c.transferCount - 1
            && c1.moved == c.moved + 1 && c1.armed == c.armed && c1.triggered == c.triggered && c1.itMask == c.itMask
            && c1.runs == c.runs + (if c.transferCount > 1 then 0 else 1)
            && c1.state == if c.transferCount > 1
                           then (if c.single && !c.triggered then DMAChannelArmed else TransferOneByteOrWord)
                           else if c.repeated then LoadDMAChannelConfig else DisarmChannel
  {
  }

  lemma OtherStates(i: int, c: Channel, a: int, h: Shared)
    ensures var c1 := StateTrans(i, c, a, h).0;
            && (c.state == DMAChannelIdle ==> c1 == if c.armed then c.(state := LoadDMAChannelConfig) else c)
            && (c.state == DMAChannelArmed ==>
                  c1 == if c.triggered then c.(triggered := false, state := TransferOneByteOrWord) else c)
            && (c.state == DisarmChannel ==> c1 == c.(armed := false, state := DMAChannelIdle))
  {
    hide Decode, Load, MoveUnit;
  }

  // ---------- the interrupt ----------

  /** The step that ends a transfer, and no other, enters the channel in DMAIRQ, and raises the interrupt flag if the
      channel's mask bit is set. */
  lemma StepInterrupts(i: int, c: Channel, a: int, h: Shared)
    ensures var (c1, h1) := StateTrans(i, c, a, h);
            && (c1.runs == c.runs + 1 || c1.runs == c.runs)
            && h1.irq == h.irq + (if c1.runs > c.runs then {i} else {})
            && (h1.ircon <==> h.ircon || (c1.runs > c.runs && c.itMask))
  {
    hide Decode, MoveUnit, Load;
    LoadKeepsRuns(c, Decode(h.xram, a));
  }

  lemma LoadKeepsRuns(c: Channel, t: Settings)
    ensures Load(c, t).runs == c.runs
  {
  }

  predicate IrqExact(e: Engine) {
    |e.ch| == CHANNELS && forall i :: 0 <= i < CHANNELS ==> (i in e.h.irq <==> e.ch[i].runs > 0)
  }

  lemma {:induction false} TickKeepsIrq(e: Engine, cfg1: int, i: nat)
    requires IrqExact(e) && i <= CHANNELS
    ensures IrqExact(TickFrom(e, cfg1, i))
    decreases CHANNELS - i
  {
    hide StateTrans;
    if i < CHANNELS {
      var (c, h) := StateTrans(i, e.ch[i], ConfigAddress(i, cfg1), e.h);
      StepInterrupts(i, e.ch[i], ConfigAddress(i, cfg1), e.h);
      TickKeepsIrq(Engine(e.ch[i := c], h), cfg1, i + 1);
    }
  }

  lemma {:induction false} RunKeepsIrq(e: Engine, cfg1: int, evs: seq<Event>)
    requires IrqExact(e)
    ensures IrqExact(Run(e, cfg1, evs))
    decreases |evs|
  {
    if evs != [] {
      if evs[0] == Tick {
        TickKeepsIrq(e, cfg1, 0);
      }
      hide TickFrom;
      RunKeepsIrq(Apply(e, cfg1, evs[0]), cfg1, evs[1..]);
    }
  }

  /** In every run from reset DMAIRQ holds exactly the channels that have completed a transfer. */
  lemma IrqIsCompleted(m: Memory, cfg1: int, evs: seq<Event>, i: int)
    requires 0 <= i < CHANNELS
    ensures var r := Run(Fresh(m), cfg1, evs); i in r.h.irq <==> r.ch[i].runs > 0
  {
    RunKeepsIrq(Fresh(m), cfg1, evs);
    hide Run;
  }

  // ---------- the order within a tick ----------

  /** Channels before `k` that move nothing: the tick comes to channel `k` with the shared memory as it was. */
  lemma {:induction false} QuietTo(e: Engine, cfg1: int, i: nat, k: nat) returns (e1: Engine)
    requires |e.ch| == CHANNELS && i <= k < CHANNELS
    requires forall j :: i <= j < k ==> e.ch[j].state != TransferOneByteOrWord
    ensures |e1.ch| == CHANNELS && TickFrom(e, cfg1, i) == TickFrom(e1, cfg1, k) && e1.h == e.h
    ensures forall j :: k <= j < CHANNELS ==> e1.ch[j] == e.ch[j]
    decreases k - i
  {
    hide StateTrans, ConfigAddress;
    if i == k {
      e1 := e;
    } else {
      QuietTransition(i, e.ch[i], ConfigAddress(i, cfg1), e.h);
      var c := StateTrans(i, e.ch[i], ConfigAddress(i, cfg1), e.h).0;
      e1 := QuietTo(Engine(e.ch[i := c], e.h), cfg1, i + 1, k);
    }
  }

  lemma UnitOf(i: int, c: Channel, a: int, h: Shared)
    requires c.state == TransferOneByteOrWord && !c.word
    ensures StateTrans(i, c, a, h).1.xram == h.xram[c.d := Read(h.xram, c.s)]
  {
    hide Decode;
  }

  /** The lower channel goes first: of two channels that move a byte in the same tick, the higher one moves what the
      lower one has just put at its source. */
  lemma ForwardedInOneTick(e: Engine, cfg1: int, i: nat, k: nat)
    requires |e.ch| == CHANNELS && i < k < CHANNELS
    requires forall j :: 0 <= j < CHANNELS ==> (e.ch[j].state == TransferOneByteOrWord <==> j == i || j == k)
    requires !e.ch[i].word && !e.ch[k].word && e.ch[k].s == e.ch[i].d
    ensures Read(Apply(e, cfg1, Tick).h.xram, e.ch[k].d) == Read(e.h.xram, e.ch[i].s)
  {
    hide StateTrans, ConfigAddress;
    var e1 := QuietTo(e, cfg1, 0, i);
    var (c, h) := StateTrans(i, e1.ch[i], ConfigAddress(i, cfg1), e1.h);
    UnitOf(i, e1.ch[i], ConfigAddress(i, cfg1), e1.h);
    var e2 := Engine(e1.ch[i := c], h);
    assert TickFrom(e1, cfg1, i) == TickFrom(e2, cfg1, i + 1);
    var e3 := QuietTo(e2, cfg1, i + 1, k);
    var (d, g) := StateTrans(k, e3.ch[k], ConfigAddress(k, cfg1), e3.h);
    UnitOf(k, e3.ch[k], ConfigAddress(k, cfg1), e3.h);
    var e4 := Engine(e3.ch[k := d], g);
    assert TickFrom(e3, cfg1, k) == TickFrom(e4, cfg1, k + 1);
    QuietFrom(e4, cfg1, k + 1, 0);
  }

  // ---------- the registers ----------

  /** Outside ticks each event sets one flag of the channels it names and changes nothing else: DMAARM makes the arm
      flags those of its bits, or clears all with the abort bit; DMAREQ and the trigger events only set trigger flags,
      and DMAIRQ only sets mask bits. */
  lemma EventSetsFlags(e: Engine, cfg1: int, ev: Event, i: int)
    requires |e.ch| == CHANNELS && 0 <= i < CHANNELS && ev != Tick
    ensures var c, r := e.ch[i], Apply(e, cfg1, ev); var c1 := r.ch[i];
            && r.h == e.h && c1 == c.(armed := c1.armed, triggered := c1.triggered, itMask := c1.itMask)
            && (ev.Arm? ==> (c1.armed <==> !ev.abort && i in ev.bits))
            && (!ev.Arm? ==> c1.armed == c.armed)
            && (ev.Request? ==> (c1.triggered <==> c.triggered || i in ev.bits))
            && (ev.Happen? ==> (c1.triggered <==> c.triggered || c.triggerEvent == ev.trigger))
            && (ev.Arm? || ev.Unmask? ==> c1.triggered == c.triggered)
            && (ev.Unmask? ==> (c1.itMask <==> c.itMask || i in ev.bits))
            && (!ev.Unmask? ==> c1.itMask == c.itMask)
  {
  }

  // ---------- a whole block transfer ----------

  lemma QuietTransition(i: int, c: Channel, a: int, h: Shared)
    requires c.state != TransferOneByteOrWord
    ensures StateTrans(i, c, a, h).1 == h
  {
    hide Decode;
  }

  /** Then a tick leaves the shared memory and steps each channel on it; here from channel `i` on. */
  lemma {:induction false} QuietFrom(e: Engine, cfg1: int, i: nat, k: int)
    requires |e.ch| == CHANNELS && i <= CHANNELS && 0 <= k < CHANNELS
    requires forall j :: i <= j < CHANNELS ==> e.ch[j].state != TransferOneByteOrWord
    ensures var r := TickFrom(e, cfg1, i);
            r.h == e.h && r.ch[k] == if k < i then e.ch[k] else StateTrans(k, e.ch[k], ConfigAddress(k, cfg1), e.h).0
    decreases CHANNELS - i
  {
    hide StateTrans, ConfigAddress;
    if i < CHANNELS {
      QuietTransition(i, e.ch[i], ConfigAddress(i, cfg1), e.h);
      var c := StateTrans(i, e.ch[i], ConfigAddress(i, cfg1), e.h).0;
      QuietFrom(Engine(e.ch[i := c], e.h), cfg1, i + 1, k);
    }
  }

  /** A program that arms channel `k` when nothing else runs, lets it load, requests it, and waits. */
  function BlockSchedule(k: int, n: nat): seq<Event> {
    [Arm({k}, false)] + ([Tick] + ([Tick] + ([Request({k})] + ([Tick] + Ticks(n + 1)))))
  }

  /** The channels are as reset, but for `k`. */
  predicate OnlyOne(e: Engine, m: Memory, k: int, c: Channel) {
    && 0 <= k < CHANNELS && e == Engine([RESET, RESET, RESET, RESET, RESET][k := c], Shared(m, {}, false))
  }

  lemma ResetStays(i: int, a: int, h: Shared)
    ensures StateTrans(i, RESET, a, h).0 == RESET
  {
  }

  lemma SameChannels(xs: seq<Channel>, k: int, c: Channel)
    requires |xs| == CHANNELS && 0 <= k < CHANNELS
    requires forall j :: 0 <= j < CHANNELS ==> xs[j] == if j == k then c else RESET
    ensures xs == [RESET, RESET, RESET, RESET, RESET][k := c]
  {
  }

  lemma ResetIdles(e: Engine, m: Memory, k: int, c: Channel, cfg1: int)
    requires OnlyOne(e, m, k, c) && c.state != TransferOneByteOrWord
    ensures OnlyOne(Apply(e, cfg1, Tick), m, k, StateTrans(k, c, ConfigAddress(k, cfg1), e.h).0)
  {
    hide StateTrans, ConfigAddress, TickFrom;
    var r := TickFrom(e, cfg1, 0);
    forall j | 0 <= j < CHANNELS
      ensures r.ch[j] == (if j == k then StateTrans(k, c, ConfigAddress(k, cfg1), e.h).0 else RESET) && r.h == e.h
    {
      QuietFrom(e, cfg1, 0, j);
      ResetStays(j, ConfigAddress(j, cfg1), e.h);
    }
    QuietFrom(e, cfg1, 0, k);
    SameChannels(r.ch, k, StateTrans(k, c, ConfigAddress(k, cfg1), e.h).0);
  }

  function StepOf(code: int): int {
    if code == 3 then -1 else code
  }

  function From(f: Fields, i: int): int {
    f.source + i * StepOf(f.sourceCode)
  }

  function To(f: Fields, i: int): int {
    f.destination + i * StepOf(f.destinationCode)
  }

  /** A block of at least one byte, of fixed length, to a moving destination that meets neither the source nor the
      configuration at `a`. */
  predicate IsBlock(f: Fields, a: int) {
    && IsFields(f) && !f.word && f.mode == 1 && (f.vlen == 0 || f.vlen == 7) && f.len >= 1 && f.destinationCode != 0
    && (forall i, j :: 0 <= i < f.len && 0 <= j < f.len ==> To(f, i) != From(f, j))
    && (forall i :: 0 <= i < f.len ==> To(f, i) < a || a + 8 <= To(f, i))
  }

  lemma BlockSettings(m: Memory, a: int, f: Fields)
    requires IsBlock(f, a) && Encodes(m, a, f)
    ensures var t := Decode(m, a);
            && t.source == f.source && t.destination == f.destination && t.count == f.len && !t.word && !t.single
            && !t.repeated && t.srcInc == StepOf(f.sourceCode) && t.destInc == StepOf(f.destinationCode) != 0
            && Units(t) == f.len
  {
    LoadsFields(m, a, f);
    hide Decode;
  }

  lemma {:induction false} MovedBlock(t: Settings, m: Memory, n: nat, i: nat)
    requires !t.word && t.destInc != 0 && i < n
    ensures Read(Moved(t, m, m, n), t.destination + i * t.destInc) == Read(m, t.source + i * t.srcInc)
  {
    if i < n - 1 {
      MovedBlock(t, m, n - 1, i);
      assert i * t.destInc != (n - 1) * t.destInc by {
        assert (n - 1 - i) * t.destInc != 0;
        assert (n - 1) * t.destInc - i * t.destInc == (n - 1 - i) * t.destInc;
      }
    }
  }

  /** A cell of the destination. */
  predicate InBlock(f: Fields, x: int) {
    exists i :: 0 <= i < f.len && x == To(f, i)
  }

  lemma BlockProper(m: Memory, cfg1: int, k: int, f: Fields)
    requires 0 <= k < CHANNELS
    requires var a := ConfigAddress(k, cfg1); IsBlock(f, a) && Encodes(m, a, f)
    ensures Proper(Setup(m, cfg1, {k}))
    ensures var t := Decode(m, ConfigAddress(k, cfg1));
            forall x :: IsDestination(t, x) <==> InBlock(f, x)
  {
    var u, t := Setup(m, cfg1, {k}), Decode(m, ConfigAddress(k, cfg1));
    BlockSettings(m, ConfigAddress(k, cfg1), f);
    hide Decode, ConfigAddress;
    forall x
      ensures IsDestination(t, x) <==> InBlock(f, x)
      ensures IsSource(t, x) <==> exists i :: 0 <= i < f.len && x == From(f, i)
    {
      forall i
        ensures WritesAt(t, i, x) <==> x == To(f, i)
        ensures ReadsAt(t, i, x) <==> x == From(f, i)
      {
      }
    }
    assert SettingsOf(u, k) == t;
  }

  lemma OnlyOneIs(e: Engine, m: Memory, k: int, c: Channel)
    requires OnlyOne(e, m, k, c)
    ensures |e.ch| == CHANNELS && 0 <= k < CHANNELS && e.ch[k] == c && e.h == Shared(m, {}, false)
  {
  }

  lemma ArmOne(m: Memory, cfg1: int, k: int)
    requires 0 <= k < CHANNELS
    ensures OnlyOne(Apply(Fresh(m), cfg1, Arm({k}, false)), m, k, RESET.(armed := true))
  {
    SameChannels(Apply(Fresh(m), cfg1, Arm({k}, false)).ch, k, RESET.(armed := true));
  }

  lemma RequestOne(e: Engine, m: Memory, cfg1: int, k: int, c: Channel)
    requires OnlyOne(e, m, k, c)
    ensures |e.ch| == CHANNELS && OnlyOne(Apply(e, cfg1, Request({k})), m, k, c.(triggered := true))
  {
    SameChannels(Apply(e, cfg1, Request({k})).ch, k, c.(triggered := true));
  }

  /** The channel's states up to the first unit. */
  lemma ThreeStates(k: int, a: int, h: Shared)
    ensures var c1 := RESET.(armed := true);
            var c2 := c1.(state := LoadDMAChannelConfig);
            var c3 := Load(c2, Decode(h.xram, a));
            var c4 := c3.(triggered := true);
            && StateTrans(k, c1, a, h).0 == c2 && StateTrans(k, c2, a, h).0 == c3
            && StateTrans(k, c4, a, h).0 == c4.(triggered := false, state := TransferOneByteOrWord)
            && c3.state == DMAChannelArmed && c3.runs == 0 && c3.moved == 0 && c3.single == Decode(h.xram, a).single
            && c3.repeated == Decode(h.xram, a).repeated && c3.transferCount == Decode(h.xram, a).count
  {
    hide Decode;
  }

  /** The channel up to the first unit. */
  lemma BlockStarts(m: Memory, cfg1: int, k: int, f: Fields) returns (e5: Engine)
    requires 0 <= k < CHANNELS
    requires var a := ConfigAddress(k, cfg1); IsBlock(f, a) && Encodes(m, a, f)
    ensures f.len >= 1 && |Fresh(m).ch| == CHANNELS == |e5.ch|
    ensures Run(Fresh(m), cfg1, BlockSchedule(k, f.len)) == Run(e5, cfg1, Ticks(f.len + 1))
    ensures var c := e5.ch[k];
            && c.state == TransferOneByteOrWord && !c.single && !c.repeated && c.transferCount == f.len
            && c.runs == 0 && c.moved == 0
  {
    var a := ConfigAddress(k, cfg1);
    BlockLength(f, a);
    FreshChannels(m);
    hide ConfigAddress, IsBlock, Decode, Encodes, OnlyOne, StateTrans, Apply, Run, Fresh, Ticks, Load;
    BlockSettings(m, a, f);
    ThreeStates(k, a, Shared(m, {}, false));
    var c1 := RESET.(armed := true);
    var c2 := c1.(state := LoadDMAChannelConfig);
    var c3 := Load(c2, Decode(m, a));
    ArmOne(m, cfg1, k);
    var e1 := Apply(Fresh(m), cfg1, Arm({k}, false));
    OnlyOneIs(e1, m, k, c1);
    ResetIdles(e1, m, k, c1, cfg1);
    var e2 := Apply(e1, cfg1, Tick);
    OnlyOneIs(e2, m, k, c2);
    ResetIdles(e2, m, k, c2, cfg1);
    var e3 := Apply(e2, cfg1, Tick);
    RequestOne(e3, m, cfg1, k, c3);
    var e4 := Apply(e3, cfg1, Request({k}));
    OnlyOneIs(e4, m, k, c3.(triggered := true));
    ResetIdles(e4, m, k, c3.(triggered := true), cfg1);
    e5 := Apply(e4, cfg1, Tick);
    OnlyOneIs(e5, m, k, c3.(state := TransferOneByteOrWord, triggered := false));
    FiveEvents(Fresh(m), cfg1, Arm({k}, false), Tick, Tick, Request({k}), Tick, Ticks(f.len + 1));
  }

  lemma FiveEvents(e: Engine, cfg1: int, a: Event, b: Event, c: Event, d: Event, f: Event, rest: seq<Event>)
    requires |e.ch| == CHANNELS
    ensures Run(e, cfg1, [a] + ([b] + ([c] + ([d] + ([f] + rest))))) ==
            Run(Apply(Apply(Apply(Apply(Apply(e, cfg1, a), cfg1, b), cfg1, c), cfg1, d), cfg1, f), cfg1, rest)
  {
    hide Run, Apply;
    RunHead(e, cfg1, a, [b] + ([c] + ([d] + ([f] + rest))));
    var e1 := Apply(e, cfg1, a);
    RunHead(e1, cfg1, b, [c] + ([d] + ([f] + rest)));
    var e2 := Apply(e1, cfg1, b);
    RunHead(e2, cfg1, c, [d] + ([f] + rest));
    var e3 := Apply(e2, cfg1, c);
    RunHead(e3, cfg1, d, [f] + rest);
    RunHead(Apply(e3, cfg1, d), cfg1, f, rest);
  }

  lemma RunHead(e: Engine, cfg1: int, ev: Event, rest: seq<Event>)
    requires |e.ch| == CHANNELS
    ensures Run(e, cfg1, [ev] + rest) == Run(Apply(e, cfg1, ev), cfg1, rest)
  {
    hide Apply;
    assert ([ev] + rest)[1..] == rest;
  }

  /** All channels are idle, and `k` alone has completed a transfer. */
  predicate BlockDone(r: Engine, k: int) {
    && |r.ch| == CHANNELS && 0 <= k < CHANNELS && !r.ch[k].armed
    && forall i :: 0 <= i < CHANNELS ==> r.ch[i].state == DMAChannelIdle && (r.ch[i].runs > 0 <==> i == k)
  }

  lemma FreshChannels(m: Memory)
    ensures |Fresh(m).ch| == CHANNELS && forall i :: 0 <= i < CHANNELS ==> Fresh(m).ch[i] == RESET
  {
  }

  lemma ArmsOnly(k: int, n: nat)
    ensures forall ev <- BlockSchedule(k, n) :: ev.Arm? ==> ev.bits == {k} && !ev.abort
  {
  }

  lemma OthersIdle(m: Memory, cfg1: int, k: int, n: nat, i: int)
    requires 0 <= i < CHANNELS && i != k
    ensures var c := Run(Fresh(m), cfg1, BlockSchedule(k, n)).ch[i]; c.state == DMAChannelIdle && c.runs == 0
  {
    hide Run, Fresh, BlockSchedule;
    FreshChannels(m);
    ArmsOnly(k, n);
    NeedsRearming(Fresh(m), cfg1, BlockSchedule(k, n), i);
  }

  lemma BlockEnds(m: Memory, cfg1: int, k: int, f: Fields)
    requires 0 <= k < CHANNELS
    requires var a := ConfigAddress(k, cfg1); IsBlock(f, a) && Encodes(m, a, f)
    ensures f.len >= 1 && BlockDone(Run(Fresh(m), cfg1, BlockSchedule(k, f.len)), k)
  {
    BlockLength(f, ConfigAddress(k, cfg1));
    hide Run, IsBlock, Encodes, ConfigAddress, BlockSchedule, Apply, Fresh;
    var e5 := BlockStarts(m, cfg1, k, f);
    BlockTransferCompletes(e5, cfg1, k, f.len);
    forall i | 0 <= i < CHANNELS && i != k
      ensures var c := Run(Fresh(m), cfg1, BlockSchedule(k, f.len)).ch[i]; c.state == DMAChannelIdle && c.runs == 0
    {
      OthersIdle(m, cfg1, k, f.len, i);
    }
  }

  lemma BlockLength(f: Fields, a: int)
    requires IsBlock(f, a)
    ensures f.len >= 1
  {
  }

  lemma DoneIsIdle(r: Engine, k: int)
    requires BlockDone(r, k)
    ensures Completed(r) == {k} && forall c <- r.ch :: c.state == DMAChannelIdle
  {
  }

  lemma BlockAdmissible(m: Memory, cfg1: int, k: int, n: nat)
    ensures forall ev <- BlockSchedule(k, n) :: Admissible(Setup(m, cfg1, {k}), ev)
  {
    hide BlockSchedule;
    ArmsOnly(k, n);
  }

  lemma BlockFinal(m: Memory, cfg1: int, k: int, f: Fields, x: int)
    requires 0 <= k < CHANNELS
    requires var a := ConfigAddress(k, cfg1); IsBlock(f, a) && Encodes(m, a, f)
    ensures f.len >= 1
    ensures FinalByte(Setup(m, cfg1, {k}), {k}, x, Read(Run(Fresh(m), cfg1, BlockSchedule(k, f.len)).h.xram, x))
  {
    hide *;
    FreshChannels(m);
    BlockEnds(m, cfg1, k, f);
    DoneIsIdle(Run(Fresh(m), cfg1, BlockSchedule(k, f.len)), k);
    BlockAdmissible(m, cfg1, k, f.len);
    BlockProper(m, cfg1, k, f);
    FinalMemory(Setup(m, cfg1, {k}), BlockSchedule(k, f.len), x);
  }

  /** What the final byte is for one channel. */
  lemma FinalOfOne(u: Setup, k: int, x: int, v: int)
    requires FinalByte(u, {k}, x, v) && u.used == {k}
    ensures var t := SettingsOf(u, k);
            if IsDestination(t, x) then v == Read(Moved(t, u.m, u.m, Units(t)), x) else v == Read(u.m, x)
  {
    hide SettingsOf, IsDestination, Moved, Units;
  }

  lemma Places(f: Fields, u: Setup, k: int, i: int)
    ensures To(f, i) == f.destination + i * StepOf(f.destinationCode)
    ensures From(f, i) == f.source + i * StepOf(f.sourceCode)
    ensures 0 <= i < f.len ==> InBlock(f, To(f, i))
    ensures SettingsOf(u, k) == Decode(u.m, ConfigAddress(k, u.cfg1))
  {
    hide Decode;
  }

  /** A cell of the destination at the end. */
  lemma BlockByte(m: Memory, cfg1: int, k: int, f: Fields, i: int)
    requires 0 <= k < CHANNELS && 0 <= i < f.len
    requires var a := ConfigAddress(k, cfg1); IsBlock(f, a) && Encodes(m, a, f)
    ensures Read(Run(Fresh(m), cfg1, BlockSchedule(k, f.len)).h.xram, To(f, i)) == Read(m, From(f, i))
  {
    hide *;
    FreshChannels(m);
    var u, t, x := Setup(m, cfg1, {k}), Decode(m, ConfigAddress(k, cfg1)), To(f, i);
    Places(f, u, k, i);
    BlockFinal(m, cfg1, k, f, x);
    FinalOfOne(u, k, x, Read(Run(Fresh(m), cfg1, BlockSchedule(k, f.len)).h.xram, x));
    BlockProper(m, cfg1, k, f);
    BlockSettings(m, ConfigAddress(k, cfg1), f);
    MovedBlock(t, m, f.len, i);
  }

  /** And any other cell. */
  lemma BlockElsewhere(m: Memory, cfg1: int, k: int, f: Fields, x: int)
    requires 0 <= k < CHANNELS && !InBlock(f, x)
    requires var a := ConfigAddress(k, cfg1); IsBlock(f, a) && Encodes(m, a, f)
    ensures f.len >= 1 && Read(Run(Fresh(m), cfg1, BlockSchedule(k, f.len)).h.xram, x) == Read(m, x)
  {
    hide *;
    FreshChannels(m);
    var u := Setup(m, cfg1, {k});
    Places(f, u, k, 0);
    BlockFinal(m, cfg1, k, f, x);
    FinalOfOne(u, k, x, Read(Run(Fresh(m), cfg1, BlockSchedule(k, f.len)).h.xram, x));
    BlockProper(m, cfg1, k, f);
  }

  /**
   * A channel configured by such bytes, armed, loaded and requested, copies the block in as many ticks as it has
   * bytes: byte i of the destination gets byte i of the source, each counted in its own increment, no other cell of
   * memory changes, and the channel ends idle and not armed, alone in DMAIRQ.
   */
  lemma BlockIsCopied(m: Memory, cfg1: int, k: int, f: Fields)
    requires 0 <= k < CHANNELS
    requires var a := ConfigAddress(k, cfg1); IsBlock(f, a) && Encodes(m, a, f)
    ensures f.len >= 1
    ensures var r := Run(Fresh(m), cfg1, BlockSchedule(k, f.len));
            && (forall i :: 0 <= i < f.len ==> Read(r.h.xram, To(f, i)) == Read(m, From(f, i)))
            && (forall x :: (forall i :: 0 <= i < f.len ==> x != To(f, i)) ==> Read(r.h.xram, x) == Read(m, x))
            && r.ch[k].state == DMAChannelIdle && !r.ch[k].armed
            && (forall i :: 0 <= i < CHANNELS ==> (i in r.h.irq <==> i == k))
  {
    hide Run, Fresh, BlockSchedule, IsBlock, Encodes, ConfigAddress, From, To, Read;
    FreshChannels(m);
    BlockEnds(m, cfg1, k, f);
    var r := Run(Fresh(m), cfg1, BlockSchedule(k, f.len));
    forall i | 0 <= i < f.len
      ensures Read(r.h.xram, To(f, i)) == Read(m, From(f, i))
    {
      BlockByte(m, cfg1, k, f, i);
    }
    forall x | forall i :: 0 <= i < f.len ==> x != To(f, i)
      ensures Read(r.h.xram, x) == Read(m, x)
    {
      BlockElsewhere(m, cfg1, k, f, x);
    }
    forall i | 0 <= i < CHANNELS
      ensures i in r.h.irq <==> i == k
    {
      IrqIsCompleted(m, cfg1, BlockSchedule(k, f.len), i);
    }
  }
}
