/** Schedule independence of the DMA engine: with disjoint regions, what ends up in memory depends on
  which channels have completed a transfer and on nothing else. */
module DmaLaws {
  import opened Dma

  // ---------- one channel's whole transfer ----------

  /** At least one unit is moved: the count is tested after the first. */
  function Units(t: Settings): nat {
    if t.count < 1 then 1 else t.count
  }

  function Way(t: Settings): int {
    if t.destInc >= 0 then 1 else -1
  }

  function SourceOf(t: Settings, j: int): int {
    t.source + j * t.srcInc
  }

  function DestinationOf(t: Settings, j: int): int {
    t.destination + j * t.destInc
  }

  /** The addresses unit `j` reads and writes. */
  predicate ReadsAt(t: Settings, j: int, a: int) {
    a == SourceOf(t, j) || (t.word && a == SourceOf(t, j) + Way(t))
  }

  predicate WritesAt(t: Settings, j: int, a: int) {
    a == DestinationOf(t, j) || (t.word && a == DestinationOf(t, j) + Way(t))
  }

  predicate IsSource(t: Settings, a: int) {
    exists j :: 0 <= j < Units(t) && ReadsAt(t, j, a)
  }

  predicate IsDestination(t: Settings, a: int) {
    exists j :: 0 <= j < Units(t) && WritesAt(t, j, a)
  }

  /** `b` with unit `j` written over it, its bytes being those of `m`. */
  function Overlay(t: Settings, m: Memory, b: Memory, j: nat): Memory {
    var s, d := SourceOf(t, j), DestinationOf(t, j);
    var b1 := b[d := Read(m, s)];
    if t.word then b1[d + Way(t) := Read(m, s + Way(t))] else b1
  }

  /** Memory `base` after the first `j` units of a transfer whose source bytes are those of `m`. */
  function Moved(t: Settings, m: Memory, base: Memory, j: nat): Memory {
    if j == 0 then base else Overlay(t, m, Moved(t, m, base, j - 1), j - 1)
  }

  /** A whole transfer leaves the same destination bytes whatever was there before. */
  lemma {:induction false} MovedForgetsBase(t: Settings, m: Memory, base0: Memory, base1: Memory, j: nat, a: int)
    ensures (exists k :: 0 <= k < j && WritesAt(t, k, a)) ==>
            Read(Moved(t, m, base0, j), a) == Read(Moved(t, m, base1, j), a)
    ensures !(exists k :: 0 <= k < j && WritesAt(t, k, a)) ==> Read(Moved(t, m, base0, j), a) == Read(base0, a)
  {
    if j > 0 {
      MovedForgetsBase(t, m, base0, base1, j - 1, a);
      assert WritesAt(t, j - 1, a) ==> exists k :: 0 <= k < j && WritesAt(t, k, a);
      if k :| 0 <= k < j && WritesAt(t, k, a) {
        assert k < j - 1 || k == j - 1;
      }
    }
  }

  // ---------- the regions ----------

  /** The setting of the engine: initial memory, second configuration pointer, and the channels in use. */
  datatype Setup = Setup(m: Memory, cfg1: int, used: set<int>)

  function SettingsOf(u: Setup, i: int): Settings {
    Decode(u.m, ConfigAddress(i, u.cfg1))
  }

  predicate IsConfig(u: Setup, i: int, a: int) {
    ConfigAddress(i, u.cfg1) <= a < ConfigAddress(i, u.cfg1) + 8
  }

  /** Destinations are pairwise disjoint and meet no source and no configuration of a channel in use. */
  ghost predicate Disjoint(u: Setup) {
    forall i, k, a :: i in u.used && k in u.used && IsDestination(SettingsOf(u, i), a) ==>
      !IsSource(SettingsOf(u, k), a) && !IsConfig(u, k, a)
      && (i != k ==> !IsDestination(SettingsOf(u, k), a))
  }

  ghost predicate Proper(u: Setup) {
    (forall i :: i in u.used ==> 0 <= i < CHANNELS && !SettingsOf(u, i).repeated) && Disjoint(u)
  }

  /** Where the two pointer registers put the configuration of channel `i`. */
  function PointedAt(i: int, cfg0: int, cfg1: int): int {
    if i == 0 then cfg0 else cfg1 + 32 * (i - 1)
  }

  /** Channels 2 to 4 follow the second pointer. Channels 0 and 1 are configured from where the registers point
      if and only if these hold the two fixed addresses. */
  lemma PointersObeyedIff(cfg0: int, cfg1: int)
    ensures forall i :: 2 <= i < CHANNELS ==> ConfigAddress(i, cfg1) == PointedAt(i, cfg0, cfg1)
    ensures (forall i :: 0 <= i < CHANNELS ==> ConfigAddress(i, cfg1) == PointedAt(i, cfg0, cfg1)) <==>
            cfg0 == 0x80 && cfg1 == 0x90
  {
    assert ConfigAddress(0, cfg1) == PointedAt(0, cfg0, cfg1) <==> cfg0 == 0x80;
    assert ConfigAddress(1, cfg1) == PointedAt(1, cfg0, cfg1) <==> cfg1 == 0x90;
  }

  // ---------- what every step keeps ----------

  /** Where a channel is in its transfer. */
  predicate OnCourse(u: Setup, i: int, c: Channel) {
    var t := SettingsOf(u, i);
    match c.state
    case DMAChannelArmed =>
      c.moved < Units(t) && Loaded(t, c)
    case TransferOneByteOrWord =>
      c.moved < Units(t) && Loaded(t, c)
    case DisarmChannel => c.runs > 0 && c.moved == Units(t)
    case _ => true
  }

  predicate Loaded(t: Settings, c: Channel) {
    c.s == SourceOf(t, c.moved) && c.d == DestinationOf(t, c.moved) && c.transferCount == t.count - c.moved
    && c.srcInc == t.srcInc && c.destInc == t.destInc && c.word == t.word && c.single == t.single && !c.repeated
  }

  /** Units of the current run that are in memory. */
  function InFlight(c: Channel): nat {
    if c.state == DMAChannelArmed || c.state == TransferOneByteOrWord then c.moved else 0
  }

  /** What channel i's destination holds: the last complete transfer, overlaid by the current one. */
  function Expected(u: Setup, i: int, c: Channel): Memory {
    var t := SettingsOf(u, i);
    var base := if c.runs == 0 then u.m else Moved(t, u.m, u.m, Units(t));
    Moved(t, u.m, base, InFlight(c))
  }

  ghost predicate Inv(u: Setup, ch: seq<Channel>, xram: Memory) {
    |ch| == CHANNELS
    && (forall i :: 0 <= i < CHANNELS && i !in u.used ==>
        ch[i].state == DMAChannelIdle && !ch[i].armed && ch[i].runs == 0)
    && (forall i :: 0 <= i < CHANNELS && i in u.used ==> OnCourse(u, i, ch[i]))
    && (forall i, a :: 0 <= i < CHANNELS && i in u.used && IsDestination(SettingsOf(u, i), a) ==>
          Read(xram, a) == Read(Expected(u, i, ch[i]), a))
    && (forall a :: (forall i :: i in u.used ==> !IsDestination(SettingsOf(u, i), a)) ==> Read(xram, a) == Read(u.m, a))
  }

  /** Configurations and sources still hold their initial bytes. */
  lemma InputsUntouched(u: Setup, ch: seq<Channel>, xram: Memory, k: int, a: int)
    requires Proper(u) && Inv(u, ch, xram) && k in u.used
    requires IsConfig(u, k, a) || IsSource(SettingsOf(u, k), a)
    ensures Read(xram, a) == Read(u.m, a)
  {
  }

  /** Decoding depends on the eight bytes and the first source byte only. */
  lemma DecodeDependsOn(m0: Memory, m1: Memory, cfg: int)
    requires forall a :: cfg <= a < cfg + 8 ==> Read(m0, a) == Read(m1, a)
    requires Read(m0, Decode(m0, cfg).source) == Read(m1, Decode(m0, cfg).source)
    ensures Decode(m0, cfg) == Decode(m1, cfg)
  {
  }

  lemma LoadsTheSame(u: Setup, ch: seq<Channel>, xram: Memory, k: int)
    requires Proper(u) && Inv(u, ch, xram) && k in u.used
    ensures Decode(xram, ConfigAddress(k, u.cfg1)) == SettingsOf(u, k)
  {
    var cfg, t := ConfigAddress(k, u.cfg1), SettingsOf(u, k);
    forall a | cfg <= a < cfg + 8
      ensures Read(u.m, a) == Read(xram, a)
    {
      InputsUntouched(u, ch, xram, k, a);
    }
    assert ReadsAt(t, 0, t.source);
    InputsUntouched(u, ch, xram, k, t.source);
    hide Inv, Proper;
    DecodeDependsOn(u.m, xram, cfg);
  }

  lemma MoveIsOverlay(t: Settings, m: Memory, xram: Memory, j: nat)
    requires Read(xram, SourceOf(t, j)) == Read(m, SourceOf(t, j))
    requires t.word ==> Read(xram, SourceOf(t, j) + Way(t)) == Read(m, SourceOf(t, j) + Way(t))
    requires t.word ==> DestinationOf(t, j) != SourceOf(t, j) + Way(t)
    ensures MoveUnit(xram, SourceOf(t, j), DestinationOf(t, j), t.word, t.destInc) == Overlay(t, m, xram, j)
  {
  }

  /** One unit of a transfer, as the engine moves it, writes the initial source bytes. */
  lemma MovesOneUnit(u: Setup, ch: seq<Channel>, xram: Memory, i: int)
    requires Proper(u) && Inv(u, ch, xram) && i in u.used && ch[i].state == TransferOneByteOrWord
    ensures var c, t := ch[i], SettingsOf(u, i);
            c.moved < Units(t) && Loaded(t, c)
            && MoveUnit(xram, c.s, c.d, c.word, c.destInc) == Overlay(t, u.m, xram, c.moved)
  {
    var c, t := ch[i], SettingsOf(u, i);
    var j := c.moved;
    assert OnCourse(u, i, c);
    assert ReadsAt(t, j, SourceOf(t, j)) && WritesAt(t, j, DestinationOf(t, j));
    InputsUntouched(u, ch, xram, i, SourceOf(t, j));
    if t.word {
      assert ReadsAt(t, j, SourceOf(t, j) + Way(t));
      InputsUntouched(u, ch, xram, i, SourceOf(t, j) + Way(t));
      assert IsDestination(t, DestinationOf(t, j)) && IsSource(t, SourceOf(t, j) + Way(t));
    }
    hide Inv, Proper, Decode;
    MoveIsOverlay(t, u.m, xram, j);
  }

  lemma OverlayReads(t: Settings, m: Memory, b: Memory, j: nat, a: int)
    ensures !WritesAt(t, j, a) ==> Read(Overlay(t, m, b, j), a) == Read(b, a)
  {
  }

  lemma OverlayCongruent(t: Settings, m: Memory, b0: Memory, b1: Memory, j: nat, a: int)
    requires Read(b0, a) == Read(b1, a)
    ensures Read(Overlay(t, m, b0, j), a) == Read(Overlay(t, m, b1, j), a)
  {
  }

  /** The channel and the memory after one unit. */
  function AfterUnit(c: Channel): Channel {
    var c1 := c.(s := c.s + c.srcInc, d := c.d + c.destInc, transferCount := c.transferCount - 1, moved := c.moved + 1);
    if c1.transferCount <= 0 then
      c1.(runs := c.runs + 1, state := if c.repeated then LoadDMAChannelConfig else DisarmChannel)
    else if c.single && !c.triggered then c1.(state := DMAChannelArmed) else c1
  }

  lemma UnitKeepsCourse(u: Setup, i: int, c: Channel)
    requires c.state == TransferOneByteOrWord && OnCourse(u, i, c)
    ensures OnCourse(u, i, AfterUnit(c))
    ensures c.moved + 1 == Units(SettingsOf(u, i)) <==> AfterUnit(c).state == DisarmChannel
  {
    var t, j := SettingsOf(u, i), c.moved;
    assert (j + 1) * t.srcInc == j * t.srcInc + t.srcInc;
    assert (j + 1) * t.destInc == j * t.destInc + t.destInc;
  }

  /** The channel's destination after one unit. */
  lemma UnitKeepsContent(u: Setup, i: int, c: Channel, xram: Memory, a: int)
    requires c.state == TransferOneByteOrWord && OnCourse(u, i, c)
    requires IsDestination(SettingsOf(u, i), a) && Read(xram, a) == Read(Expected(u, i, c), a)
    ensures Read(Overlay(SettingsOf(u, i), u.m, xram, c.moved), a) == Read(Expected(u, i, AfterUnit(c)), a)
  {
    var t := SettingsOf(u, i);
    var base := if c.runs == 0 then u.m else Moved(t, u.m, u.m, Units(t));
    UnitKeepsCourse(u, i, c);
    OverlayCongruent(t, u.m, xram, Moved(t, u.m, base, c.moved), c.moved, a);
    assert Read(Overlay(t, u.m, xram, c.moved), a) == Read(Moved(t, u.m, base, c.moved + 1), a);
    if c.moved + 1 == Units(t) {
      MovedForgetsBase(t, u.m, base, u.m, Units(t), a);
    }
  }

  /** Changing channels without moving data. */
  lemma QuietChange(u: Setup, ch: seq<Channel>, ch1: seq<Channel>, xram: Memory)
    requires Inv(u, ch, xram) && |ch1| == CHANNELS
    requires forall i :: 0 <= i < CHANNELS ==> ch1[i].runs == ch[i].runs && InFlight(ch1[i]) == InFlight(ch[i])
    requires forall i :: 0 <= i < CHANNELS ==>
      if i in u.used then OnCourse(u, i, ch1[i]) else ch1[i].state == DMAChannelIdle && !ch1[i].armed
    ensures Inv(u, ch1, xram)
  {
    hide OnCourse, Moved, Decode;
    forall i, a | 0 <= i < CHANNELS && i in u.used && IsDestination(SettingsOf(u, i), a)
      ensures Read(xram, a) == Read(Expected(u, i, ch1[i]), a)
    {
      assert Expected(u, i, ch1[i]) == Expected(u, i, ch[i]);
    }
  }

  /** The unit changes bytes of channel `i`'s destination only. */
  lemma OverlayElsewhere(t: Settings, m: Memory, xram: Memory, j: nat, a: int)
    requires j < Units(t) && !IsDestination(t, a)
    ensures Read(Overlay(t, m, xram, j), a) == Read(xram, a)
  {
    assert !WritesAt(t, j, a);
    OverlayReads(t, m, xram, j, a);
  }

  lemma TransferKeepsContent(u: Setup, i: int, ch: seq<Channel>, xram: Memory, k: int, a: int)
    requires Proper(u) && Inv(u, ch, xram) && i in u.used && ch[i].state == TransferOneByteOrWord
    requires OnCourse(u, i, ch[i]) && k in u.used && IsDestination(SettingsOf(u, k), a)
    ensures Read(Overlay(SettingsOf(u, i), u.m, xram, ch[i].moved), a) ==
            Read(Expected(u, k, ch[i := AfterUnit(ch[i])][k]), a)
  {
    assert Read(xram, a) == Read(Expected(u, k, ch[k]), a);
    assert ch[i].moved < Units(SettingsOf(u, i));
    assert k != i ==> !IsDestination(SettingsOf(u, i), a);
    hide Inv, Expected, OnCourse, Overlay, IsDestination, SettingsOf, Proper, AfterUnit;
    if k == i {
      UnitKeepsContent(u, i, ch[i], xram, a);
    } else {
      OverlayElsewhere(SettingsOf(u, i), u.m, xram, ch[i].moved, a);
    }
  }

  lemma TransferKeepsInv(u: Setup, i: int, ch: seq<Channel>, xram: Memory)
    requires Proper(u) && Inv(u, ch, xram) && i in u.used && ch[i].state == TransferOneByteOrWord
    ensures Inv(u, ch[i := AfterUnit(ch[i])], Overlay(SettingsOf(u, i), u.m, xram, ch[i].moved))
  {
    var c, t := ch[i], SettingsOf(u, i);
    var ch1, xram1 := ch[i := AfterUnit(c)], Overlay(t, u.m, xram, c.moved);
    assert OnCourse(u, i, c) && c.moved < Units(t);
    UnitKeepsCourse(u, i, c);
    hide OnCourse, Expected, Overlay, IsDestination, SettingsOf, AfterUnit, Disjoint;
    forall a | !IsDestination(t, a)
      ensures Read(xram1, a) == Read(xram, a)
    {
      OverlayElsewhere(t, u.m, xram, c.moved, a);
    }
    forall k, a | 0 <= k < CHANNELS && k in u.used && IsDestination(SettingsOf(u, k), a)
      ensures Read(xram1, a) == Read(Expected(u, k, ch1[k]), a)
    {
      TransferKeepsContent(u, i, ch, xram, k, a);
    }
  }

  lemma QuietStep(u: Setup, i: int, c: Channel, h: Shared)
    requires c.state != TransferOneByteOrWord
    requires i in u.used ==> OnCourse(u, i, c) && !SettingsOf(u, i).repeated
    requires c.state == LoadDMAChannelConfig ==>
               i in u.used && Decode(h.xram, ConfigAddress(i, u.cfg1)) == SettingsOf(u, i)
    ensures var (c1, h1) := StateTrans(i, c, ConfigAddress(i, u.cfg1), h);
            h1 == h && c1.runs == c.runs && InFlight(c1) == InFlight(c)
            && (i in u.used ==> OnCourse(u, i, c1))
            && (c.state == DMAChannelIdle && !c.armed ==> c1 == c)
  {
    hide Decode;
  }

  lemma StepKeepsInv(u: Setup, i: int, ch: seq<Channel>, h: Shared)
    requires Proper(u) && Inv(u, ch, h.xram) && 0 <= i < CHANNELS
    ensures var (c, h1) := StateTrans(i, ch[i], ConfigAddress(i, u.cfg1), h); Inv(u, ch[i := c], h1.xram)
  {
    var (c, h1) := StateTrans(i, ch[i], ConfigAddress(i, u.cfg1), h);
    if ch[i].state == TransferOneByteOrWord {
      MovesOneUnit(u, ch, h.xram, i);
      assert c == AfterUnit(ch[i]);
      hide Decode, OnCourse, Moved, Overlay;
      TransferKeepsInv(u, i, ch, h.xram);
    } else {
      assert i in u.used ==> OnCourse(u, i, ch[i]);
      if ch[i].state == LoadDMAChannelConfig {
        LoadsTheSame(u, ch, h.xram, i);
      }
      hide Decode, OnCourse, StateTrans;
      QuietStep(u, i, ch[i], h);
      QuietChange(u, ch, ch[i := c], h.xram);
    }
  }

  lemma TickTurn(e: Engine, cfg1: int, i: nat, c: Channel, h: Shared)
    requires |e.ch| == CHANNELS && i < CHANNELS && (c, h) == StateTrans(i, e.ch[i], ConfigAddress(i, cfg1), e.h)
    ensures TickFrom(e, cfg1, i) == TickFrom(Engine(e.ch[i := c], h), cfg1, i + 1)
  {
    hide StateTrans, ConfigAddress;
  }

  lemma TickEnds(e: Engine, cfg1: int)
    requires |e.ch| == CHANNELS
    ensures TickFrom(e, cfg1, CHANNELS) == e
  {
  }

  lemma {:induction false} TickKeepsInv(u: Setup, e: Engine, i: nat)
    requires |e.ch| == CHANNELS && Proper(u) && Inv(u, e.ch, e.h.xram) && i <= CHANNELS
    ensures var r := TickFrom(e, u.cfg1, i); Inv(u, r.ch, r.h.xram)
    decreases CHANNELS - i
  {
    hide *;
    if i == CHANNELS {
      TickEnds(e, u.cfg1);
    } else {
      StepKeepsInv(u, i, e.ch, e.h);
      var (c, h) := StateTrans(i, e.ch[i], ConfigAddress(i, u.cfg1), e.h);
      TickTurn(e, u.cfg1, i, c, h);
      TickKeepsInv(u, Engine(e.ch[i := c], h), i + 1);
    }
  }

  /** The schedule arms channels in use only. Everything else is free. */
  predicate Admissible(u: Setup, ev: Event) {
    ev.Arm? ==> forall i :: 0 <= i < CHANNELS && i in ev.bits ==> i in u.used
  }

  /** The flags that registers and events set have no part in where a transfer is. */
  lemma FlagsKeepCourse(u: Setup, i: int, c: Channel, armed: bool, triggered: bool, itMask: bool)
    ensures var c1 := c.(armed := armed, triggered := triggered, itMask := itMask);
            (OnCourse(u, i, c1) <==> OnCourse(u, i, c)) && InFlight(c1) == InFlight(c)
  {
  }

  lemma EventKeepsInv(u: Setup, e: Engine, ev: Event)
    requires Proper(u) && Inv(u, e.ch, e.h.xram) && Admissible(u, ev)
    ensures var r := Apply(e, u.cfg1, ev); Inv(u, r.ch, r.h.xram)
  {
    if ev == Tick {
      TickKeepsInv(u, e, 0);
    } else {
      var r := Apply(e, u.cfg1, ev);
      forall i | 0 <= i < CHANNELS
        ensures r.ch[i].runs == e.ch[i].runs && InFlight(r.ch[i]) == InFlight(e.ch[i])
        ensures if i in u.used then OnCourse(u, i, r.ch[i]) else r.ch[i].state == DMAChannelIdle && !r.ch[i].armed
      {
        assert i in u.used ==> OnCourse(u, i, e.ch[i]);
        hide OnCourse, Decode, InFlight;
        FlagsKeepCourse(u, i, e.ch[i], r.ch[i].armed, r.ch[i].triggered, r.ch[i].itMask);
      }
      hide Inv, OnCourse;
      QuietChange(u, e.ch, r.ch, e.h.xram);
    }
  }

  lemma {:induction false} RunKeepsInv(u: Setup, e: Engine, evs: seq<Event>)
    requires Proper(u) && Inv(u, e.ch, e.h.xram) && (forall ev :: ev in evs ==> Admissible(u, ev))
    ensures var r := Run(e, u.cfg1, evs); Inv(u, r.ch, r.h.xram)
    decreases |evs|
  {
    if evs != [] {
      EventKeepsInv(u, e, evs[0]);
      RunKeepsInv(u, Apply(e, u.cfg1, evs[0]), evs[1..]);
    }
  }

  // ---------- the main results ----------

  /** The final memory: each completed channel's destination holds its whole transfer of initial bytes. */
  ghost predicate FinalByte(u: Setup, completed: set<int>, a: int, v: int) {
    (forall i :: i in completed && i in u.used && IsDestination(SettingsOf(u, i), a) ==>
       v == Read(Moved(SettingsOf(u, i), u.m, u.m, Units(SettingsOf(u, i))), a))
    && ((forall i :: i in completed && i in u.used ==> !IsDestination(SettingsOf(u, i), a)) ==> v == Read(u.m, a))
  }

  function Completed(e: Engine): set<int> {
    set i | 0 <= i < |e.ch| && e.ch[i].runs > 0
  }

  lemma IdleMemory(u: Setup, r: Engine, a: int)
    requires Proper(u) && Inv(u, r.ch, r.h.xram) && forall c :: c in r.ch ==> c.state == DMAChannelIdle
    ensures FinalByte(u, Completed(r), a, Read(r.h.xram, a))
  {
    hide Decode, Disjoint, OnCourse;
    forall i | 0 <= i < CHANNELS && i in u.used && IsDestination(SettingsOf(u, i), a)
      ensures Read(r.h.xram, a) ==
              if i in Completed(r) then Read(Moved(SettingsOf(u, i), u.m, u.m, Units(SettingsOf(u, i))), a)
              else Read(u.m, a)
    {
      assert r.ch[i] in r.ch;
      assert Moved(SettingsOf(u, i), u.m, u.m, 0) == u.m;
    }
    if forall i :: i in u.used ==> !IsDestination(SettingsOf(u, i), a) {
      assert Read(r.h.xram, a) == Read(u.m, a);
    }
  }

  lemma FreshInv(u: Setup)
    requires Proper(u)
    ensures Inv(u, Fresh(u.m).ch, u.m)
  {
    hide Decode, IsDestination, Disjoint;
  }

  /** Whatever the schedule of arming, requests, triggers and ticks: once no channel is in mid-transfer,
      memory is the final memory of the channels that have completed a transfer. */
  lemma FinalMemory(u: Setup, evs: seq<Event>, a: int)
    requires Proper(u) && (forall ev :: ev in evs ==> Admissible(u, ev))
    requires forall c :: c in Run(Fresh(u.m), u.cfg1, evs).ch ==> c.state == DMAChannelIdle
    ensures var r := Run(Fresh(u.m), u.cfg1, evs); FinalByte(u, Completed(r), a, Read(r.h.xram, a))
  {
    hide Proper, Inv, Run, FinalByte;
    FreshInv(u);
    RunKeepsInv(u, Fresh(u.m), evs);
    IdleMemory(u, Run(Fresh(u.m), u.cfg1, evs), a);
  }

  /** Two schedules that complete the same channels leave the same memory. */
  lemma ScheduleIndependence(u: Setup, evs0: seq<Event>, evs1: seq<Event>, a: int)
    requires Proper(u)
    requires forall ev :: ev in evs0 || ev in evs1 ==> Admissible(u, ev)
    requires forall c :: c in Run(Fresh(u.m), u.cfg1, evs0).ch ==> c.state == DMAChannelIdle
    requires forall c :: c in Run(Fresh(u.m), u.cfg1, evs1).ch ==> c.state == DMAChannelIdle
    requires Completed(Run(Fresh(u.m), u.cfg1, evs0)) == Completed(Run(Fresh(u.m), u.cfg1, evs1))
    ensures Read(Run(Fresh(u.m), u.cfg1, evs0).h.xram, a) == Read(Run(Fresh(u.m), u.cfg1, evs1).h.xram, a)
  {
    FinalMemory(u, evs0, a);
    FinalMemory(u, evs1, a);
  }

  // ---------- progress ----------

  /** A tick steps every channel once, on some state of the shared memory. */
  lemma {:induction false} TickStepsChannel(e: Engine, cfg1: int, i: nat, k: int) returns (h: Shared)
    requires |e.ch| == CHANNELS && i <= CHANNELS && 0 <= k < CHANNELS
    ensures TickFrom(e, cfg1, i).ch[k] == if k < i then e.ch[k] else StateTrans(k, e.ch[k], ConfigAddress(k, cfg1), h).0
    decreases CHANNELS - i
  {
    h := e.h;
    if i < CHANNELS {
      var (c, h1) := StateTrans(i, e.ch[i], ConfigAddress(i, cfg1), e.h);
      var h2 := TickStepsChannel(Engine(e.ch[i := c], h1), cfg1, i + 1, k);
      h := if k == i then e.h else h2;
      hide StateTrans;
    }
  }

  /** `n` ticks in a row. */
  function Ticks(n: nat): (evs: seq<Event>)
    ensures |evs| == n && forall ev :: ev in evs ==> ev == Tick
  {
    if n == 0 then [] else [Tick] + Ticks(n - 1)
  }

  lemma BlockTick(e: Engine, cfg1: int, k: int)
    requires |e.ch| == CHANNELS && 0 <= k < CHANNELS
    ensures var c, c1 := e.ch[k], Apply(e, cfg1, Tick).ch[k];
            c.state == TransferOneByteOrWord && !c.single && !c.repeated ==>
              c1.moved == c.moved + 1
              && if c.transferCount > 1
                 then c1.state == TransferOneByteOrWord && !c1.single && !c1.repeated
                      && c1.transferCount == c.transferCount - 1 && c1.runs == c.runs
                 else c1.state == DisarmChannel && c1.runs == c.runs + 1
    ensures var c, c1 := e.ch[k], Apply(e, cfg1, Tick).ch[k];
            c.state == DisarmChannel ==>
              c1.state == DMAChannelIdle && !c1.armed && c1.runs == c.runs && c1.moved == c.moved
  {
    var h := TickStepsChannel(e, cfg1, 0, k);
  }

  /** A block transfer, once triggered, needs one tick per remaining unit and one to disarm; the channel is
      then idle and not armed. */
  lemma {:induction false} BlockTransferCompletes(e: Engine, cfg1: int, k: int, n: nat)
    requires |e.ch| == CHANNELS && 0 <= k < CHANNELS
    requires var c := e.ch[k];
             c.state == TransferOneByteOrWord && !c.single && !c.repeated
             && n == (if c.transferCount < 1 then 1 else c.transferCount)
    ensures var c := Run(e, cfg1, Ticks(n + 1)).ch[k];
            c.state == DMAChannelIdle && !c.armed && c.runs == e.ch[k].runs + 1 && c.moved == e.ch[k].moved + n
    decreases n
  {
    hide Apply;
    BlockTick(e, cfg1, k);
    var e1 := Apply(e, cfg1, Tick);
    assert Ticks(n + 1)[1..] == Ticks(n);
    assert Run(e, cfg1, Ticks(n + 1)) == Run(e1, cfg1, Ticks(n));
    if n > 1 {
      BlockTransferCompletes(e1, cfg1, k, n - 1);
    } else {
      BlockTick(e1, cfg1, k);
      assert Ticks(1)[1..] == [];
      assert Run(e1, cfg1, Ticks(1)) == Run(Apply(e1, cfg1, Tick), cfg1, []);
    }
  }

  // ---------- single mode ----------

  /** The event sets channel `k`'s trigger flag. */
  predicate Triggers(ev: Event, k: int, c: Channel) {
    match ev
    case Request(bits) => k in bits
    case Happen(trigger) => c.triggerEvent == trigger
    case _ => false
  }

  /** Events between two ticks set flags only. */
  lemma FlagsOnly(e: Engine, cfg1: int, ev: Event, k: int)
    requires |e.ch| == CHANNELS && 0 <= k < CHANNELS && ev != Tick
    ensures var c, c1 := e.ch[k], Apply(e, cfg1, ev).ch[k];
            c1 == c.(armed := c1.armed, itMask := c1.itMask, triggered := c.triggered || Triggers(ev, k, c))
  {
  }

  predicate AnyTriggers(evs: seq<Event>, k: int, c: Channel) {
    exists ev :: ev in evs && Triggers(ev, k, c)
  }

  lemma {:induction false} FlagsOnlyRun(e: Engine, cfg1: int, evs: seq<Event>, rest: seq<Event>, k: int)
    returns (e1: Engine)
    requires |e.ch| == CHANNELS && 0 <= k < CHANNELS && Tick !in evs
    ensures |e1.ch| == CHANNELS && Run(e, cfg1, evs + rest) == Run(e1, cfg1, rest)
    ensures var c, c1 := e.ch[k], e1.ch[k];
            c1 == c.(armed := c1.armed, itMask := c1.itMask, triggered := c.triggered || AnyTriggers(evs, k, c))
    decreases |evs|
  {
    if evs == [] {
      assert [] + rest == rest;
      e1 := e;
    } else {
      hide Apply, Triggers;
      var c, e0 := e.ch[k], Apply(e, cfg1, evs[0]);
      FlagsOnly(e, cfg1, evs[0], k);
      assert (evs + rest)[0] == evs[0] && (evs + rest)[1..] == evs[1..] + rest;
      e1 := FlagsOnlyRun(e0, cfg1, evs[1..], rest, k);
      SameTriggers(evs, k, c, e0.ch[k]);
    }
  }

  lemma SameTriggers(evs: seq<Event>, k: int, c: Channel, c1: Channel)
    requires evs != [] && c1.triggerEvent == c.triggerEvent
    ensures AnyTriggers(evs, k, c) <==> Triggers(evs[0], k, c) || AnyTriggers(evs[1..], k, c1)
  {
    if Triggers(evs[0], k, c) {
      assert evs[0] in evs;
    }
    forall ev | ev in evs[1..] && Triggers(ev, k, c1)
      ensures ev in evs && Triggers(ev, k, c)
    {
    }
    forall ev | ev in evs && Triggers(ev, k, c) && ev != evs[0]
      ensures ev in evs[1..] && Triggers(ev, k, c1)
    {
    }
  }

  /** One tick of a single-mode channel that is moving a unit and has more to move. */
  lemma SingleTick(e: Engine, cfg1: int, k: int)
    requires |e.ch| == CHANNELS && 0 <= k < CHANNELS && e.ch[k].single
    ensures var c, c1 := e.ch[k], Apply(e, cfg1, Tick).ch[k];
            c.state == TransferOneByteOrWord && c.transferCount > 1 ==>
              c1 == c.(state := if c.triggered then TransferOneByteOrWord else DMAChannelArmed, s := c1.s, d := c1.d,
                       transferCount := c.transferCount - 1, moved := c.moved + 1)
    ensures var c, c1 := e.ch[k], Apply(e, cfg1, Tick).ch[k];
            c.state == DMAChannelArmed ==>
              c1 == if c.triggered then c.(triggered := false, state := TransferOneByteOrWord) else c
  {
    var h := TickStepsChannel(e, cfg1, 0, k);
  }

  /** A trigger moves one unit in single mode, and the channel waits for the next one, if and only if no trigger
      reaches it between the tick that starts the unit and the tick that moves it. */
  lemma OneUnitPerTriggerIff(e: Engine, cfg1: int, k: int, first: Event, mid: seq<Event>)
    requires |e.ch| == CHANNELS && 0 <= k < CHANNELS && Tick !in mid && Triggers(first, k, e.ch[k])
    requires var c := e.ch[k]; c.state == DMAChannelArmed && c.single && !c.triggered && c.transferCount > 1
    ensures var c, c1 := e.ch[k], Run(e, cfg1, [first, Tick] + (mid + [Tick])).ch[k];
            c1.moved == c.moved + 1 && c1.transferCount == c.transferCount - 1
            && c1.state == (if AnyTriggers(mid, k, c) then TransferOneByteOrWord else DMAChannelArmed)
            && c1.triggered == AnyTriggers(mid, k, c)
  {
    var c, evs := e.ch[k], [first, Tick] + (mid + [Tick]);
    var e1 := Apply(e, cfg1, first);
    var e2 := Apply(e1, cfg1, Tick);
    assert first != Tick;
    hide Apply, Triggers, AnyTriggers;
    FlagsOnly(e, cfg1, first, k);
    SingleTick(e1, cfg1, k);
    assert evs[1..] == [Tick] + (mid + [Tick]) && evs[1..][1..] == mid + [Tick];
    assert Run(e, cfg1, evs) == Run(e1, cfg1, evs[1..]) == Run(e2, cfg1, mid + [Tick]);
    var e3 := FlagsOnlyRun(e2, cfg1, mid, [Tick], k);
    SingleTick(e3, cfg1, k);
    assert Run(e3, cfg1, [Tick]) == Run(Apply(e3, cfg1, Tick), cfg1, []);
    SameTriggerEvent(mid, k, c, e2.ch[k]);
  }

  lemma SameTriggerEvent(evs: seq<Event>, k: int, c: Channel, c1: Channel)
    requires c1.triggerEvent == c.triggerEvent
    ensures AnyTriggers(evs, k, c) == AnyTriggers(evs, k, c1)
  {
    forall ev
      ensures Triggers(ev, k, c) == Triggers(ev, k, c1)
    {
    }
  }

  /** Without further events a single-mode channel in mid-transfer moves one unit if its trigger flag is clear,
      and runs on like a block, a unit every tick, if it is set: nothing on the way clears the flag. */
  lemma {:induction false} SingleRunsOnIff(e: Engine, cfg1: int, k: int, n: nat)
    requires |e.ch| == CHANNELS && 0 <= k < CHANNELS
    requires var c := e.ch[k]; c.single && c.state == TransferOneByteOrWord && 1 <= n < c.transferCount
    ensures var c, c1 := e.ch[k], Run(e, cfg1, Ticks(n)).ch[k];
            c1.moved == c.moved + (if c.triggered then n else 1)
            && c1.state == (if c.triggered then TransferOneByteOrWord else DMAChannelArmed)
    decreases n
  {
    hide Apply;
    SingleTick(e, cfg1, k);
    var e1 := Apply(e, cfg1, Tick);
    assert Ticks(n)[1..] == Ticks(n - 1);
    assert Run(e, cfg1, Ticks(n)) == Run(e1, cfg1, Ticks(n - 1));
    if n > 1 {
      if e.ch[k].triggered {
        SingleRunsOnIff(e1, cfg1, k, n - 1);
      } else {
        WaitsForTrigger(e1, cfg1, k, n - 1);
      }
    }
  }

  lemma {:induction false} WaitsForTrigger(e: Engine, cfg1: int, k: int, n: nat)
    requires |e.ch| == CHANNELS && 0 <= k < CHANNELS
    requires var c := e.ch[k]; c.single && c.state == DMAChannelArmed && !c.triggered
    ensures Run(e, cfg1, Ticks(n)).ch[k] == e.ch[k]
    decreases n
  {
    if n > 0 {
      hide Apply;
      SingleTick(e, cfg1, k);
      assert Ticks(n)[1..] == Ticks(n - 1);
      assert Run(e, cfg1, Ticks(n)) == Run(Apply(e, cfg1, Tick), cfg1, Ticks(n - 1));
      WaitsForTrigger(Apply(e, cfg1, Tick), cfg1, k, n - 1);
    }
  }

  lemma IdleStays(e: Engine, cfg1: int, ev: Event, k: int)
    requires |e.ch| == CHANNELS && 0 <= k < CHANNELS && e.ch[k].state == DMAChannelIdle && !e.ch[k].armed
    requires ev.Arm? && !ev.abort ==> k !in ev.bits
    ensures var c, c1 := e.ch[k], Apply(e, cfg1, ev).ch[k];
            c1.state == DMAChannelIdle && !c1.armed && c1.runs == c.runs && c1.moved == c.moved
  {
    if ev == Tick {
      hide TickFrom;
      var h := TickStepsChannel(e, cfg1, 0, k);
    }
  }

  /** An idle, unarmed channel does nothing, whatever triggers reach it, until it is armed again. */
  lemma {:induction false} NeedsRearming(e: Engine, cfg1: int, evs: seq<Event>, k: int)
    requires |e.ch| == CHANNELS && 0 <= k < CHANNELS && e.ch[k].state == DMAChannelIdle && !e.ch[k].armed
    requires forall ev :: ev in evs && ev.Arm? && !ev.abort ==> k !in ev.bits
    ensures var c := Run(e, cfg1, evs).ch[k];
            c.state == DMAChannelIdle && !c.armed && c.runs == e.ch[k].runs && c.moved == e.ch[k].moved
    decreases |evs|
  {
    if evs != [] {
      hide Apply;
      IdleStays(e, cfg1, evs[0], k);
      NeedsRearming(Apply(e, cfg1, evs[0]), cfg1, evs[1..], k);
    }
  }

  /** A variable-length transfer never exceeds its LEN field. */
  lemma CountWithinLength(m: Memory, cfg: int)
    requires forall a :: 0 <= Read(m, a) < 256
    ensures 0 <= Decode(m, cfg).count <= Read(m, cfg + 4) % 32 * 256 + Read(m, cfg + 5)
  {
    var first := Read(m, Decode(m, cfg).source);
    assert 0 <= first;
  }
}
