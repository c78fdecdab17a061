/** The CC2530 DMA engine: five channel state machines over one shared memory. */
module Dma {
  const CHANNELS := 5

  type Memory = map<int, int>

  function Read(m: Memory, a: int): int {
    if a in m then m[a] else 0
  }

  datatype ChannelState =
    DMAChannelIdle | LoadDMAChannelConfig | DMAChannelArmed | TransferOneByteOrWord | DisarmChannel

  /** One channel. `itMask` and the addresses are as loaded; `runs` counts completed transfers. */
  datatype Channel = Channel(
    state: ChannelState, armed: bool, triggered: bool, single: bool, repeated: bool, itMask: bool,
    s: int, d: int, transferCount: int, srcInc: int, destInc: int, word: bool, triggerEvent: int,
    runs: nat, moved: nat)

  // ---------- configuration ----------

  /** What LoadConfig decodes from the eight bytes at a configuration address and, for a variable length,
      from the first source byte. */
  datatype Settings = Settings(
    source: int, destination: int, count: int, srcInc: int, destInc: int, word: bool,
    triggerEvent: int, single: bool, repeated: bool, itMask: bool)

  function Increment(code: int): int {
    match code
    case 1 => 1
    case 2 => 2
    case 3 => -1
    case _ => 0
  }

  function Min(x: int, y: int): int {
    if x < y then x else y
  }

  /** TransferCount from the VLEN field, the LEN field and the first source byte. */
  function TransferCount(vlen: int, len: int, first: int): int {
    match vlen
    case 1 => Min(len, first + 1)
    case 2 => Min(len, first)
    case 3 => Min(len, first + 2)
    case 4 => Min(len, first + 3)
    case 5 => Min(len, first)
    case 6 => Min(len, first)
    case _ => len
  }

  function Decode(m: Memory, cfg: int): Settings {
    var source := Read(m, cfg) * 256 + Read(m, cfg + 1);
    var b4, b6, b7 := Read(m, cfg + 4), Read(m, cfg + 6), Read(m, cfg + 7);
    Settings(
      source,
      Read(m, cfg + 2) * 256 + Read(m, cfg + 3),
      TransferCount(b4 / 32 % 8, b4 % 32 * 256 + Read(m, cfg + 5), Read(m, source)),
      Increment(b7 / 64 % 4),
      Increment(b7 / 16 % 4),
      b6 / 128 % 2 == 1,
      b6 % 32,
      b6 / 32 % 2 == 0,
      b6 / 64 % 2 == 1,
      b7 / 8 % 2 == 1)
  }

  /** Two pointers serve five channels: the last four lie 32 bytes apart behind the second pointer,
      except that channels 0 and 1 are at fixed addresses. */
  function ConfigAddress(i: int, cfg1: int): int {
    if i == 0 then 0x80 else if i == 1 then 0x90 else cfg1 + 32 * (i - 1)
  }

  // ---------- one channel ----------

  const RESET := Channel(DMAChannelIdle, false, false, false, false, false, 0, 0, 0, 0, 0, false, 32, 0, 0)

  /** Moves one unit; the second byte of a word goes the way the destination moves. */
  function MoveUnit(m: Memory, s: int, d: int, word: bool, destInc: int): Memory {
    var m1 := m[d := Read(m, s)];
    if !word then m1
    else if destInc >= 0 then m1[d + 1 := Read(m1, s + 1)]
    else m1[d - 1 := Read(m1, s - 1)]
  }

  function Load(c: Channel, t: Settings): Channel {
    Channel(DMAChannelArmed, false, false, t.single, t.repeated, t.itMask,
            t.source, t.destination, t.count, t.srcInc, t.destInc, t.word, t.triggerEvent, c.runs, 0)
  }

  /** The shared part of the engine. */
  datatype Shared = Shared(xram: Memory, irq: set<int>, ircon: bool)

  function StateTrans(i: int, c: Channel, cfg: int, h: Shared): (Channel, Shared) {
    match c.state
    case DMAChannelIdle => (if c.armed then c.(state := LoadDMAChannelConfig) else c, h)
    case LoadDMAChannelConfig => (Load(c, Decode(h.xram, cfg)), h)
    case DMAChannelArmed => (if c.triggered then c.(triggered := false, state := TransferOneByteOrWord) else c, h)
    case TransferOneByteOrWord =>
      var h1 := h.(xram := MoveUnit(h.xram, c.s, c.d, c.word, c.destInc));
      var c1 := c.(s := c.s + c.srcInc, d := c.d + c.destInc, transferCount := c.transferCount - 1,
                   moved := c.moved + 1);
      if c1.transferCount <= 0 then
        (c1.(runs := c.runs + 1, state := if c.repeated then LoadDMAChannelConfig else DisarmChannel),
         h1.(irq := h.irq + {i}, ircon := h.ircon || c.itMask))
      else (if c.single && !c.triggered then c1.(state := DMAChannelArmed) else c1, h1)
    case DisarmChannel => (c.(armed := false, state := DMAChannelIdle), h)
  }

  // ---------- the engine ----------

  datatype Engine = Engine(ch: seq<Channel>, h: Shared)

  /** What happens to the engine: a tick, a write to DMAARM, DMAREQ or DMAIRQ, or a trigger event. */
  datatype Event =
    Tick | Arm(bits: set<int>, abort: bool) | Request(bits: set<int>) | Unmask(bits: set<int>) | Happen(trigger: int)

  function TickFrom(e: Engine, cfg1: int, i: nat): (r: Engine)
    requires |e.ch| == CHANNELS && i <= CHANNELS
    ensures |r.ch| == CHANNELS
    decreases CHANNELS - i
  {
    if i == CHANNELS then e else
    var (c, h) := StateTrans(i, e.ch[i], ConfigAddress(i, cfg1), e.h);
    TickFrom(Engine(e.ch[i := c], h), cfg1, i + 1)
  }

  function Apply(e: Engine, cfg1: int, ev: Event): (r: Engine)
    requires |e.ch| == CHANNELS
    ensures |r.ch| == CHANNELS
  {
    match ev
    case Tick => TickFrom(e, cfg1, 0)
    case Arm(bits, abort) =>
      e.(ch := seq(CHANNELS, i requires 0 <= i < CHANNELS => e.ch[i].(armed := i in bits && !abort)))
    case Request(bits) =>
      e.(ch := seq(CHANNELS, i requires 0 <= i < CHANNELS => e.ch[i].(triggered := e.ch[i].triggered || i in bits)))
    case Unmask(bits) =>
      e.(ch := seq(CHANNELS, i requires 0 <= i < CHANNELS => e.ch[i].(itMask := e.ch[i].itMask || i in bits)))
    case Happen(trigger) =>
      e.(ch := seq(CHANNELS, i requires 0 <= i < CHANNELS =>
        e.ch[i].(triggered := e.ch[i].triggered || e.ch[i].triggerEvent == trigger)))
  }

  function Run(e: Engine, cfg1: int, evs: seq<Event>): (r: Engine)
    requires |e.ch| == CHANNELS
    ensures |r.ch| == CHANNELS
    decreases |evs|
  {
    if evs == [] then e else Run(Apply(e, cfg1, evs[0]), cfg1, evs[1..])
  }

  function Fresh(m: Memory): Engine {
    Engine([RESET, RESET, RESET, RESET, RESET], Shared(m, {}, false))
  }

  class DmaController {
    const tabDMACh: array<Channel>
    var xram: Memory
    var dmairq: set<int>
    var ircon: bool
    var cfg1: int

    constructor (m: Memory, cfg1: int)
      ensures Ready() && fresh(tabDMACh) && State() == Fresh(m) && this.cfg1 == cfg1
    {
      tabDMACh := new Channel[CHANNELS](_ => RESET);
      xram, dmairq, ircon, this.cfg1 := m, {}, false, cfg1;
      new;
      assert tabDMACh[..] == [RESET, RESET, RESET, RESET, RESET];
    }

    predicate Ready()
      reads this
    {
      tabDMACh.Length == CHANNELS
    }

    ghost function State(): Engine
      reads this, tabDMACh
    {
      Engine(tabDMACh[..], Shared(xram, dmairq, ircon))
    }

    method Transfer(i: nat)
      requires Ready() && i < CHANNELS
      modifies `xram, tabDMACh
      ensures var c := old(tabDMACh[i]);
              xram == MoveUnit(old(xram), c.s, c.d, c.word, c.destInc)
              && tabDMACh[..] == old(tabDMACh[..])[i := c.(s := c.s + c.srcInc, d := c.d + c.destInc,
                                                          transferCount := c.transferCount - 1, moved := c.moved + 1)]
    {
      var c := tabDMACh[i];
      xram := xram[c.d := Read(xram, c.s)];
      if c.word {
        if c.destInc >= 0 {
          xram := xram[c.d + 1 := Read(xram, c.s + 1)];
        } else {
          xram := xram[c.d - 1 := Read(xram, c.s - 1)];
        }
      }
      tabDMACh[i] := c.(s := c.s + c.srcInc, d := c.d + c.destInc, transferCount := c.transferCount - 1,
                        moved := c.moved + 1);
    }

    method StepChannel(i: nat)
      requires Ready() && i < CHANNELS
      modifies `xram, `dmairq, `ircon, tabDMACh
      ensures var (c, h) := StateTrans(i, old(tabDMACh[i]), ConfigAddress(i, cfg1),
                                       Shared(old(xram), old(dmairq), old(ircon)));
              State() == Engine(old(tabDMACh[..])[i := c], h)
    {
      var c := tabDMACh[i];
      match c.state
      case DMAChannelIdle =>
        if c.armed {
          tabDMACh[i] := c.(state := LoadDMAChannelConfig);
        }
      case LoadDMAChannelConfig =>
        tabDMACh[i] := Load(c, Decode(xram, ConfigAddress(i, cfg1)));
      case DMAChannelArmed =>
        if c.triggered {
          tabDMACh[i] := c.(triggered := false, state := TransferOneByteOrWord);
        }
      case TransferOneByteOrWord =>
        Transfer(i);
        c := tabDMACh[i];
        if c.transferCount <= 0 {
          dmairq := dmairq + {i};
          if c.itMask {
            ircon := true;
          }
          tabDMACh[i] := c.(runs := c.runs + 1, state := if c.repeated then LoadDMAChannelConfig else DisarmChannel);
        } else if c.single && !c.triggered {
          tabDMACh[i] := c.(state := DMAChannelArmed);
        }
      case DisarmChannel =>
        tabDMACh[i] := c.(armed := false, state := DMAChannelIdle);
    }

    method DoTick()
      requires Ready()
      modifies `xram, `dmairq, `ircon, tabDMACh
      ensures State() == Apply(old(State()), cfg1, Tick)
    {
      for i := 0 to CHANNELS
        invariant TickFrom(State(), cfg1, i) == TickFrom(old(State()), cfg1, 0)
      {
        StepChannel(i);
      }
    }

    method WriteArm(bits: set<int>, abort: bool)
      requires Ready()
      modifies tabDMACh
      ensures State() == Apply(old(State()), cfg1, Arm(bits, abort))
    {
      for i := 0 to CHANNELS
        invariant forall j :: 0 <= j < CHANNELS ==>
          tabDMACh[j] == if j < i then old(tabDMACh[j]).(armed := j in bits) else old(tabDMACh[j])
      {
        tabDMACh[i] := tabDMACh[i].(armed := i in bits);
      }
      if abort {
        for i := 0 to CHANNELS
          invariant forall j :: 0 <= j < CHANNELS ==>
            tabDMACh[j] == old(tabDMACh[j]).(armed := if j < i then false else j in bits)
        {
          tabDMACh[i] := tabDMACh[i].(armed := false);
        }
      }
    }

    method WriteRequest(bits: set<int>)
      requires Ready()
      modifies tabDMACh
      ensures State() == Apply(old(State()), cfg1, Request(bits))
    {
      for i := 0 to CHANNELS
        invariant forall j :: 0 <= j < CHANNELS ==>
          tabDMACh[j] ==
          if j < i then old(tabDMACh[j]).(triggered := old(tabDMACh[j]).triggered || j in bits) else old(tabDMACh[j])
      {
        if i in bits {
          tabDMACh[i] := tabDMACh[i].(triggered := true);
        }
      }
    }

    method WriteIrq(bits: set<int>)
      requires Ready()
      modifies tabDMACh
      ensures State() == Apply(old(State()), cfg1, Unmask(bits))
    {
      for i := 0 to CHANNELS
        invariant forall j :: 0 <= j < CHANNELS ==>
          tabDMACh[j] ==
          if j < i then old(tabDMACh[j]).(itMask := old(tabDMACh[j]).itMask || j in bits) else old(tabDMACh[j])
      {
        if i in bits {
          tabDMACh[i] := tabDMACh[i].(itMask := true);
        }
      }
    }

    method OnEvent(trigger: int)
      requires Ready()
      modifies tabDMACh
      ensures State() == Apply(old(State()), cfg1, Happen(trigger))
    {
      for i := 0 to CHANNELS
        invariant forall j :: 0 <= j < CHANNELS ==>
          tabDMACh[j] ==
          if j < i then
            old(tabDMACh[j]).(triggered := old(tabDMACh[j]).triggered || old(tabDMACh[j]).triggerEvent == trigger)
          else old(tabDMACh[j])
      {
        if tabDMACh[i].triggerEvent == trigger {
          tabDMACh[i] := tabDMACh[i].(triggered := true);
        }
      }
    }
  }
}
