/** The CC2530 timers' counting modes, and the countdown that stands in for comparing on every tick.

  One model serves the 16-bit timer 1 (half range 0x8000, five channels of which the first three are
  scanned in full) and the 8-bit timer 3 (half range 0x80, two channels). */
module Timer {
  import opened Arith

  datatype Mode = FreeRunning | Modulo | UpDown | Down

  /** What does not change while the timer counts. `value[i]` and `compare[i]` are channel i's compare
      register, as a signed number, and whether it is in compare mode; `action[i]` is its CMP field. */
  datatype Config = Config(half: int, full: nat, value: seq<int>, compare: seq<bool>, action: seq<int>, timer1: bool)

  predicate InRange(cfg: Config, x: int) {
    -cfg.half <= x < cfg.half
  }

  predicate Valid(cfg: Config) {
    cfg.half >= 4 && 1 <= cfg.full <= |cfg.value| == |cfg.compare| == |cfg.action|
    && forall i :: 0 <= i < |cfg.value| ==> InRange(cfg, cfg.value[i])
  }

  /** A partner notification: tick number and channel. */
  datatype Notice = Notice(tick: nat, channel: nat)

  /** The timer's variables. `served` lists the ticks on which CaptureCompare ran. */
  datatype Snapshot = Snapshot(
    now: nat, count: int, next: int, down: bool, pins: seq<bool>,
    overflows: nat, served: seq<nat>, notices: seq<Notice>)

  // ---------- two's complement arithmetic on the counter's type ----------

  function Inc(cfg: Config, x: int): int {
    if x == cfg.half - 1 then -cfg.half else x + 1
  }

  function Dec(cfg: Config, x: int): int {
    if x == -cfg.half then cfg.half - 1 else x - 1
  }

  function Sub(cfg: Config, x: int, y: int): int {
    var d := x - y;
    if d >= cfg.half then d - 2 * cfg.half else if d < -cfg.half then d + 2 * cfg.half else d
  }

  // ---------- the countdown ----------

  /** Signed distance from the count to channel i's compare value, in the direction of counting. Only the
      first `full` channels know about counting down. */
  function Distance(cfg: Config, mode: Mode, s: Snapshot, i: nat): int
    requires i < |cfg.value|
  {
    if i < cfg.full && (mode == Down || (mode == UpDown && s.down)) then Sub(cfg, s.count, cfg.value[i])
    else Sub(cfg, cfg.value[i], s.count)
  }

  /** The countdown after looking at the first `i` channels. */
  function Scan(cfg: Config, mode: Mode, s: Snapshot, i: nat): int
    requires Valid(cfg) && i <= |cfg.value|
  {
    if i == 0 then -1 else
    var next := Scan(cfg, mode, s, i - 1);
    if !cfg.compare[i - 1] then next else
    var d := Distance(cfg, mode, s, i - 1);
    if 0 < d < next || (i - 1 < cfg.full && next == -1 && d != 0) then d else next
  }

  function Rescan(cfg: Config, mode: Mode, s: Snapshot): Snapshot
    requires Valid(cfg)
  {
    s.(next := Scan(cfg, mode, s, |cfg.value|))
  }

  // ---------- CaptureCompare ----------

  /** The output pin of channel i after a compare. */
  function Output(cfg: Config, mode: Mode, s: Snapshot, i: nat): bool
    requires Valid(cfg) && i < |cfg.value| && |s.pins| == |cfg.value|
  {
    var pin, cc0, ccn := s.pins[i], cfg.value[0], cfg.value[i];
    match cfg.action[i]
    case 0 => if s.count == cc0 then true else pin
    case 1 => if s.count == cc0 then false else pin
    case 2 => if s.count == cc0 then !pin else pin
    case 3 =>
      if mode == UpDown then (if s.count == ccn then !s.down else s.count > ccn)
      else if s.count == 0 then false else if s.count == ccn then true else pin
    case 4 =>
      if mode == UpDown then (if s.count == ccn then s.down else s.count <= ccn)
      else if s.count == 0 then true else if s.count == ccn then false else pin
    case 5 =>
      if cfg.timer1 && i == 0 then pin
      else if mode == Modulo then (if s.count == 0 then false else if s.count == ccn then true else pin)
      else if s.count == ccn then true else if s.count == cc0 then false else pin
    case 6 =>
      if cfg.timer1 && i == 0 then pin
      else if mode == Modulo then (if s.count == 0 then true else if s.count == ccn then false else pin)
      else if s.count == ccn then false else if s.count == cc0 then true else pin
    case 7 => false
    case _ => pin
  }

  /** CaptureCompare's turn for channel i. */
  function ComparedAt(cfg: Config, mode: Mode, s: Snapshot, i: nat): (r: Snapshot)
    requires Valid(cfg) && i < |cfg.value| && |s.pins| == |cfg.value|
    ensures r == s.(pins := r.pins, notices := r.notices) && |r.pins| == |s.pins|
  {
    if cfg.compare[i] && (s.count == cfg.value[0] || s.count == cfg.value[i] || s.count == 0) then
      s.(pins := s.pins[i := Output(cfg, mode, s, i)],
         notices := if i < 3 then s.notices + [Notice(s.now, i)] else s.notices)
    else s
  }

  /** CaptureCompare's pass over the first `i` channels. */
  function Compared(cfg: Config, mode: Mode, s: Snapshot, i: nat): (r: Snapshot)
    requires Valid(cfg) && i <= |cfg.value| && |s.pins| == |cfg.value|
    ensures r == s.(pins := r.pins, notices := r.notices) && |r.pins| == |s.pins|
  {
    if i == 0 then s else ComparedAt(cfg, mode, Compared(cfg, mode, s, i - 1), i - 1)
  }

  function Serve(cfg: Config, mode: Mode, s: Snapshot): Snapshot
    requires Valid(cfg) && |s.pins| == |cfg.value|
  {
    Rescan(cfg, mode, Compared(cfg, mode, s.(served := s.served + [s.now]), |cfg.value|))
  }

  // ---------- one tick of each mode ----------

  function ServeIfDue(cfg: Config, mode: Mode, s: Snapshot): Snapshot
    requires Valid(cfg) && |s.pins| == |cfg.value|
  {
    if s.next == 0 then Serve(cfg, mode, s) else s
  }

  function OverflowAtZero(s: Snapshot): Snapshot {
    if s.count == 0 then s.(overflows := s.overflows + 1) else s
  }

  function OneTick(cfg: Config, mode: Mode, s: Snapshot): (r: Snapshot)
    requires Valid(cfg) && |s.pins| == |cfg.value|
    ensures |r.pins| == |s.pins| && r.now == s.now + 1
  {
    var t := s.(now := s.now + 1, next := Dec(cfg, s.next));
    match mode
    case FreeRunning =>
      ServeIfDue(cfg, mode, OverflowAtZero(t.(count := Inc(cfg, s.count))))
    case Modulo =>
      var u := OverflowAtZero(t.(count := if s.count == cfg.value[0] then 0 else Inc(cfg, s.count)));
      ServeIfDue(cfg, mode, if u.count == 0 then Rescan(cfg, mode, u) else u)
    case UpDown =>
      var u := OverflowAtZero(t.(count := if s.down then Dec(cfg, s.count) else Inc(cfg, s.count)));
      var turned := if s.down then u.count == 0 else u.count == cfg.value[0];
      var v := ServeIfDue(cfg, mode, u.(down := s.down != turned));
      if turned then Rescan(cfg, mode, v) else v
    case Down =>
      var u :=
        if s.count == 0 then
          var w := t.(count := cfg.value[0]);
          if w.next == 0 then Serve(cfg, mode, w) else Rescan(cfg, mode, w)
        else t.(count := Dec(cfg, s.count));
      ServeIfDue(cfg, mode, OverflowAtZero(u))
  }

  function Ticks(cfg: Config, mode: Mode, s: Snapshot, n: nat): (r: Snapshot)
    requires Valid(cfg) && |s.pins| == |cfg.value|
    ensures |r.pins| == |s.pins| && r.now == s.now + n
  {
    if n == 0 then s else OneTick(cfg, mode, Ticks(cfg, mode, s, n - 1))
  }

  /** Counting m + n ticks in one call or in two is the same. */
  lemma {:induction false} TicksSplit(cfg: Config, mode: Mode, s: Snapshot, m: nat, n: nat)
    requires Valid(cfg) && |s.pins| == |cfg.value|
    ensures Ticks(cfg, mode, s, m + n) == Ticks(cfg, mode, Ticks(cfg, mode, s, m), n)
  {
    if n > 0 {
      TicksSplit(cfg, mode, s, m, n - 1);
    }
  }

  // ---------- the timer object ----------

  class CC2530Timer {
    const cfg: Config
    var mode: Mode
    var systemTicks: nat
    var prescale: nat
    var now: nat
    var count: int
    var nextCmpEvent: int
    var upDown: bool
    const pins: array<bool>
    var overflows: nat
    var served: seq<nat>
    var notices: seq<Notice>

    constructor (cfg: Config, mode: Mode, prescale: nat)
      requires Valid(cfg) && prescale >= 1
      ensures Ready() && fresh(pins) && this.cfg == cfg && this.mode == mode && this.prescale == prescale
      ensures systemTicks == 0
      ensures State() == Snapshot(0, 0, 0, false, seq(|cfg.value|, _ => false), 0, [], [])
    {
      this.cfg, this.mode, this.prescale, systemTicks := cfg, mode, prescale, 0;
      now, count, nextCmpEvent, upDown, overflows, served, notices := 0, 0, 0, false, 0, [], [];
      pins := new bool[|cfg.value|](_ => false);
    }

    ghost predicate Ready()
      reads this
    {
      Valid(cfg) && pins.Length == |cfg.value| && prescale >= 1
    }

    ghost function State(): Snapshot
      reads this, pins
    {
      Snapshot(now, count, nextCmpEvent, upDown, pins[..], overflows, served, notices)
    }

    /** get_next_cc_event */
    method GetNextCcEvent()
      requires Ready()
      modifies `nextCmpEvent
      ensures State() == Rescan(cfg, mode, old(State()))
    {
      nextCmpEvent := -1;
      ghost var s := State();
      for i := 0 to |cfg.value|
        invariant nextCmpEvent == Scan(cfg, mode, old(State()), i)
      {
        if cfg.compare[i] {
          var counting_down := i < cfg.full && (mode == Down || (mode == UpDown && upDown));
          var cmpEventIn := if counting_down then Sub(cfg, count, cfg.value[i]) else Sub(cfg, cfg.value[i], count);
          if (cmpEventIn > 0 && cmpEventIn < nextCmpEvent) || (i < cfg.full && nextCmpEvent == -1 && cmpEventIn != 0) {
            nextCmpEvent := cmpEventIn;
          }
        }
      }
    }

    /** Compare: the pin's new level, by the channel's action field. */
    method Compare(i: nat) returns (pin: bool)
      requires Ready() && i < |cfg.value|
      ensures pin == Output(cfg, mode, State(), i)
    {
      pin := pins[i];
      var cc0, ccn := cfg.value[0], cfg.value[i];
      match cfg.action[i]
      case 0 => if count == cc0 { pin := true; }
      case 1 => if count == cc0 { pin := false; }
      case 2 => if count == cc0 { pin := !pin; }
      case 3 =>
        if mode == UpDown {
          if count == ccn { pin := !upDown; } else { pin := count > ccn; }
        } else {
          if count == ccn { pin := true; }
          if count == 0 { pin := false; }
        }
      case 4 =>
        if mode == UpDown {
          if count == ccn { pin := upDown; } else { pin := !(count > ccn); }
        } else {
          if count == ccn { pin := false; }
          if count == 0 { pin := true; }
        }
      case 5 =>
        if cfg.timer1 && i == 0 {
        } else if mode == Modulo {
          if count == ccn { pin := true; }
          if count == 0 { pin := false; }
        } else {
          if count == cc0 { pin := false; }
          if count == ccn { pin := true; }
        }
      case 6 =>
        if cfg.timer1 && i == 0 {
        } else if mode == Modulo {
          if count == ccn { pin := false; }
          if count == 0 { pin := true; }
        } else {
          if count == cc0 { pin := true; }
          if count == ccn { pin := false; }
        }
      case 7 => pin := false;
      case _ =>
    }

    /** CaptureCompare's turn for one channel. */
    method CompareChannel(i: nat)
      requires Ready() && i < |cfg.value|
      modifies `notices, pins
      ensures State() == ComparedAt(cfg, mode, old(State()), i)
    {
      hide Output;
      if cfg.compare[i] && (count == cfg.value[0] || count == cfg.value[i] || count == 0) {
        var pin := Compare(i);
        pins[i] := pin;
        if i < 3 {
          notices := notices + [Notice(now, i)];
        }
      }
    }

    method CaptureCompare()
      requires Ready()
      modifies `nextCmpEvent, `served, `notices, pins
      ensures State() == Serve(cfg, mode, old(State()))
    {
      hide ComparedAt, Scan, Output;
      served := served + [now];
      ghost var s := State();
      for i := 0 to |cfg.value|
        invariant State() == Compared(cfg, mode, s, i)
      {
        CompareChannel(i);
      }
      GetNextCcEvent();
    }

    method Overflow()
      modifies `overflows
      ensures overflows == old(overflows) + 1
    {
      overflows := overflows + 1;
    }

    method FreeRunningTick()
      requires Ready() && mode == FreeRunning
      modifies `now, `count, `nextCmpEvent, `overflows, `served, `notices, pins
      ensures State() == OneTick(cfg, FreeRunning, old(State()))
    {
      hide Serve, Rescan;
      now, nextCmpEvent := now + 1, Dec(cfg, nextCmpEvent);
      count := Inc(cfg, count);
      if count == 0 {
        Overflow();
      }
      if nextCmpEvent == 0 {
        CaptureCompare();
      }
    }

    method DoFreeRunningMode(cycles: nat)
      requires Ready() && mode == FreeRunning
      modifies `now, `count, `nextCmpEvent, `overflows, `served, `notices, pins
      ensures State() == Ticks(cfg, FreeRunning, old(State()), cycles)
    {
      hide OneTick;
      for i := 0 to cycles
        invariant State() == Ticks(cfg, FreeRunning, old(State()), i)
      {
        FreeRunningTick();
      }
    }

    method ModuloTick()
      requires Ready() && mode == Modulo
      modifies `now, `count, `nextCmpEvent, `overflows, `served, `notices, pins
      ensures State() == OneTick(cfg, Modulo, old(State()))
    {
      hide Serve, Rescan;
      now, nextCmpEvent := now + 1, Dec(cfg, nextCmpEvent);
      if count == cfg.value[0] {
        count := 0;
        Overflow();
        GetNextCcEvent();
      } else {
        count := Inc(cfg, count);
        if count == 0 {
          Overflow();
          GetNextCcEvent();
        }
      }
      if nextCmpEvent == 0 {
        CaptureCompare();
      }
    }

    method DoModuloMode(cycles: nat)
      requires Ready() && mode == Modulo
      modifies `now, `count, `nextCmpEvent, `overflows, `served, `notices, pins
      ensures State() == Ticks(cfg, Modulo, old(State()), cycles)
    {
      hide OneTick;
      for i := 0 to cycles
        invariant State() == Ticks(cfg, Modulo, old(State()), i)
      {
        ModuloTick();
      }
    }

    method UpDownTick()
      requires Ready() && mode == UpDown
      modifies `now, `count, `nextCmpEvent, `upDown, `overflows, `served, `notices, pins
      ensures State() == OneTick(cfg, UpDown, old(State()))
    {
      hide Serve, Rescan;
      now, nextCmpEvent := now + 1, Dec(cfg, nextCmpEvent);
      var changed := false;
      if !upDown {
        count := Inc(cfg, count);
        if count == 0 {
          Overflow();
        }
        if count == cfg.value[0] {
          upDown, changed := true, true;
        }
      } else {
        count := Dec(cfg, count);
        if count == 0 {
          Overflow();
          upDown, changed := false, true;
        }
      }
      if nextCmpEvent == 0 {
        CaptureCompare();
      }
      if changed {
        GetNextCcEvent();
      }
    }

    method DoUpDownMode(cycles: nat)
      requires Ready() && mode == UpDown
      modifies `now, `count, `nextCmpEvent, `upDown, `overflows, `served, `notices, pins
      ensures State() == Ticks(cfg, UpDown, old(State()), cycles)
    {
      hide OneTick;
      for i := 0 to cycles
        invariant State() == Ticks(cfg, UpDown, old(State()), i)
      {
        UpDownTick();
      }
    }

    method DownTick()
      requires Ready() && mode == Down
      modifies `now, `count, `nextCmpEvent, `overflows, `served, `notices, pins
      ensures State() == OneTick(cfg, Down, old(State()))
    {
      hide Serve, Rescan;
      now, nextCmpEvent := now + 1, Dec(cfg, nextCmpEvent);
      if count == 0 {
        count := cfg.value[0];
        if nextCmpEvent == 0 {
          CaptureCompare();
        } else {
          GetNextCcEvent();
        }
      } else {
        count := Dec(cfg, count);
      }
      if count == 0 {
        Overflow();
      }
      if nextCmpEvent == 0 {
        CaptureCompare();
      }
    }

    method DoDownMode(cycles: nat)
      requires Ready() && mode == Down
      modifies `now, `count, `nextCmpEvent, `overflows, `served, `notices, pins
      ensures State() == Ticks(cfg, Down, old(State()), cycles)
    {
      hide OneTick;
      for i := 0 to cycles
        invariant State() == Ticks(cfg, Down, old(State()), i)
      {
        DownTick();
      }
    }

    /** The prescaler: `cycles` system ticks become as many timer ticks as there are multiples of the
        prescaler among them. */
    method Tick(cycles: nat)
      requires Ready()
      modifies this, pins
      ensures Ready() && mode == old(mode) && prescale == old(prescale) && systemTicks == old(systemTicks) + cycles
      ensures old(systemTicks) / prescale <= systemTicks / prescale
      ensures State() == Ticks(cfg, mode, old(State()), systemTicks / prescale - old(systemTicks) / prescale)
    {
      var timerTicks := 0;
      for i := 0 to cycles
        invariant systemTicks == old(systemTicks) + i
        invariant State() == old(State()) && prescale == old(prescale) && mode == old(mode)
        invariant old(systemTicks) / prescale + timerTicks == systemTicks / prescale
      {
        ModStep(systemTicks, prescale);
        systemTicks := systemTicks + 1;
        if systemTicks % prescale == 0 {
          timerTicks := timerTicks + 1;
        }
      }
      if timerTicks != 0 {
        match mode
        case FreeRunning => DoFreeRunningMode(timerTicks);
        case Modulo => DoModuloMode(timerTicks);
        case UpDown => DoUpDownMode(timerTicks);
        case Down => DoDownMode(timerTicks);
      }
    }
  }
}
