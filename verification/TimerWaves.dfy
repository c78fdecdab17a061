/** Pulse-width waves on the pins, over whole runs of each mode. */
module TimerWaves {
  import opened Arith
  import opened Timer
  import opened TimerLaws
  import opened TimerCountdown
  import opened TimerEvery
  import opened TimerPins
  import Modulos = TimerModulo
  import Turns = TimerTurns
  import Falls = TimerDown
  import Waves = TimerUpDown

  /** The actions that set the pin at the compare value, and those that clear it there; channel 0 of timer 1 has
      neither 5 nor 6. */
  predicate SetsAtValue(cfg: Config, j: nat)
    requires Valid(cfg) && j < |cfg.value|
  {
    cfg.action[j] == 3 || (cfg.action[j] == 5 && !(cfg.timer1 && j == 0))
  }

  predicate ClearsAtValue(cfg: Config, j: nat)
    requires Valid(cfg) && j < |cfg.value|
  {
    cfg.action[j] == 4 || (cfg.action[j] == 6 && !(cfg.timer1 && j == 0))
  }

  // ---------- modulo mode ----------

  lemma ModuloLevelTick(cfg: Config, q: Snapshot, j: nat, c: int)
    requires Modulos.Due(cfg, q) && cfg.compare[0] && Modulos.AllRight(cfg, c)
    requires j < |cfg.value| && cfg.compare[j] && (SetsAtValue(cfg, j) || ClearsAtValue(cfg, j))
    ensures var r := OneTick(cfg, Modulo, q);
            r.pins[j] == if r.count == cfg.value[j] then SetsAtValue(cfg, j) else q.pins[j]
  {
    assert Proper(cfg, q);
    hide OneTick, Runs, Scan, Moved, Fuse, Modulos.Due, RightAt;
    Modulos.DueTick(cfg, q, c);
    PinTick(cfg, Modulo, q, j);
    RunsNotAtZero(cfg, q);
    assert OneTick(cfg, Modulo, q).count == cfg.value[j] ==> Hit(cfg, OneTick(cfg, Modulo, q).count);
    if ServesPin(cfg, Modulo, q, j) {
      if cfg.action[j] == 3 || cfg.action[j] == 4 {
        ServedAtValueOrZero(cfg, Modulo, q, j);
      } else {
        ServedAtValueOrCC0(cfg, Modulo, q, j);
      }
    }
  }

  lemma RunsNotAtZero(cfg: Config, q: Snapshot)
    requires Valid(cfg)
    ensures Runs(cfg, Modulo, q) ==> Moved(cfg, Modulo, q).count != 0
  {
  }

  /**
   * Modulo mode with channel 0 in compare mode and schedulable registers, from a scan at 0: a pin that its action
   * sets at the compare value, or clears there, keeps that level for good from the first arrival on.
   */
  lemma {:induction false} ModuloLevel(cfg: Config, s: Snapshot, j: nat, n: nat)
    requires WithinPeriod(cfg, s) && cfg.compare[0] && s.count == 0 && s.next == Scan(cfg, Modulo, s, |cfg.value|)
    requires Modulos.Schedulable(cfg, 0)
    requires j < |cfg.value| && cfg.compare[j] && (SetsAtValue(cfg, j) || ClearsAtValue(cfg, j))
    requires U(cfg, cfg.value[j]) <= Top(cfg)
    ensures |Ticks(cfg, Modulo, s, n).pins| == |cfg.value| > j
    ensures Ticks(cfg, Modulo, s, n).pins[j] == if n < U(cfg, cfg.value[j]) then s.pins[j] else SetsAtValue(cfg, j)
  {
    hide OneTick, Runs, Scan, Moved, Fuse, Modulos.Due, Modulos.AllRight, Modulos.Schedulable, RightAt;
    Modulos.SchedulableIsAllRight(cfg, 0);
    NotAtZero(cfg, j);
    if n > 0 {
      ModuloLevel(cfg, s, j, n - 1);
      StartsDue(cfg, s);
      Modulos.DueRun(cfg, s, 0, n - 1);
      var q, r := Ticks(cfg, Modulo, s, n - 1), Ticks(cfg, Modulo, s, n);
      ModuloLevelTick(cfg, q, j, 0);
      ModuloClosedForm(cfg, s, n);
      ArrivesAtValue(cfg, j, r, n);
    }
  }

  lemma StartsDue(cfg: Config, s: Snapshot)
    requires WithinPeriod(cfg, s) && cfg.compare[0] && s.count == 0 && s.next == Scan(cfg, Modulo, s, |cfg.value|)
    requires Modulos.AllRight(cfg, 0)
    ensures Modulos.Due(cfg, s)
  {
    hide Scan;
    Modulos.ScannedIsDue(cfg, s);
  }

  lemma NotAtZero(cfg: Config, j: nat)
    requires Valid(cfg) && Modulos.AllRight(cfg, 0) && j < |cfg.value| && cfg.compare[j]
    ensures U(cfg, cfg.value[j]) > 0
  {
    assert cfg.value[j] != 0;
  }

  lemma ArrivesAtValue(cfg: Config, j: nat, r: Snapshot, n: nat)
    requires WithinPeriod(cfg, r) && j < |cfg.value| && 0 < U(cfg, cfg.value[j]) <= Top(cfg)
    requires U(cfg, r.count) == n % (Top(cfg) + 1)
    ensures n < U(cfg, cfg.value[j]) ==> r.count != cfg.value[j]
    ensures n == U(cfg, cfg.value[j]) ==> r.count == cfg.value[j]
  {
    if n <= Top(cfg) {
      DivModUnique(n, Top(cfg) + 1, 0, n);
    }
  }

  // ---------- free-running mode ----------

  /** Position in the turn after `n` ticks from channel 0's value. */
  lemma {:induction false} PositionAfter(cfg: Config, s: Snapshot, n: nat)
    requires Turns.OnTurn(cfg, 0, s) && s.count == cfg.value[0]
    ensures var r := Ticks(cfg, FreeRunning, s, n);
            Turns.OnTurn(cfg, 0, r) && Turns.Position(cfg, 0, r.count) == n % Turns.Turn(cfg)
  {
    hide OneTick, Runs, Turns.Woken, Turns.Left, Fuse, Scan;
    assert Turns.Turn(cfg) >= 8;
    if n == 0 {
      DivModUnique(0, Turns.Turn(cfg), 0, 0);
    } else {
      PositionAfter(cfg, s, n - 1);
      var q := Ticks(cfg, FreeRunning, s, n - 1);
      Turns.TurnTick(cfg, 0, q);
      Turns.PositionMoves(cfg, 0, q.count);
      ModStep(n - 1, Turns.Turn(cfg));
      hide Turns.Position;
    }
  }

  /** Channel 0's value is served on every turn, and its pin with that of every channel with action 0, 1 or 2 moves
      there. */
  function FreeWave(cfg: Config, action: int, pin: bool, n: nat): bool
    requires Valid(cfg)
  {
    match action
    case 0 => pin || n >= Turns.Turn(cfg)
    case 1 => pin && n < Turns.Turn(cfg)
    case _ => pin != (n / Turns.Turn(cfg) % 2 == 1)
  }

  lemma FreeWaveStep(cfg: Config, action: int, pin: bool, n: nat)
    requires Valid(cfg) && 0 <= action <= 2
    ensures FreeWave(cfg, action, pin, n + 1) ==
            if (n + 1) % Turns.Turn(cfg) != 0 then FreeWave(cfg, action, pin, n)
            else match action case 0 => true case 1 => false case _ => !FreeWave(cfg, action, pin, n)
    ensures FreeWave(cfg, action, pin, 0) == pin
  {
    var p := Turns.Turn(cfg);
    ModStep(n, p);
    DivModUnique(0, p, 0, 0);
    if n + 1 < p {
      DivModUnique(n + 1, p, 0, n + 1);
    }
    if n + 1 == p {
      DivModUnique(n + 1, p, 1, 0);
    }
  }

  lemma FreeWaveTick(cfg: Config, q: Snapshot, j: nat)
    requires Turns.OnTurn(cfg, 0, q) && j < |cfg.value| && cfg.compare[j] && 0 <= cfg.action[j] <= 2
    ensures var r := OneTick(cfg, FreeRunning, q);
            r.pins[j] == if r.count != cfg.value[0] then q.pins[j]
                         else match cfg.action[j] case 0 => true case 1 => false case _ => !q.pins[j]
  {
    assert Proper(cfg, q);
    Turns.ScheduleStarts(cfg, 0);
    hide OneTick, Runs, Scan, Moved, Fuse, Turns.OnTurn, Turns.Woken, Turns.Position;
    Turns.TurnTick(cfg, 0, q);
    PinTick(cfg, FreeRunning, q, j);
    if ServesPin(cfg, FreeRunning, q, j) {
      ServedAtCC0(cfg, FreeRunning, q, j);
    }
  }

  /** Free-running mode with channel 0 in compare mode and any other registers, from a scan on CC0: pins with action 0
      or 1 are set or cleared from the first turn on, and with action 2 inverted every turn. */
  lemma {:induction false} FreePinWave(cfg: Config, s: Snapshot, j: nat, n: nat)
    requires Proper(cfg, s) && cfg.compare[0] && s.count == cfg.value[0]
    requires s.next == Scan(cfg, FreeRunning, s, |cfg.value|)
    requires j < |cfg.value| && cfg.compare[j] && 0 <= cfg.action[j] <= 2
    ensures |Ticks(cfg, FreeRunning, s, n).pins| == |cfg.value| > j
    ensures Ticks(cfg, FreeRunning, s, n).pins[j] == FreeWave(cfg, cfg.action[j], s.pins[j], n)
  {
    hide OneTick, Runs, Scan, FreeWave, Turns.OnTurn, Turns.Woken, Turns.Position, Moved, Fuse;
    if n == 0 {
      FreeWaveStep(cfg, cfg.action[j], s.pins[j], 0);
    } else {
      FreePinWave(cfg, s, j, n - 1);
      FreeWaveStep(cfg, cfg.action[j], s.pins[j], n - 1);
      StartsOnTurn(cfg, s);
      PositionAfter(cfg, s, n - 1);
      PositionAfter(cfg, s, n);
      var q, r := Ticks(cfg, FreeRunning, s, n - 1), Ticks(cfg, FreeRunning, s, n);
      FreeWaveTick(cfg, q, j);
      AtStart(cfg, r);
    }
  }

  lemma StartsOnTurn(cfg: Config, s: Snapshot)
    requires Proper(cfg, s) && cfg.compare[0] && s.count == cfg.value[0]
    requires s.next == Scan(cfg, FreeRunning, s, |cfg.value|)
    ensures Turns.Leads(cfg, 0) && Turns.OnTurn(cfg, 0, s)
  {
    Turns.ScheduleStarts(cfg, 0);
    Turns.ScannedOnTurn(cfg, 0, s);
  }

  lemma AtStart(cfg: Config, r: Snapshot)
    requires Turns.OnTurn(cfg, 0, r)
    ensures Turns.Position(cfg, 0, r.count) == 0 <==> r.count == cfg.value[0]
  {
    Turns.PositionMoves(cfg, 0, r.count);
  }

  /** Whether channel `j`'s value is behind in the turn. */
  predicate Past(cfg: Config, j: nat, n: nat)
    requires Valid(cfg) && j < |cfg.value|
  {
    n % Turns.Turn(cfg) >= Turns.Position(cfg, 0, cfg.value[j])
  }

  /** The next place of a turn of `p` ticks, with a mark at `x`. */
  lemma MarkStep(p: int, x: int, n: nat)
    requires 0 < x < p
    ensures var y := (n + 1) % p;
            && 0 <= y < p && (y == x ==> n + 1 >= x) && (n + 1 == x ==> y == x) && (n + 1 < x ==> y != 0)
            && (y != x && y != 0 ==> (y >= x <==> n % p >= x))
  {
    ModStep(n, p);
    if n + 1 <= x {
      DivModUnique(n + 1, p, 0, n + 1);
    }
    if (n + 1) % p == x && n + 1 < x {
      assert false;
    }
  }

  lemma PastStep(cfg: Config, j: nat, r: Snapshot, n: nat)
    requires Turns.OnTurn(cfg, 0, r) && j < |cfg.value| && cfg.value[j] != cfg.value[0]
    requires Turns.Position(cfg, 0, r.count) == (n + 1) % Turns.Turn(cfg)
    ensures r.count == cfg.value[j] ==> Past(cfg, j, n + 1) && n + 1 >= Turns.Position(cfg, 0, cfg.value[j])
    ensures r.count == cfg.value[0] ==> !Past(cfg, j, n + 1)
    ensures r.count != cfg.value[j] && r.count != cfg.value[0] ==> Past(cfg, j, n + 1) == Past(cfg, j, n)
    ensures n + 1 == Turns.Position(cfg, 0, cfg.value[j]) ==> r.count == cfg.value[j]
    ensures n + 1 < Turns.Position(cfg, 0, cfg.value[j]) ==> r.count != cfg.value[0]
  {
    PlaceTells(cfg, r.count, cfg.value[j]);
    hide Turns.Position, Turns.OnTurn;
    MarkStep(Turns.Turn(cfg), Turns.Position(cfg, 0, cfg.value[j]), n);
  }

  lemma PlaceTells(cfg: Config, c: int, v: int)
    requires Valid(cfg) && InRange(cfg, c) && InRange(cfg, v) && v != cfg.value[0]
    ensures 0 < Turns.Position(cfg, 0, v) < Turns.Turn(cfg)
    ensures Turns.Position(cfg, 0, c) == 0 <==> c == cfg.value[0]
    ensures Turns.Position(cfg, 0, c) == Turns.Position(cfg, 0, v) <==> c == v
  {
    Turns.PositionMoves(cfg, 0, v);
    Turns.PositionMoves(cfg, 0, c);
    if Turns.Position(cfg, 0, c) == Turns.Position(cfg, 0, v) {
      Turns.SamePosition(cfg, 0, c, v);
    }
  }

  lemma FreePulseTick(cfg: Config, q: Snapshot, j: nat)
    requires Turns.OnTurn(cfg, 0, q) && Turns.Leads(cfg, 0) && j < |cfg.value| && cfg.compare[j]
    requires cfg.value[j] != cfg.value[0] && Turns.Woken(cfg, 0, Turns.Position(cfg, 0, cfg.value[j]))
    requires cfg.action[j] == 5 || cfg.action[j] == 6
    ensures var r, up := OneTick(cfg, FreeRunning, q), cfg.action[j] == 5;
            r.pins[j] == if r.count == cfg.value[j] then up else if r.count == cfg.value[0] then !up else q.pins[j]
  {
    assert Proper(cfg, q) && j != 0;
    Turns.ScheduleStarts(cfg, 0);
    hide OneTick, Runs, Scan, Moved, Fuse, Turns.OnTurn, Turns.Woken, Turns.Position;
    Turns.TurnTick(cfg, 0, q);
    PinTick(cfg, FreeRunning, q, j);
    if ServesPin(cfg, FreeRunning, q, j) {
      ServedAtValueOrCC0(cfg, FreeRunning, q, j);
    }
  }

  /**
   * Free-running mode, any number of channels, from a scan on CC0: a channel with action 5 whose value is at a position
   * of the schedule makes a pulse on every turn, from its own value to CC0; with action 6 the inverse.
   */
  lemma {:induction false} FreePulse(cfg: Config, s: Snapshot, j: nat, n: nat)
    requires Proper(cfg, s) && cfg.compare[0] && s.count == cfg.value[0]
    requires s.next == Scan(cfg, FreeRunning, s, |cfg.value|)
    requires j < |cfg.value| && cfg.compare[j] && cfg.value[j] != cfg.value[0]
    requires cfg.action[j] == 5 || cfg.action[j] == 6
    requires Turns.Woken(cfg, 0, Turns.Position(cfg, 0, cfg.value[j]))
    ensures |Ticks(cfg, FreeRunning, s, n).pins| == |cfg.value| > j
    ensures Ticks(cfg, FreeRunning, s, n).pins[j] ==
            if n < Turns.Position(cfg, 0, cfg.value[j]) then s.pins[j] else Past(cfg, j, n) == (cfg.action[j] == 5)
  {
    hide OneTick, Runs, Scan, Past, Turns.OnTurn, Turns.Woken, Turns.Position, Moved, Fuse;
    Turns.PositionMoves(cfg, 0, cfg.value[j]);
    if n > 0 {
      FreePulse(cfg, s, j, n - 1);
      StartsOnTurn(cfg, s);
      PositionAfter(cfg, s, n - 1);
      PositionAfter(cfg, s, n);
      var q, r := Ticks(cfg, FreeRunning, s, n - 1), Ticks(cfg, FreeRunning, s, n);
      FreePulseTick(cfg, q, j);
      PastStep(cfg, j, r, n - 1);
    }
  }

  // ---------- up/down mode ----------

  /** The pin of channel 1 with action 4 at place `x` of a period. The peak compares signed numbers: it keeps the pin
      clear if CC0 is the larger of the two as signed numbers, and sets it otherwise. */
  predicate Level(cfg: Config, x: int)
    requires Falls.TwoChannels(cfg)
  {
    var v, top := Waves.Second(cfg), Top(cfg);
    x < v || x >= 2 * top - v || (x >= top && cfg.value[0] <= cfg.value[1])
  }

  /** Both channels of timer 3 in compare mode, channel 1 below CC0 and centred, no arrival missed. */
  predicate Centred(cfg: Config) {
    && Falls.TwoChannels(cfg) && cfg.compare[0] && cfg.compare[1] && (cfg.action[1] == 3 || cfg.action[1] == 4)
    && 0 < Waves.Second(cfg) < Top(cfg) && Waves.NothingAmiss(cfg)
  }

  lemma UpDownPulseTick(cfg: Config, q: Snapshot)
    requires Waves.OnCourse(cfg, q) && Centred(cfg)
    ensures var r, up := OneTick(cfg, UpDown, q), cfg.action[1] == 3;
            r.pins[1] == if r.count == cfg.value[1] then !q.down == up
                         else if r.count == cfg.value[0] then (cfg.value[0] > cfg.value[1]) == up
                         else q.pins[1]
  {
    var r := OneTick(cfg, UpDown, q);
    assert Proper(cfg, q);
    Waves.CourseTick(cfg, q);
    Waves.UpDownTick(cfg, q);
    hide OneTick, Runs, Scan, Moved, Fuse, Waves.ExpectedUp, Waves.ExpectedDown;
    Waves.ServedIsHitIff(cfg, q.down, r.count);
    Falls.HitTwo(cfg, r.count);
    PinTick(cfg, UpDown, q, 1);
    if ServesPin(cfg, UpDown, q, 1) {
      ServedInUpDown(cfg, q, 1);
    }
  }

  /** The next place of a period of `2 * top` ticks. */
  lemma PlaceStep(top: int, v: int, n: nat)
    requires 0 < v < top
    ensures var x, y := n % (2 * top), (n + 1) % (2 * top);
            && (y == if x == 2 * top - 1 then 0 else x + 1) && 0 <= x < 2 * top
            && (n + 1 <= v ==> y == n + 1)
  {
    ModStep(n, 2 * top);
    if n + 1 <= v {
      DivModUnique(n + 1, 2 * top, 0, n + 1);
    }
  }

  /** Place and count after `n` ticks. */
  lemma PhaseTells(cfg: Config, r: Snapshot, x: int)
    requires OnTriangle(cfg, r) && Falls.TwoChannels(cfg) && Phase(cfg, r) == x && 0 <= x < 2 * Top(cfg)
    ensures r.count == cfg.value[0] <==> x == Top(cfg)
    ensures 0 < Waves.Second(cfg) < Top(cfg) ==>
              (r.count == cfg.value[1] <==> x == Waves.Second(cfg) || x == 2 * Top(cfg) - Waves.Second(cfg))
    ensures r.down <==> x >= Top(cfg)
  {
  }

  /**
   * Up/down mode with two channels in compare mode, none of whose arrivals is missed, from a scan at 0: with action 4
   * channel 1's pin is a wave of period 2 * CC0, clear from its value on the way up to its value on the way down (and
   * set at other times); with action 3 it is the inverse. Where CC0 is not the larger one as a signed number, the peak
   * inverts the pin half-way.
   */
  lemma {:induction false} UpDownPulse(cfg: Config, s: Snapshot, n: nat)
    requires Centred(cfg) && OnTriangle(cfg, s) && s.count == 0 && !s.down && s.next == Scan(cfg, UpDown, s, 2)
    ensures |Ticks(cfg, UpDown, s, n).pins| == 2
    ensures Ticks(cfg, UpDown, s, n).pins[1] ==
            if n < Waves.Second(cfg) then s.pins[1] else Level(cfg, n % (2 * Top(cfg))) == (cfg.action[1] == 4)
  {
    hide OneTick, Runs, Scan, Moved, Fuse, Waves.NothingAmiss, Waves.ExpectedUp, Waves.ExpectedDown, U;
    if n > 0 {
      UpDownPulse(cfg, s, n - 1);
      StartsOnCourse(cfg, s);
      Waves.CourseRun(cfg, s, n - 1);
      var q, r := Ticks(cfg, UpDown, s, n - 1), Ticks(cfg, UpDown, s, n);
      UpDownPulseTick(cfg, q);
      PhaseAfter(cfg, s, n - 1);
      PhaseAfter(cfg, s, n);
      PhaseTells(cfg, q, (n - 1) % (2 * Top(cfg)));
      PhaseTells(cfg, r, n % (2 * Top(cfg)));
      PlaceStep(Top(cfg), Waves.Second(cfg), n - 1);
      hide Centred, OnTriangle, Phase, Waves.OnCourse, Waves.Second, Top, Ticks;
    }
  }

  lemma StartsOnCourse(cfg: Config, s: Snapshot)
    requires Falls.TwoChannels(cfg) && OnTriangle(cfg, s)
    requires s.count == 0 && !s.down && s.next == Scan(cfg, UpDown, s, 2)
    ensures Waves.OnCourse(cfg, s)
  {
    hide Scan;
    Waves.ScannedUp(cfg, s);
  }

  lemma PhaseAfter(cfg: Config, s: Snapshot, n: nat)
    requires OnTriangle(cfg, s) && s.count == 0 && !s.down
    ensures var r := Ticks(cfg, UpDown, s, n);
            && OnTriangle(cfg, r) && Top(cfg) > 0 && Phase(cfg, r) == n % (2 * Top(cfg))
            && 0 <= Phase(cfg, r) < 2 * Top(cfg)
  {
    UpDownClosedForm(cfg, s, n);
    hide Ticks;
  }
}
