/** The output pins: what each action does when its channel is served, and the waves it makes over whole runs. */
module TimerPins {
  import opened Arith
  import opened Timer
  import opened TimerLaws
  import opened TimerCountdown
  import opened TimerEvery
  import opened TimerModulo
  import AlikeModulo = TimerAlikeModulo
  import Turns = TimerTurns
  import Falls = TimerDown
  import Waves = TimerUpDown

  // ---------- one served tick ----------

  lemma {:induction false} ComparedPin(cfg: Config, mode: Mode, u: Snapshot, j: nat, i: nat)
    requires Valid(cfg) && |u.pins| == |cfg.value| && j < |cfg.value| && i <= |cfg.value|
    ensures Compared(cfg, mode, u, i).pins[j] ==
            if i <= j || !Acts(cfg, u.count, j) then u.pins[j] else Output(cfg, mode, u, j)
  {
    if i > 0 {
      ComparedPin(cfg, mode, u, j, i - 1);
      if i - 1 == j {
        SameOutput(cfg, mode, Compared(cfg, mode, u, j), u, j);
      }
      hide Compared, Output;
    }
  }

  lemma SameOutput(cfg: Config, mode: Mode, s: Snapshot, u: Snapshot, j: nat)
    requires Valid(cfg) && |s.pins| == |u.pins| == |cfg.value| && j < |cfg.value|
    requires s == u.(pins := s.pins, notices := s.notices) && s.pins[j] == u.pins[j]
    ensures Output(cfg, mode, s, j) == Output(cfg, mode, u, j)
  {
  }

  /** CaptureCompare runs on the next tick and has work for channel `j`. */
  predicate ServesPin(cfg: Config, mode: Mode, s: Snapshot, j: nat)
    requires Valid(cfg) && j < |cfg.value|
  {
    Runs(cfg, mode, s) && Acts(cfg, Moved(cfg, mode, s).count, j)
  }

  lemma PinTick(cfg: Config, mode: Mode, s: Snapshot, j: nat)
    requires Proper(cfg, s) && j < |cfg.value|
    ensures var r, u := OneTick(cfg, mode, s), Moved(cfg, mode, s);
            && Proper(cfg, r) && r.count == u.count && r.down == u.down && |u.pins| == |cfg.value| && u.pins == s.pins
            && r.pins[j] == if ServesPin(cfg, mode, s, j) then Output(cfg, mode, u, j) else s.pins[j]
  {
    hide OneTick, Moved, Runs, Compared, Output, Scan;
    var u := Moved(cfg, mode, s);
    TickEffect(cfg, mode, s);
    MovedKeeps(cfg, mode, s);
    VisibleTick(cfg, mode, s);
    assert OneTick(cfg, mode, s).pins == Visible(OneTick(cfg, mode, s)).pins;
    ComparedPin(cfg, mode, Visible(u), j, |cfg.value|);
    OutputVisible(cfg, mode, u, j);
  }

  lemma MovedKeeps(cfg: Config, mode: Mode, s: Snapshot)
    requires Valid(cfg)
    ensures Moved(cfg, mode, s).pins == s.pins
  {
  }

  /** A tick leaves the pin of a channel it does not serve. */
  lemma UnservedPinStays(cfg: Config, mode: Mode, s: Snapshot, j: nat)
    requires Proper(cfg, s) && j < |cfg.value| && !ServesPin(cfg, mode, s, j)
    ensures OneTick(cfg, mode, s).pins[j] == s.pins[j]
  {
    hide *;
    PinTick(cfg, mode, s, j);
  }

  /** When served, in every mode: action 0 sets the pin at CC0, 1 clears it there and 2 inverts it, and all three
      leave it elsewhere; 7 clears it; actions beyond leave it. */
  lemma ServedAtCC0(cfg: Config, mode: Mode, s: Snapshot, j: nat)
    requires Proper(cfg, s) && j < |cfg.value| && ServesPin(cfg, mode, s, j)
    ensures var r, top, a := OneTick(cfg, mode, s), cfg.value[0], cfg.action[j];
            && (a == 0 && r.count == top ==> r.pins[j])
            && (a == 1 && r.count == top ==> !r.pins[j])
            && (a == 2 && r.count == top ==> r.pins[j] == !s.pins[j])
            && (0 <= a <= 2 && r.count != top ==> r.pins[j] == s.pins[j])
            && (a == 7 ==> !r.pins[j])
            && (a < 0 || a > 7 ==> r.pins[j] == s.pins[j])
  {
    hide OneTick, Moved, ServesPin;
    PinTick(cfg, mode, s, j);
  }

  /** Outside up/down mode: action 3 sets the pin at the compare value and clears it at 0, which has precedence;
      action 4 the other way round. */
  lemma ServedAtValueOrZero(cfg: Config, mode: Mode, s: Snapshot, j: nat)
    requires Proper(cfg, s) && j < |cfg.value| && ServesPin(cfg, mode, s, j) && mode != UpDown
    requires cfg.action[j] == 3 || cfg.action[j] == 4
    ensures var r, up := OneTick(cfg, mode, s), cfg.action[j] == 3;
            && (r.count == 0 ==> r.pins[j] == !up)
            && (r.count == cfg.value[j] && r.count != 0 ==> r.pins[j] == up)
            && (r.count != cfg.value[j] && r.count != 0 ==> r.pins[j] == s.pins[j])
  {
    hide OneTick, Moved, ServesPin;
    PinTick(cfg, mode, s, j);
  }

  /** In up/down mode they compare: with action 3 the pin is set above the compare value and, at it, on the way up. */
  lemma ServedInUpDown(cfg: Config, s: Snapshot, j: nat)
    requires Proper(cfg, s) && j < |cfg.value| && ServesPin(cfg, UpDown, s, j)
    ensures var r := OneTick(cfg, UpDown, s);
            var above := r.count > cfg.value[j] || (r.count == cfg.value[j] && !r.down);
            (cfg.action[j] == 3 ==> r.pins[j] == above) && (cfg.action[j] == 4 ==> r.pins[j] == !above)
  {
    hide OneTick, Moved, ServesPin;
    PinTick(cfg, UpDown, s, j);
  }

  /** Action 5 sets the pin at the compare value and clears it at 0 in modulo mode and at CC0 in the other modes;
      0 has precedence over the compare value, and the compare value over CC0. Action 6 the other way round. Channel 0
      of timer 1 has neither. */
  lemma ServedAtValueOrCC0(cfg: Config, mode: Mode, s: Snapshot, j: nat)
    requires Proper(cfg, s) && j < |cfg.value| && ServesPin(cfg, mode, s, j)
    requires cfg.action[j] == 5 || cfg.action[j] == 6
    ensures var r, up := OneTick(cfg, mode, s), cfg.action[j] == 5;
            if cfg.timer1 && j == 0 then r.pins[j] == s.pins[j]
            else if mode == Modulo then
              && (r.count == 0 ==> r.pins[j] == !up)
              && (r.count == cfg.value[j] && r.count != 0 ==> r.pins[j] == up)
              && (r.count != cfg.value[j] && r.count != 0 ==> r.pins[j] == s.pins[j])
            else
              && (r.count == cfg.value[j] ==> r.pins[j] == up)
              && (r.count == cfg.value[0] && r.count != cfg.value[j] ==> r.pins[j] == !up)
              && (r.count != cfg.value[0] && r.count != cfg.value[j] ==> r.pins[j] == s.pins[j])
  {
    hide OneTick, Moved, ServesPin;
    PinTick(cfg, mode, s, j);
  }

  // ---------- the notices ----------

  lemma {:induction false} ComparedNotices(cfg: Config, mode: Mode, u: Snapshot, i: nat, j: nat)
    requires Valid(cfg) && i <= |cfg.value| && |u.pins| == |cfg.value|
    ensures Notice(u.now, j) in Compared(cfg, mode, u, i).notices
            <==> Notice(u.now, j) in u.notices || (j < i && j < 3 && Acts(cfg, u.count, j))
  {
    hide Output;
    if i > 0 {
      ComparedNotices(cfg, mode, u, i - 1, j);
    }
  }

  /** A tick notifies the partners of exactly those of the first three channels that it serves. */
  lemma NotifiedIff(cfg: Config, mode: Mode, s: Snapshot, j: nat)
    requires Proper(cfg, s) && NothingTold(s)
    ensures var r := OneTick(cfg, mode, s);
            Notice(r.now, j) in r.notices <==> j < 3 && j < |cfg.value| && ServesPin(cfg, mode, s, j)
  {
    hide OneTick, Moved, Runs, Compared;
    var u := Moved(cfg, mode, s);
    VisibleTick(cfg, mode, s);
    MovedTells(cfg, mode, s);
    assert OneTick(cfg, mode, s).notices == Visible(OneTick(cfg, mode, s)).notices;
    ComparedNotices(cfg, mode, Visible(u), |cfg.value|, j);
  }

  lemma MovedTells(cfg: Config, mode: Mode, s: Snapshot)
    requires Valid(cfg)
    ensures Moved(cfg, mode, s).notices == s.notices && Moved(cfg, mode, s).now == s.now + 1
  {
  }

  // ---------- modulo mode ----------

  /** The countdown does not go past CC0. */
  predicate BelowTop(cfg: Config, s: Snapshot) {
    && WithinPeriod(cfg, s) && InRange(cfg, s.next) && cfg.compare[0] && cfg.value[0] != 0
    && (s.count != cfg.value[0] ==> Fuse(cfg, s.next) <= Top(cfg) - U(cfg, s.count))
  }

  lemma BelowTopTick(cfg: Config, s: Snapshot)
    requires BelowTop(cfg, s)
    ensures var r := OneTick(cfg, Modulo, s);
            && BelowTop(cfg, r) && r.count == Moved(cfg, Modulo, s).count
            && (r.count == cfg.value[0] ==> Runs(cfg, Modulo, s)) && (r.count == 0 ==> !Runs(cfg, Modulo, s))
  {
    var r := OneTick(cfg, Modulo, s);
    TickEffect(cfg, Modulo, s);
    ModuloMoves(cfg, s);
    FuseBurns(cfg, s.next);
    hide OneTick, Scan, Moved, Fuse;
    if r.count != cfg.value[0] && (Runs(cfg, Modulo, s) || Rescans(cfg, Modulo, s)) {
      AlikeModulo.ScanLands(cfg, r);
    }
  }

  lemma {:induction false} BelowTopRun(cfg: Config, s: Snapshot, n: nat)
    requires BelowTop(cfg, s)
    ensures BelowTop(cfg, Ticks(cfg, Modulo, s, n))
  {
    assert Valid(cfg) && |s.pins| == |cfg.value|;
    hide OneTick, BelowTop, Runs;
    if n > 0 {
      BelowTopRun(cfg, s, n - 1);
      BelowTopTick(cfg, Ticks(cfg, Modulo, s, n - 1));
    }
  }

  /** The pin after `n` ticks from 0: set or cleared at CC0 for good, or a square wave of period 2 * (CC0 + 1). */
  function ModuloWave(cfg: Config, action: int, pin: bool, n: nat): bool
    requires Valid(cfg)
  {
    match action
    case 0 => pin || n >= Top(cfg)
    case 1 => pin && n < Top(cfg)
    case _ => pin != ((n + 1) / (Top(cfg) + 1) % 2 == 1)
  }

  lemma WaveStep(cfg: Config, action: int, pin: bool, n: nat)
    requires Valid(cfg) && 0 <= action <= 2 && Top(cfg) >= 1
    ensures var p := Top(cfg) + 1;
            ModuloWave(cfg, action, pin, n + 1) ==
            if (n + 1) % p != Top(cfg) then ModuloWave(cfg, action, pin, n)
            else match action case 0 => true case 1 => false case _ => !ModuloWave(cfg, action, pin, n)
  {
    var p := Top(cfg) + 1;
    ModStep(n + 1, p);
    if n + 1 < Top(cfg) {
      DivModUnique(n + 1, p, 0, n + 1);
    }
    if n + 1 == Top(cfg) {
      DivModUnique(n + 1, p, 0, Top(cfg));
    }
  }

  lemma ScannedBelowTop(cfg: Config, s: Snapshot)
    requires WithinPeriod(cfg, s) && cfg.compare[0] && cfg.value[0] != 0 && s.next == Scan(cfg, Modulo, s, |cfg.value|)
    ensures BelowTop(cfg, s)
  {
    ScanInRange(cfg, Modulo, s, |cfg.value|);
    if s.count != cfg.value[0] {
      AlikeModulo.ScanLands(cfg, s);
    }
  }

  /**
   * Modulo mode with channel 0 in compare mode, CC0 not 0 and any other registers, from a scan at 0: a channel in
   * compare mode with action 0, 1 or 2 has its pin set or cleared from tick CC0 on, or inverted every period.
   */
  lemma ModuloPinWave(cfg: Config, s: Snapshot, j: nat, n: nat)
    requires WithinPeriod(cfg, s) && cfg.compare[0] && cfg.value[0] != 0 && s.next == Scan(cfg, Modulo, s, |cfg.value|)
    requires s.count == 0 && j < |cfg.value| && cfg.compare[j] && 0 <= cfg.action[j] <= 2
    ensures |Ticks(cfg, Modulo, s, n).pins| == |cfg.value| > j
    ensures Ticks(cfg, Modulo, s, n).pins[j] == ModuloWave(cfg, cfg.action[j], s.pins[j], n)
  {
    hide Scan, ModuloWave, Ticks;
    ScannedBelowTop(cfg, s);
    ModuloWaveRun(cfg, s, j, n);
  }

  lemma {:induction false} ModuloWaveRun(cfg: Config, s: Snapshot, j: nat, n: nat)
    requires BelowTop(cfg, s) && s.count == 0
    requires j < |cfg.value| && cfg.compare[j] && 0 <= cfg.action[j] <= 2
    ensures |Ticks(cfg, Modulo, s, n).pins| == |cfg.value| > j
    ensures Ticks(cfg, Modulo, s, n).pins[j] == ModuloWave(cfg, cfg.action[j], s.pins[j], n)
  {
    hide OneTick, Runs, ModuloWave, Scan, Moved, Fuse;
    if n == 0 {
      TopIsCC0(cfg, s);
      WaveStarts(cfg, cfg.action[j], s.pins[j]);
    } else {
      ModuloWaveRun(cfg, s, j, n - 1);
      TopIsCC0(cfg, s);
      WaveStep(cfg, cfg.action[j], s.pins[j], n - 1);
      BelowTopRun(cfg, s, n - 1);
      ModuloWaveTick(cfg, Ticks(cfg, Modulo, s, n - 1), j);
      ModuloClosedForm(cfg, s, n);
      TopIsCC0(cfg, Ticks(cfg, Modulo, s, n));
    }
  }

  lemma WaveStarts(cfg: Config, action: int, pin: bool)
    requires Valid(cfg) && 0 <= action <= 2 && Top(cfg) >= 1
    ensures ModuloWave(cfg, action, pin, 0) == pin
  {
    DivModUnique(1, Top(cfg) + 1, 0, 1);
  }

  lemma TopIsCC0(cfg: Config, r: Snapshot)
    requires WithinPeriod(cfg, r)
    ensures r.count == cfg.value[0] <==> U(cfg, r.count) == Top(cfg)
    ensures cfg.value[0] != 0 ==> Top(cfg) >= 1
  {
  }

  lemma ModuloWaveTick(cfg: Config, q: Snapshot, j: nat)
    requires BelowTop(cfg, q) && j < |cfg.value| && cfg.compare[j] && 0 <= cfg.action[j] <= 2
    ensures var r := OneTick(cfg, Modulo, q);
            r.pins[j] == if r.count != cfg.value[0] then q.pins[j]
                         else match cfg.action[j] case 0 => true case 1 => false case _ => !q.pins[j]
  {
    hide OneTick, Runs, Scan, Moved, Fuse;
    BelowTopTick(cfg, q);
    PinTick(cfg, Modulo, q, j);
    if ServesPin(cfg, Modulo, q, j) {
      ServedAtCC0(cfg, Modulo, q, j);
    }
  }
}
