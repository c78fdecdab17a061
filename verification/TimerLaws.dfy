/** What the counting modes compute, on the counter read as an unsigned number. */
module TimerLaws {
  import opened Arith
  import opened Timer

  predicate Proper(cfg: Config, s: Snapshot) {
    Valid(cfg) && |s.pins| == |cfg.value| && InRange(cfg, s.count) && InRange(cfg, s.next)
  }

  /** The unsigned reading of a register. */
  function U(cfg: Config, x: int): int {
    if x < 0 then x + 2 * cfg.half else x
  }

  /** Channel 0's register, unsigned. */
  function Top(cfg: Config): int
    requires Valid(cfg)
  {
    U(cfg, cfg.value[0])
  }

  /** The count is not above channel 0's register. */
  predicate WithinPeriod(cfg: Config, s: Snapshot) {
    Valid(cfg) && |s.pins| == |cfg.value| && InRange(cfg, s.count) && U(cfg, s.count) <= Top(cfg)
  }

  // ---------- closed forms ----------

  lemma ModuloAdvance(cfg: Config, s: Snapshot)
    requires WithinPeriod(cfg, s)
    ensures var r := OneTick(cfg, Modulo, s);
            U(cfg, r.count) == (if s.count == cfg.value[0] then 0 else U(cfg, s.count) + 1) && WithinPeriod(cfg, r)
            && r.overflows == s.overflows + (if s.count == cfg.value[0] then 1 else 0)
  {
    hide Compared, Scan;
  }

  lemma DownAdvance(cfg: Config, s: Snapshot)
    requires WithinPeriod(cfg, s)
    ensures var r := OneTick(cfg, Down, s);
            U(cfg, r.count) == (if s.count == 0 then Top(cfg) else U(cfg, s.count) - 1) && WithinPeriod(cfg, r)
            && r.overflows == s.overflows + (if r.count == 0 then 1 else 0)
  {
    hide Compared, Scan;
  }

  lemma FreeAdvance(cfg: Config, s: Snapshot)
    requires Valid(cfg) && |s.pins| == |cfg.value| && InRange(cfg, s.count)
    ensures var r, last := OneTick(cfg, FreeRunning, s), U(cfg, s.count) == 2 * cfg.half - 1;
            && InRange(cfg, r.count) && U(cfg, r.count) == (if last then 0 else U(cfg, s.count) + 1)
            && r.overflows == s.overflows + (if last then 1 else 0)
  {
    hide Compared, Scan;
  }

  /** Free-running mode counts modulo the whole range and overflows once a turn, on reaching 0. */
  lemma {:induction false} FreeClosedForm(cfg: Config, s: Snapshot, n: nat)
    requires Valid(cfg) && |s.pins| == |cfg.value| && InRange(cfg, s.count)
    ensures var p, c, r := 2 * cfg.half, U(cfg, s.count), Ticks(cfg, FreeRunning, s, n);
            && p > 0 && InRange(cfg, r.count)
            && U(cfg, r.count) == (c + n) % p && r.overflows == s.overflows + (c + n) / p
  {
    hide OneTick;
    var p, c := 2 * cfg.half, U(cfg, s.count);
    if n == 0 {
      DivModUnique(c, p, 0, c);
    } else {
      FreeClosedForm(cfg, s, n - 1);
      FreeAdvance(cfg, Ticks(cfg, FreeRunning, s, n - 1));
      ModStep(c + n - 1, p);
    }
  }

  /** Modulo mode counts modulo CC0 + 1 and overflows once a period. */
  lemma {:induction false} ModuloClosedForm(cfg: Config, s: Snapshot, n: nat)
    requires WithinPeriod(cfg, s)
    ensures var p, c, r := Top(cfg) + 1, U(cfg, s.count), Ticks(cfg, Modulo, s, n);
            p > 0 && WithinPeriod(cfg, r)
            && U(cfg, r.count) == (c + n) % p && r.overflows == s.overflows + (c + n) / p
  {
    hide OneTick;
    var p, c := Top(cfg) + 1, U(cfg, s.count);
    if n == 0 {
      DivModUnique(c, p, 0, c);
    } else {
      ModuloClosedForm(cfg, s, n - 1);
      ModuloAdvance(cfg, Ticks(cfg, Modulo, s, n - 1));
      ModStep(c + n - 1, p);
    }
  }

  /** Down mode runs from CC0 to 0 and reloads; it overflows on reaching 0, once a period of CC0 + 1. */
  lemma {:induction false} DownClosedForm(cfg: Config, s: Snapshot, n: nat)
    requires WithinPeriod(cfg, s)
    ensures var p, r := Top(cfg) + 1, Ticks(cfg, Down, s, n);
            var x := p - 1 - U(cfg, s.count);
            p > 0 && WithinPeriod(cfg, r)
            && U(cfg, r.count) == p - 1 - (x + n) % p
            && r.overflows == s.overflows + (x + n + 1) / p - (x + 1) / p
  {
    hide OneTick;
    var p := Top(cfg) + 1;
    var x := p - 1 - U(cfg, s.count);
    if n == 0 {
      DivModUnique(x, p, 0, x);
    } else {
      DownClosedForm(cfg, s, n - 1);
      var before := Ticks(cfg, Down, s, n - 1);
      assert 0 <= (x + n - 1) % p < p;
      DownAdvance(cfg, before);
      DownOverflows(x + n, p);
    }
  }

  lemma DownOverflows(y: int, p: int)
    requires p > 0
    ensures y % p == (if (y - 1) % p == p - 1 then 0 else (y - 1) % p + 1)
    ensures (y + 1) / p == y / p + if y % p == p - 1 then 1 else 0
  {
    ModStep(y - 1, p);
    ModStep(y, p);
  }

  /** Where an up/down counter is on its way up and down again. */
  function Phase(cfg: Config, s: Snapshot): int
    requires Valid(cfg)
  {
    if s.down then 2 * Top(cfg) - U(cfg, s.count) else U(cfg, s.count)
  }

  predicate OnTriangle(cfg: Config, s: Snapshot) {
    WithinPeriod(cfg, s) && cfg.value[0] != 0 && (if s.down then s.count != 0 else s.count != cfg.value[0])
  }

  lemma UpDownAdvance(cfg: Config, s: Snapshot)
    requires OnTriangle(cfg, s)
    ensures var p, r := 2 * Top(cfg), OneTick(cfg, UpDown, s);
            OnTriangle(cfg, r) && 0 <= Phase(cfg, s) < p
            && Phase(cfg, r) == (if Phase(cfg, s) == p - 1 then 0 else Phase(cfg, s) + 1)
            && r.overflows == s.overflows + (if Phase(cfg, s) == p - 1 then 1 else 0)
  {
    hide Compared, Scan;
  }

  /** Up/down mode is a triangle wave of period 2 * CC0 with one overflow per period, at 0. */
  lemma {:induction false} UpDownClosedForm(cfg: Config, s: Snapshot, n: nat)
    requires OnTriangle(cfg, s)
    ensures var p, x, r := 2 * Top(cfg), Phase(cfg, s), Ticks(cfg, UpDown, s, n);
            p > 0 && OnTriangle(cfg, r) && Phase(cfg, r) == (x + n) % p
            && U(cfg, r.count) == (if (x + n) % p <= Top(cfg) then (x + n) % p else p - (x + n) % p)
            && r.overflows == s.overflows + (x + n) / p
  {
    hide OneTick;
    var p, x := 2 * Top(cfg), Phase(cfg, s);
    if n == 0 {
      UpDownAdvance(cfg, s);
      DivModUnique(x, p, 0, x);
    } else {
      UpDownClosedForm(cfg, s, n - 1);
      UpDownAdvance(cfg, Ticks(cfg, UpDown, s, n - 1));
      ModStep(x + n - 1, p);
    }
  }

  /** The same for CC0 = 0, where the turning point is reached by wrapping round. */
  function WholePhase(cfg: Config, s: Snapshot): int
    requires Valid(cfg)
  {
    var top := 2 * cfg.half;
    if !s.down then U(cfg, s.count) else if s.count == 0 then top else 2 * top - U(cfg, s.count)
  }

  lemma WholeAdvance(cfg: Config, s: Snapshot)
    requires WithinRange(cfg, s) && cfg.value[0] == 0
    ensures var p, x, r := 4 * cfg.half, WholePhase(cfg, s), OneTick(cfg, UpDown, s);
            WithinRange(cfg, r) && 0 <= x < p && WholePhase(cfg, r) == (if x == p - 1 then 0 else x + 1)
            && r.overflows == s.overflows + (if r.count == 0 then 1 else 0)
            && (r.count == 0 <==> x == p - 1 || x == 2 * cfg.half - 1)
  {
    hide Compared, Scan;
  }

  predicate WithinRange(cfg: Config, s: Snapshot) {
    Valid(cfg) && InRange(cfg, s.count) && |s.pins| == |cfg.value|
  }

  lemma HalfTurns(x: int, t: int)
    requires t > 0 && x >= 0
    ensures (x + 1) / t == x / t + if x % (2 * t) == t - 1 || x % (2 * t) == 2 * t - 1 then 1 else 0
  {
    var q, r := x / (2 * t), x % (2 * t);
    assert x == (2 * t) * q + r && (2 * t) * q == t * (2 * q);
    if r < t {
      DivModUnique(x, t, 2 * q, r);
    } else {
      assert t * (2 * q + 1) == t * (2 * q) + t;
      DivModUnique(x, t, 2 * q + 1, r - t);
    }
    ModStep(x, t);
  }

  /** With CC0 = 0 up/down mode turns where the counter wraps: a triangle wave over the whole range, with an
      overflow at each turn. */
  lemma {:induction false} UpDownAtZeroClosedForm(cfg: Config, s: Snapshot, n: nat)
    requires WithinRange(cfg, s) && cfg.value[0] == 0
    ensures var t, x, r := 2 * cfg.half, WholePhase(cfg, s), Ticks(cfg, UpDown, s, n);
            t > 0 && WithinRange(cfg, r) && WholePhase(cfg, r) == (x + n) % (2 * t) && 0 <= x
            && r.overflows == s.overflows + (x + n) / t - x / t
  {
    hide OneTick, WholePhase;
    var t, x := 2 * cfg.half, WholePhase(cfg, s);
    WholeAdvance(cfg, s);
    if n == 0 {
      DivModUnique(x, 2 * t, 0, x);
    } else {
      UpDownAtZeroClosedForm(cfg, s, n - 1);
      WholeAdvance(cfg, Ticks(cfg, UpDown, s, n - 1));
      ModStep(x + n - 1, 2 * t);
      HalfTurns(x + n - 1, t);
    }
  }

  // ---------- the countdown ----------

  /** Ticks until the countdown next reaches 0. */
  function Fuse(cfg: Config, next: int): int {
    if next > 0 then next else next + 2 * cfg.half
  }

  /** The scan depends on the count and the direction only. */
  lemma {:induction false} ScanIgnores(cfg: Config, mode: Mode, s: Snapshot, t: Snapshot, i: nat)
    requires Valid(cfg) && i <= |cfg.value| && s.count == t.count && s.down == t.down
    ensures Scan(cfg, mode, s, i) == Scan(cfg, mode, t, i)
  {
    if i > 0 {
      ScanIgnores(cfg, mode, s, t, i - 1);
    }
  }

  lemma {:induction false} ScanInRange(cfg: Config, mode: Mode, s: Snapshot, i: nat)
    requires Valid(cfg) && i <= |cfg.value| && InRange(cfg, s.count)
    ensures InRange(cfg, Scan(cfg, mode, s, i))
  {
    if i > 0 {
      ScanInRange(cfg, mode, s, i - 1);
    }
  }

  lemma OutputIgnoresCountdown(cfg: Config, mode: Mode, s: Snapshot, x: int, i: nat)
    requires Valid(cfg) && i < |cfg.value| && |s.pins| == |cfg.value|
    ensures Output(cfg, mode, s.(next := x), i) == Output(cfg, mode, s, i)
  {
  }

  lemma {:induction false} ComparedIgnoresCountdown(cfg: Config, mode: Mode, s: Snapshot, x: int, i: nat)
    requires Valid(cfg) && i <= |cfg.value| && |s.pins| == |cfg.value|
    ensures Compared(cfg, mode, s.(next := x), i) == Compared(cfg, mode, s, i).(next := x)
  {
    if i > 0 {
      ComparedIgnoresCountdown(cfg, mode, s, x, i - 1);
      OutputIgnoresCountdown(cfg, mode, Compared(cfg, mode, s, i - 1), x, i - 1);
      hide Output;
    }
  }

}
