/** The countdown against CaptureCompare on exactly the enabled compare values. */
module TimerCountdown {
  import opened Timer
  import opened TimerLaws

  /** Where a tick moves the counter, without any comparing. */
  function Moved(cfg: Config, mode: Mode, s: Snapshot): Snapshot
    requires Valid(cfg)
  {
    var cc0 := cfg.value[0];
    var c :=
      match mode
      case FreeRunning => Inc(cfg, s.count)
      case Modulo => if s.count == cc0 then 0 else Inc(cfg, s.count)
      case UpDown => if s.down then Dec(cfg, s.count) else Inc(cfg, s.count)
      case Down => if s.count == 0 then cc0 else Dec(cfg, s.count);
    var turned := mode == UpDown && if s.down then c == 0 else c == cc0;
    OverflowAtZero(s.(now := s.now + 1, count := c, down := s.down != turned))
  }

  /** CaptureCompare without the scan. */
  function Shown(cfg: Config, mode: Mode, s: Snapshot): (r: Snapshot)
    requires Valid(cfg) && |s.pins| == |cfg.value|
    ensures |r.pins| == |s.pins|
  {
    Compared(cfg, mode, s.(next := 0, served := s.served + [s.now]), |cfg.value|)
  }

  /** Whether the tick runs CaptureCompare. Where modulo mode reaches 0 the scan has replaced the countdown. */
  predicate Runs(cfg: Config, mode: Mode, s: Snapshot)
    requires Valid(cfg)
  {
    s.next == 1 && !(mode == Modulo && Moved(cfg, mode, s).count == 0)
  }

  /** Whether the mode scans the channels on this tick, compare or not. */
  predicate Rescans(cfg: Config, mode: Mode, s: Snapshot)
    requires Valid(cfg)
  {
    match mode
    case FreeRunning => false
    case Modulo => Moved(cfg, mode, s).count == 0
    case UpDown => Moved(cfg, mode, s).down != s.down
    case Down => s.count == 0
  }

  lemma {:induction false} ScanNotZero(cfg: Config, mode: Mode, s: Snapshot, i: nat)
    requires Valid(cfg) && i <= |cfg.value|
    ensures Scan(cfg, mode, s, i) != 0
  {
    if i > 0 {
      ScanNotZero(cfg, mode, s, i - 1);
    }
  }

  lemma ServeShape(cfg: Config, mode: Mode, u: Snapshot)
    requires Valid(cfg) && |u.pins| == |cfg.value|
    ensures var r := Serve(cfg, mode, u);
            r.(next := 0) == Shown(cfg, mode, u) && r.next == Scan(cfg, mode, u, |cfg.value|)
  {
    hide Output;
    var t := u.(served := u.served + [u.now]);
    var p := Compared(cfg, mode, t, |cfg.value|);
    ComparedIgnoresCountdown(cfg, mode, t, 0, |cfg.value|);
    ScanIgnores(cfg, mode, p, u, |cfg.value|);
  }

  /** What a tick of a mode amounts to. */
  predicate TickShape(cfg: Config, mode: Mode, s: Snapshot)
    requires Valid(cfg) && |s.pins| == |cfg.value|
  {
    var r, u := OneTick(cfg, mode, s), Moved(cfg, mode, s);
    && r.(next := 0) == (if Runs(cfg, mode, s) then Shown(cfg, mode, u) else u.(next := 0))
    && r.next == (if Runs(cfg, mode, s) || Rescans(cfg, mode, s) then Scan(cfg, mode, u, |cfg.value|)
                  else Dec(cfg, s.next))
  }

  lemma ShownIgnores(cfg: Config, mode: Mode, t: Snapshot, u: Snapshot)
    requires Valid(cfg) && |t.pins| == |cfg.value| && t.(next := 0) == u.(next := 0)
    ensures Shown(cfg, mode, t) == Shown(cfg, mode, u)
    ensures Shown(cfg, mode, u).count == u.count && Shown(cfg, mode, u).down == u.down
  {
  }

  lemma OutputIgnoresOverflows(cfg: Config, mode: Mode, s: Snapshot, x: nat, i: nat)
    requires Valid(cfg) && i < |cfg.value| && |s.pins| == |cfg.value|
    ensures Output(cfg, mode, s.(overflows := x), i) == Output(cfg, mode, s, i)
  {
  }

  lemma {:induction false} ComparedIgnoresOverflows(cfg: Config, mode: Mode, s: Snapshot, x: nat, i: nat)
    requires Valid(cfg) && i <= |cfg.value| && |s.pins| == |cfg.value|
    ensures Compared(cfg, mode, s.(overflows := x), i) == Compared(cfg, mode, s, i).(overflows := x)
  {
    if i > 0 {
      ComparedIgnoresOverflows(cfg, mode, s, x, i - 1);
      OutputIgnoresOverflows(cfg, mode, Compared(cfg, mode, s, i - 1), x, i - 1);
      hide Output;
    }
  }

  lemma ShownIgnoresOverflows(cfg: Config, mode: Mode, s: Snapshot, x: nat)
    requires Valid(cfg) && |s.pins| == |cfg.value|
    ensures Shown(cfg, mode, s.(overflows := x)) == Shown(cfg, mode, s).(overflows := x)
  {
    hide Compared;
    ComparedIgnoresOverflows(cfg, mode, s.(next := 0, served := s.served + [s.now]), x, |cfg.value|);
  }

  /** ServeIfDue on the counter after the tick. */
  lemma DueShape(cfg: Config, mode: Mode, t: Snapshot, u: Snapshot)
    requires Valid(cfg) && |u.pins| == |cfg.value| && t.(next := 0) == u.(next := 0)
    ensures var r := ServeIfDue(cfg, mode, t);
            && r.(next := 0) == (if t.next == 0 then Shown(cfg, mode, u) else u.(next := 0))
            && r.next == (if t.next == 0 then Scan(cfg, mode, u, |cfg.value|) else t.next)
  {
    ServeShape(cfg, mode, t);
    ShownIgnores(cfg, mode, t, u);
    ScanIgnores(cfg, mode, t, u, |cfg.value|);
    hide Serve, Shown, Scan;
  }

  lemma FreeRunningShape(cfg: Config, s: Snapshot)
    requires Valid(cfg) && |s.pins| == |cfg.value| && InRange(cfg, s.next)
    ensures TickShape(cfg, FreeRunning, s)
  {
    hide ServeIfDue, Shown, Scan;
    var u := Moved(cfg, FreeRunning, s);
    DueShape(cfg, FreeRunning, u.(next := Dec(cfg, s.next)), u);
  }

  lemma ModuloShape(cfg: Config, s: Snapshot)
    requires Valid(cfg) && |s.pins| == |cfg.value| && InRange(cfg, s.next)
    ensures TickShape(cfg, Modulo, s)
  {
    hide ServeIfDue, Shown, Scan;
    var u := Moved(cfg, Modulo, s);
    var t := u.(next := Dec(cfg, s.next));
    ScanNotZero(cfg, Modulo, u, |cfg.value|);
    ScanIgnores(cfg, Modulo, t, u, |cfg.value|);
    DueShape(cfg, Modulo, if u.count == 0 then Rescan(cfg, Modulo, t) else t, u);
  }

  lemma UpDownShape(cfg: Config, s: Snapshot)
    requires Valid(cfg) && |s.pins| == |cfg.value| && InRange(cfg, s.next)
    ensures TickShape(cfg, UpDown, s)
  {
    hide ServeIfDue, Shown, Scan;
    var u := Moved(cfg, UpDown, s);
    var t := u.(next := Dec(cfg, s.next));
    DueShape(cfg, UpDown, t, u);
    var v := ServeIfDue(cfg, UpDown, t);
    ShownIgnores(cfg, UpDown, t, u);
    ScanIgnores(cfg, UpDown, v, u, |cfg.value|);
  }

  lemma DownShape(cfg: Config, s: Snapshot)
    requires Valid(cfg) && |s.pins| == |cfg.value| && InRange(cfg, s.next)
    ensures TickShape(cfg, Down, s)
  {
    var u := Moved(cfg, Down, s);
    if s.count != 0 {
      hide ServeIfDue, Shown, Scan;
      DueShape(cfg, Down, u.(next := Dec(cfg, s.next)), u);
    } else {
      ReloadShape(cfg, s);
    }
  }

  /** The reload serves or scans before it looks at the overflow. */
  lemma ReloadShape(cfg: Config, s: Snapshot)
    requires Valid(cfg) && |s.pins| == |cfg.value| && InRange(cfg, s.next) && s.count == 0
    ensures TickShape(cfg, Down, s)
  {
    hide Serve, Shown, Scan, Compared;
    var u := Moved(cfg, Down, s);
    var w := s.(now := s.now + 1, next := Dec(cfg, s.next), count := cfg.value[0]);
    assert u == OverflowAtZero(w).(next := s.next);
    ScanNotZero(cfg, Down, w, |cfg.value|);
    ScanIgnores(cfg, Down, w, u, |cfg.value|);
    ServeShape(cfg, Down, w);
    ShownIgnoresOverflows(cfg, Down, w, u.overflows);
    ShownIgnores(cfg, Down, w.(overflows := u.overflows), u);
    ShownIgnores(cfg, Down, w, w);
    var x := if w.next == 0 then Serve(cfg, Down, w) else Rescan(cfg, Down, w);
    assert x.next == Scan(cfg, Down, w, |cfg.value|) && x.count == w.count && x.overflows == w.overflows by {
      ServeKeeps(cfg, Down, w);
    }
    assert OneTick(cfg, Down, s) == OverflowAtZero(x);
  }

  lemma ServeKeeps(cfg: Config, mode: Mode, s: Snapshot)
    requires Valid(cfg) && |s.pins| == |cfg.value|
    ensures var r := Serve(cfg, mode, s); r.count == s.count && r.overflows == s.overflows
  {
  }

  /** One tick of any mode: the counter moves, CaptureCompare runs or not, and the countdown is scanned anew or
      counts down. */
  lemma OneTickShape(cfg: Config, mode: Mode, s: Snapshot)
    requires Valid(cfg) && |s.pins| == |cfg.value| && InRange(cfg, s.next)
    ensures TickShape(cfg, mode, s)
  {
    hide TickShape;
    match mode
    case FreeRunning => FreeRunningShape(cfg, s);
    case Modulo => ModuloShape(cfg, s);
    case UpDown => UpDownShape(cfg, s);
    case Down => DownShape(cfg, s);
  }

  // ---------- CaptureCompare on the compare values ----------

  /** `c` is the compare value of a channel in compare mode. */
  predicate Hit(cfg: Config, c: int)
    requires Valid(cfg)
  {
    exists j :: 0 <= j < |cfg.value| && cfg.compare[j] && cfg.value[j] == c
  }

  /** There is no countdown: CaptureCompare runs, and is recorded in `served`, on exactly the ticks that leave the count
      at an enabled compare value. What it would do on other ticks, at 0 and at CC0, is the subject of TimerEvery. */
  function CompareTick(cfg: Config, mode: Mode, s: Snapshot): (r: Snapshot)
    requires Valid(cfg) && |s.pins| == |cfg.value|
    ensures |r.pins| == |s.pins|
  {
    var u := Moved(cfg, mode, s);
    if Hit(cfg, u.count) then Shown(cfg, mode, u) else u
  }

  function CompareTicks(cfg: Config, mode: Mode, s: Snapshot, n: nat): (r: Snapshot)
    requires Valid(cfg) && |s.pins| == |cfg.value|
    ensures |r.pins| == |s.pins|
  {
    if n == 0 then s.(next := 0) else CompareTick(cfg, mode, CompareTicks(cfg, mode, s, n - 1))
  }

  /** At tick `n` all is as with CompareTick: counter, pins, notices, and the record of the ticks served. */
  ghost predicate AgreesAt(cfg: Config, mode: Mode, s: Snapshot, n: nat)
    requires Valid(cfg) && |s.pins| == |cfg.value|
  {
    Ticks(cfg, mode, s, n).(next := 0) == CompareTicks(cfg, mode, s, n)
  }

  ghost predicate Refines(cfg: Config, mode: Mode, s: Snapshot)
    requires Valid(cfg) && |s.pins| == |cfg.value|
  {
    forall n: nat :: AgreesAt(cfg, mode, s, n)
  }

  /** The tick after `n` runs CaptureCompare exactly if it reaches an enabled compare value. */
  predicate RightAt(cfg: Config, mode: Mode, s: Snapshot, n: nat)
    requires Valid(cfg) && |s.pins| == |cfg.value|
  {
    var r := Ticks(cfg, mode, s, n);
    Runs(cfg, mode, r) <==> Hit(cfg, Moved(cfg, mode, r).count)
  }

  lemma TickKeepsProper(cfg: Config, mode: Mode, r: Snapshot)
    requires Proper(cfg, r)
    ensures Proper(cfg, OneTick(cfg, mode, r))
  {
    OneTickShape(cfg, mode, r);
    ScanInRange(cfg, mode, Moved(cfg, mode, r), |cfg.value|);
    ShownIgnores(cfg, mode, Moved(cfg, mode, r), Moved(cfg, mode, r));
    hide OneTick, Shown, Scan;
  }

  lemma {:induction false} NextInRange(cfg: Config, mode: Mode, s: Snapshot, n: nat)
    requires Proper(cfg, s)
    ensures Proper(cfg, Ticks(cfg, mode, s, n))
  {
    if n > 0 {
      hide OneTick, Shown, Scan;
      NextInRange(cfg, mode, s, n - 1);
      TickKeepsProper(cfg, mode, Ticks(cfg, mode, s, n - 1));
    }
  }

  /** Moving does not depend on the countdown. */
  lemma MovedIgnores(cfg: Config, mode: Mode, s: Snapshot)
    requires Valid(cfg)
    ensures Moved(cfg, mode, s.(next := 0)) == Moved(cfg, mode, s).(next := 0)
  {
  }

  lemma StepAgrees(cfg: Config, mode: Mode, s: Snapshot, n: nat)
    requires Proper(cfg, s) && AgreesAt(cfg, mode, s, n)
    ensures AgreesAt(cfg, mode, s, n + 1) <==> RightAt(cfg, mode, s, n)
  {
    var r := Ticks(cfg, mode, s, n);
    NextInRange(cfg, mode, s, n);
    OneTickShape(cfg, mode, r);
    MovedIgnores(cfg, mode, r);
    var u := Moved(cfg, mode, r);
    ShownIgnores(cfg, mode, u, u.(next := 0));
    ShownServes(cfg, mode, u);
    hide OneTick, Shown, Scan, Moved, Runs, Hit, Rescans;
    assert CompareTicks(cfg, mode, s, n + 1) == CompareTick(cfg, mode, r.(next := 0));
    assert Ticks(cfg, mode, s, n + 1) == OneTick(cfg, mode, r);
  }

  lemma ShownServes(cfg: Config, mode: Mode, u: Snapshot)
    requires Valid(cfg) && |u.pins| == |cfg.value|
    ensures Shown(cfg, mode, u).served == u.served + [u.now] && Shown(cfg, mode, u).next == 0
    ensures Shown(cfg, mode, u) != u.(next := 0)
  {
  }

  lemma {:induction false} AgreesUpTo(cfg: Config, mode: Mode, s: Snapshot, n: nat)
    requires Proper(cfg, s) && forall k: nat :: k < n ==> RightAt(cfg, mode, s, k)
    ensures AgreesAt(cfg, mode, s, n)
  {
    if n > 0 {
      AgreesUpTo(cfg, mode, s, n - 1);
      StepAgrees(cfg, mode, s, n - 1);
      hide AgreesAt, RightAt;
    }
  }

  /** Everything, the record of served ticks included, is as with CompareTick on all ticks if and only if every tick
      runs CaptureCompare exactly when it reaches an enabled compare value. */
  lemma RefinesIff(cfg: Config, mode: Mode, s: Snapshot)
    requires Proper(cfg, s)
    ensures Refines(cfg, mode, s) <==> forall n: nat :: RightAt(cfg, mode, s, n)
  {
    hide AgreesAt, RightAt;
    if Refines(cfg, mode, s) {
      forall n: nat
        ensures RightAt(cfg, mode, s, n)
      {
        assert AgreesAt(cfg, mode, s, n) && AgreesAt(cfg, mode, s, n + 1);
        StepAgrees(cfg, mode, s, n);
      }
    }
    if forall n: nat :: RightAt(cfg, mode, s, n) {
      forall n: nat
        ensures AgreesAt(cfg, mode, s, n)
      {
        AgreesUpTo(cfg, mode, s, n);
      }
    }
  }

  // ---------- what a tick leaves ----------

  lemma TickEffect(cfg: Config, mode: Mode, s: Snapshot)
    requires Proper(cfg, s)
    ensures var r, u, run := OneTick(cfg, mode, s), Moved(cfg, mode, s), Runs(cfg, mode, s);
            && Proper(cfg, r) && r.count == u.count && r.down == u.down && r.now == s.now + 1
            && r.served == (if run then s.served + [r.now] else s.served)
            && r.next == (if run || Rescans(cfg, mode, s) then Scan(cfg, mode, r, |cfg.value|) else Dec(cfg, s.next))
  {
    var r, u := OneTick(cfg, mode, s), Moved(cfg, mode, s);
    OneTickShape(cfg, mode, s);
    ScanInRange(cfg, mode, u, |cfg.value|);
    ShownServes(cfg, mode, u);
    ShownIgnores(cfg, mode, u, u);
    hide OneTick, Shown, Scan;
    assert r.count == u.count && r.down == u.down;
    assert r.served == if Runs(cfg, mode, s) then u.served + [u.now] else u.served;
    ScanIgnores(cfg, mode, r, u, |cfg.value|);
  }

  lemma FuseBurns(cfg: Config, next: int)
    requires Valid(cfg) && InRange(cfg, next)
    ensures 1 <= Fuse(cfg, next) <= 2 * cfg.half && (next == 1 <==> Fuse(cfg, next) == 1)
    ensures Fuse(cfg, next) >= 2 ==> Fuse(cfg, Dec(cfg, next)) == Fuse(cfg, next) - 1
  {
  }

  /** The countdown a scan leaves, in ticks. */
  function Fresh(cfg: Config, mode: Mode, s: Snapshot): int
    requires Valid(cfg)
  {
    Fuse(cfg, Scan(cfg, mode, s, |cfg.value|))
  }

  /** Channels out of compare mode leave the scan alone. */
  lemma {:induction false} ScanSkips(cfg: Config, mode: Mode, s: Snapshot, a: nat, b: nat)
    requires Valid(cfg) && a <= b <= |cfg.value| && forall j :: a <= j < b ==> !cfg.compare[j]
    ensures Scan(cfg, mode, s, b) == Scan(cfg, mode, s, a)
  {
    if a < b {
      ScanSkips(cfg, mode, s, a, b - 1);
    }
  }

  /** `served` is the list of the ticks that ran CaptureCompare. */
  lemma {:induction false} ServedIff(cfg: Config, mode: Mode, s: Snapshot, n: nat, k: nat)
    requires Proper(cfg, s) && 1 <= k <= n && forall t :: t in s.served ==> t <= s.now
    ensures s.now + k in Ticks(cfg, mode, s, n).served <==> Runs(cfg, mode, Ticks(cfg, mode, s, k - 1))
  {
    hide OneTick, Scan, Runs, Valid;
    assert Valid(cfg);
    var r := Ticks(cfg, mode, s, n - 1);
    NextInRange(cfg, mode, s, n - 1);
    TickEffect(cfg, mode, r);
    assert Ticks(cfg, mode, s, n) == OneTick(cfg, mode, r);
    if k < n {
      ServedIff(cfg, mode, s, n - 1, k);
    } else {
      ServedInThePast(cfg, mode, s, n - 1);
    }
  }

  /** Tick `t` is served if it reaches an enabled value. */
  predicate ServedIfHit(cfg: Config, mode: Mode, s: Snapshot, t: nat)
    requires Valid(cfg) && |s.pins| == |cfg.value|
  {
    var r := Ticks(cfg, mode, s, t);
    Hit(cfg, r.count) ==> s.now + t in r.served
  }

  lemma {:induction false} ServedInThePast(cfg: Config, mode: Mode, s: Snapshot, n: nat)
    requires Proper(cfg, s) && forall t :: t in s.served ==> t <= s.now
    ensures forall t :: t in Ticks(cfg, mode, s, n).served ==> t <= s.now + n
  {
    if n > 0 {
      ServedInThePast(cfg, mode, s, n - 1);
      NextInRange(cfg, mode, s, n - 1);
      TickEffect(cfg, mode, Ticks(cfg, mode, s, n - 1));
      hide OneTick, Scan, Runs;
    }
  }
}
