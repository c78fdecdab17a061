/** Free-running, down and up/down mode against comparing on every tick, by the registers. */
module TimerAlike {
  import Arith
  import opened Timer
  import opened TimerLaws
  import opened TimerCountdown
  import opened TimerEvery
  import Turns = TimerTurns
  import Falls = TimerDown
  import Waves = TimerUpDown

  ghost predicate AlwaysAlike(cfg: Config, mode: Mode, s: Snapshot)
    requires Valid(cfg) && |s.pins| == |cfg.value|
  {
    forall n: nat :: LooksAlike(cfg, mode, s, n)
  }

  ghost predicate AlwaysDone(cfg: Config, mode: Mode, s: Snapshot)
    requires Valid(cfg) && |s.pins| == |cfg.value|
  {
    forall k: nat :: WorkDoneAt(cfg, mode, s, k)
  }

  /** In any mode: the two look alike for good if and only if work is never left undone. */
  lemma AlwaysAlikeIff(cfg: Config, mode: Mode, s: Snapshot)
    requires Proper(cfg, s) && Loud(cfg) && NothingTold(s)
    ensures AlwaysAlike(cfg, mode, s) <==> AlwaysDone(cfg, mode, s)
  {
    hide LooksAlike, WorkDoneAt, Loud;
    if AlwaysAlike(cfg, mode, s) {
      forall k: nat
        ensures WorkDoneAt(cfg, mode, s, k)
      {
        assert LooksAlike(cfg, mode, s, k + 1);
        LooksAlikeIffWorkDone(cfg, mode, s, k + 1);
      }
    }
    if AlwaysDone(cfg, mode, s) {
      forall n: nat
        ensures LooksAlike(cfg, mode, s, n)
      {
        LooksAlikeIffWorkDone(cfg, mode, s, n);
      }
    }
  }

  /** The work of the enabled channels: at their values, at CC0 and at 0. */
  lemma WorkIff(cfg: Config, c: int)
    requires Valid(cfg)
    ensures WorkAt(cfg, c) <==>
            Hit(cfg, c) || ((c == 0 || c == cfg.value[0]) && exists j :: 0 <= j < |cfg.value| && cfg.compare[j])
  {
    if Hit(cfg, c) {
      var j :| 0 <= j < |cfg.value| && cfg.compare[j] && cfg.value[j] == c;
      assert Acts(cfg, c, j);
    }
    if (c == 0 || c == cfg.value[0]) && exists j :: 0 <= j < |cfg.value| && cfg.compare[j] {
      var j :| 0 <= j < |cfg.value| && cfg.compare[j];
      assert Acts(cfg, c, j);
    }
  }

  // ---------- free-running mode ----------

  /** All enabled values, 0 and CC0 are at positions of the schedule. */
  predicate AllWorkScheduled(cfg: Config, i: nat)
    requires Valid(cfg) && i < |cfg.value|
  {
    && Turns.NothingHidden(cfg, i)
    && Turns.Woken(cfg, i, Turns.Position(cfg, i, 0))
    && Turns.Woken(cfg, i, Turns.Position(cfg, i, cfg.value[0]))
  }

  lemma FreeDoneIff(cfg: Config, i: nat, s: Snapshot, k: nat)
    requires Turns.OnTurn(cfg, i, s)
    ensures Valid(cfg) && |s.pins| == |cfg.value|
    ensures var c := Ticks(cfg, FreeRunning, s, k + 1).count;
            WorkDoneAt(cfg, FreeRunning, s, k) <==> (WorkAt(cfg, c) ==> Turns.Woken(cfg, i, Turns.Position(cfg, i, c)))
  {
    Turns.TurnRun(cfg, i, s, k);
    Turns.TurnTick(cfg, i, Ticks(cfg, FreeRunning, s, k));
    hide OneTick, Turns.OnTurn, Runs, Turns.Woken, WorkAt;
  }

  /** Work at a count is never left undone exactly if the count is at a position of the schedule. */
  lemma FreeDoneAtIff(cfg: Config, i: nat, s: Snapshot, c: int)
    requires Turns.OnTurn(cfg, i, s) && InRange(cfg, c) && WorkAt(cfg, c) && AlwaysDone(cfg, FreeRunning, s)
    ensures Turns.Woken(cfg, i, Turns.Position(cfg, i, c))
  {
    assert Proper(cfg, s);
    hide OneTick, Turns.OnTurn, Runs, Turns.Woken, WorkAt, WorkDoneAt;
    var t := Turns.CountAfter(cfg, s, c);
    assert WorkDoneAt(cfg, FreeRunning, s, t - 1);
    FreeDoneIff(cfg, i, s, t - 1);
  }

  /**
   * Free-running mode, any number of channels with partners, from a scan at a position of the schedule: counter,
   * pins and notices are those of comparing on every tick for good if and only if every enabled value, 0 and
   * CC0 are at positions of the schedule.
   */
  lemma FreeLooksAlikeIff(cfg: Config, i: nat, s: Snapshot)
    requires Turns.Leads(cfg, i) && Proper(cfg, s) && Loud(cfg) && NothingTold(s)
    requires s.next == Scan(cfg, FreeRunning, s, |cfg.value|) && Turns.Woken(cfg, i, Turns.Position(cfg, i, s.count))
    ensures AlwaysAlike(cfg, FreeRunning, s) <==> AllWorkScheduled(cfg, i)
  {
    Turns.ScannedOnTurn(cfg, i, s);
    AlwaysAlikeIff(cfg, FreeRunning, s);
    hide OneTick, Scan, Turns.OnTurn, Turns.Woken, Turns.Position, AlwaysAlike, Loud, Ticks, WorkDoneAt, WorkAt;
    if AllWorkScheduled(cfg, i) {
      forall k: nat
        ensures WorkDoneAt(cfg, FreeRunning, s, k)
      {
        FreeDoneIff(cfg, i, s, k);
        WorkIff(cfg, Ticks(cfg, FreeRunning, s, k + 1).count);
      }
    }
    if AlwaysDone(cfg, FreeRunning, s) {
      WorkIff(cfg, 0);
      WorkIff(cfg, cfg.value[0]);
      FreeDoneAtIff(cfg, i, s, 0);
      FreeDoneAtIff(cfg, i, s, cfg.value[0]);
      forall j | 0 <= j < |cfg.value| && cfg.compare[j]
        ensures Turns.Woken(cfg, i, Turns.Position(cfg, i, cfg.value[j]))
      {
        WorkIff(cfg, cfg.value[j]);
        FreeDoneAtIff(cfg, i, s, cfg.value[j]);
      }
    }
  }

  /** Only channel 0 is in compare mode. */
  predicate OnlyFirst(cfg: Config) {
    Valid(cfg) && cfg.compare[0] && forall j :: 1 <= j < |cfg.value| ==> !cfg.compare[j]
  }

  /** With channel 0 alone CaptureCompare runs at its value and one tick before. */
  lemma OnlyFirstSchedule(cfg: Config, c: int)
    requires OnlyFirst(cfg) && InRange(cfg, c)
    ensures Turns.Leads(cfg, 0)
    ensures Turns.Woken(cfg, 0, Turns.Position(cfg, 0, c)) <==> c == cfg.value[0] || Inc(cfg, c) == cfg.value[0]
  {
    Turns.PositionMoves(cfg, 0, c);
    var d := Turns.Decider(cfg, cfg.value[0], 0);
    assert d == cfg.full;
  }

  /** Channel 0 alone: alike for good if and only if CC0 is 0 or 1. */
  lemma OnlyFirstAlikeIff(cfg: Config, s: Snapshot)
    requires OnlyFirst(cfg) && Proper(cfg, s) && NothingTold(s)
    requires s.next == Scan(cfg, FreeRunning, s, |cfg.value|) && s.count == cfg.value[0]
    ensures AlwaysAlike(cfg, FreeRunning, s) <==> cfg.value[0] == 0 || cfg.value[0] == 1
  {
    OnlyFirstSchedule(cfg, cfg.value[0]);
    OnlyFirstSchedule(cfg, 0);
    FreeLooksAlikeIff(cfg, 0, s);
    hide Scan, AlwaysAlike, Turns.Woken, Turns.Position;
  }

  // ---------- down mode ----------

  lemma LoudTwo(cfg: Config)
    requires Falls.TwoChannels(cfg)
    ensures Loud(cfg)
  {
  }

  predicate SomeOn(cfg: Config)
    requires Falls.TwoChannels(cfg)
  {
    cfg.compare[0] || cfg.compare[1]
  }

  lemma WorkTwo(cfg: Config, c: int)
    requires Falls.TwoChannels(cfg)
    ensures WorkAt(cfg, c) <==> ((c == 0 || c == cfg.value[0]) && SomeOn(cfg)) || (cfg.compare[1] && c == cfg.value[1])
  {
    WorkIff(cfg, c);
    Falls.HitTwo(cfg, c);
    hide Hit, WorkAt;
    assert cfg.compare[0] || cfg.compare[1] ==> exists j :: 0 <= j < |cfg.value| && cfg.compare[j];
  }

  /** The settings in which the countdown happens to run out both at the reload and at 0: CC0 is the largest count
      and channel 1's value is CC0, is 0 with channel 0 on too, or is off; or CC0 is 0 and channel 1's the largest. */
  predicate DownWorkDone(cfg: Config)
    requires Falls.TwoChannels(cfg)
  {
    var top, last := Top(cfg), 2 * cfg.half - 1;
    SomeOn(cfg) ==>
      if Falls.Below(cfg) then cfg.compare[0] && top == last && cfg.value[1] == 0
      else if Falls.Above(cfg) then top == 0 && cfg.value[1] == -1
      else top == last
  }

  lemma DownDoneIff(cfg: Config, s: Snapshot, n: nat)
    requires Falls.Due(cfg, s)
    ensures var q, r := Ticks(cfg, Down, s, n), Ticks(cfg, Down, s, n + 1);
            && Falls.Due(cfg, q) && r.count == (if q.count == 0 then cfg.value[0] else Dec(cfg, q.count))
            && InRange(cfg, q.count) && U(cfg, q.count) <= Top(cfg)
            && (WorkDoneAt(cfg, Down, s, n) <==> (WorkAt(cfg, r.count) ==> Falls.Served(cfg, q.count, r.count)))
  {
    Falls.DueRun(cfg, s, n);
    Falls.DueTick(cfg, Ticks(cfg, Down, s, n));
    hide OneTick, Runs, Scan, Falls.Served, WorkAt, Falls.Expected;
  }

  lemma DownWorkIsDone(cfg: Config, s: Snapshot, n: nat)
    requires Falls.Due(cfg, s) && DownWorkDone(cfg)
    ensures WorkDoneAt(cfg, Down, s, n)
  {
    DownDoneIff(cfg, s, n);
    var q, r := Ticks(cfg, Down, s, n), Ticks(cfg, Down, s, n + 1);
    WorkTwo(cfg, r.count);
    Falls.SubDown(cfg, r.count, cfg.value[0]);
    hide Ticks, WorkDoneAt, Falls.ReloadServed, WorkAt, Sub;
  }

  /** The tick that arrives at `c`, counting down or by the reload, in the first period. */
  lemma DownWorkAt(cfg: Config, s: Snapshot, c: int, n: nat)
    requires Falls.Due(cfg, s) && AlwaysDone(cfg, Down, s) && WorkAt(cfg, c)
    requires Ticks(cfg, Down, s, n + 1).count == c
    ensures Falls.Served(cfg, Ticks(cfg, Down, s, n).count, c)
  {
    assert Valid(cfg) && |s.pins| == |cfg.value|;
    hide Ticks, WorkAt, Falls.Due, Falls.Served, WorkDoneAt, AlwaysDone;
    DoneNow(cfg, Down, s, n);
    DownDoneIff(cfg, s, n);
  }

  /** The period ends with the count at 0, and one tick later the reload. */
  lemma DownArrives(cfg: Config, s: Snapshot)
    requires Falls.Due(cfg, s) && s.count == cfg.value[0]
    ensures var top := Top(cfg);
            && top >= 0 && Ticks(cfg, Down, s, top).count == 0 && Ticks(cfg, Down, s, top + 1).count == cfg.value[0]
            && (top > 0 ==> Ticks(cfg, Down, s, top - 1).count == 1)
  {
    hide Ticks, Falls.Expected, Fuse, WorkDoneAt, WorkAt, Falls.Served;
    var top := Top(cfg);
    DownClosedForm(cfg, s, top);
    Arith.DivModUnique(top, top + 1, 0, top);
    DownDoneIff(cfg, s, top);
    if top > 0 {
      DownClosedForm(cfg, s, top - 1);
      Arith.DivModUnique(top - 1, top + 1, 0, top - 1);
    }
  }

  lemma DownWorkMustBeDone(cfg: Config, s: Snapshot)
    requires Falls.Due(cfg, s) && s.count == cfg.value[0] && AlwaysDone(cfg, Down, s)
    ensures DownWorkDone(cfg)
  {
    assert Falls.TwoChannels(cfg) && InRange(cfg, cfg.value[1]) && InRange(cfg, cfg.value[0]);
    assert |s.pins| == |cfg.value|;
    hide Ticks, WorkAt, Falls.Due, AlwaysDone;
    if SomeOn(cfg) {
      DownArrives(cfg, s);
      WorkTwo(cfg, cfg.value[0]);
      DownWorkAt(cfg, s, cfg.value[0], Top(cfg));
      if Top(cfg) > 0 {
        WorkTwo(cfg, 0);
        DownWorkAt(cfg, s, 0, Top(cfg) - 1);
      }
    }
  }

  /** Down mode, two channels, from a reload, for all register values: alike for good if and only if no channel is
      in compare mode or the countdown happens to run out at the reload and at 0. */
  lemma DownLooksAlikeIff(cfg: Config, s: Snapshot)
    requires Falls.TwoChannels(cfg) && WithinPeriod(cfg, s) && NothingTold(s)
    requires s.count == cfg.value[0] && s.next == Scan(cfg, Down, s, 2)
    ensures AlwaysAlike(cfg, Down, s) <==> DownWorkDone(cfg)
  {
    hide OneTick, Scan, WorkDoneAt, AlwaysAlike, DownWorkDone;
    Falls.ScannedIsDue(cfg, s);
    LoudTwo(cfg);
    ScanInRange(cfg, Down, s, 2);
    AlwaysAlikeIff(cfg, Down, s);
    if DownWorkDone(cfg) {
      forall n: nat
        ensures WorkDoneAt(cfg, Down, s, n)
      {
        DownWorkIsDone(cfg, s, n);
      }
    }
    if AlwaysDone(cfg, Down, s) {
      DownWorkMustBeDone(cfg, s);
    }
  }

  // ---------- up/down mode ----------

  /** The settings in which the countdown happens to run out at both ends: CC0 is the largest count and channel 1
      is off or at an end, or channel 0 is on and channel 1 on at 0. */
  predicate WaveWorkDone(cfg: Config)
    requires Falls.TwoChannels(cfg)
  {
    SomeOn(cfg) ==>
      if Top(cfg) == Waves.Last(cfg) then !cfg.compare[1] || cfg.value[1] == 0 || cfg.value[1] == cfg.value[0]
      else cfg.compare[0] && cfg.compare[1] && cfg.value[1] == 0
  }

  lemma WaveDoneIff(cfg: Config, s: Snapshot, n: nat)
    requires Waves.OnCourse(cfg, s)
    ensures var q := Ticks(cfg, UpDown, s, n); var after := Moved(cfg, UpDown, q).count;
            && Waves.OnCourse(cfg, q)
            && (WorkDoneAt(cfg, UpDown, s, n) <==> (WorkAt(cfg, after) ==> Waves.ServedAt(cfg, q.down, after)))
            && InRange(cfg, after) && U(cfg, after) <= Top(cfg)
            && (if q.down then after != cfg.value[0] else after != 0)
  {
    Waves.RightIff(cfg, s, n);
    Waves.CourseTick(cfg, Ticks(cfg, UpDown, s, n));
    hide OneTick, Scan, Waves.ServedAt, WorkAt, Runs, Waves.OnCourse, RightAt;
  }

  lemma WaveWorkIsDone(cfg: Config, s: Snapshot, n: nat)
    requires Waves.OnCourse(cfg, s) && WaveWorkDone(cfg)
    ensures WorkDoneAt(cfg, UpDown, s, n)
  {
    WaveDoneIff(cfg, s, n);
    var q := Ticks(cfg, UpDown, s, n);
    var after := Moved(cfg, UpDown, q).count;
    WorkTwo(cfg, after);
    assert InRange(cfg, cfg.value[0]) && InRange(cfg, cfg.value[1]);
    assert cfg.value[0] != 0;
    hide Ticks, Moved, WorkDoneAt, WorkAt, Waves.OnCourse, Waves.HiddenUp;
  }

  lemma WaveWorkAt(cfg: Config, s: Snapshot, x: int, down: bool)
    requires Waves.OnCourse(cfg, s) && s.count == 0 && !s.down && AlwaysDone(cfg, UpDown, s) && InRange(cfg, x)
    requires if down then 0 <= U(cfg, x) < Top(cfg) else 0 < U(cfg, x) <= Top(cfg)
    requires WorkAt(cfg, x)
    ensures Waves.ServedAt(cfg, down, x)
  {
    assert Valid(cfg) && |s.pins| == |cfg.value|;
    hide *;
    var n := Waves.Arrives(cfg, s, U(cfg, x), down);
    WaveDoneIff(cfg, s, n);
    DoneNow(cfg, UpDown, s, n);
    SameCount(cfg, x, Moved(cfg, UpDown, Ticks(cfg, UpDown, s, n)).count);
  }

  lemma SameCount(cfg: Config, x: int, y: int)
    requires InRange(cfg, x) && InRange(cfg, y) && U(cfg, x) == U(cfg, y)
    ensures x == y
  {
  }

  lemma DoneNow(cfg: Config, mode: Mode, s: Snapshot, n: nat)
    requires Valid(cfg) && |s.pins| == |cfg.value| && AlwaysDone(cfg, mode, s)
    ensures WorkDoneAt(cfg, mode, s, n)
  {
    hide WorkDoneAt;
  }

  lemma WaveWorkMustBeDone(cfg: Config, s: Snapshot)
    requires Waves.OnCourse(cfg, s) && s.count == 0 && !s.down && AlwaysDone(cfg, UpDown, s)
    ensures WaveWorkDone(cfg)
  {
    assert InRange(cfg, cfg.value[0]) && InRange(cfg, cfg.value[1]) && cfg.value[0] != 0;
    assert 0 < Top(cfg);
    hide Ticks, AlwaysDone, WorkAt, Waves.OnCourse, Waves.HiddenUp;
    if SomeOn(cfg) {
      WorkTwo(cfg, 0);
      WorkTwo(cfg, cfg.value[0]);
      WaveWorkAt(cfg, s, 0, true);
      WaveWorkAt(cfg, s, cfg.value[0], false);
    }
  }

  /** Up/down mode, two channels, from a scan at 0 on the way up, for all register values with CC0 not 0: alike for
      good if and only if no channel is in compare mode or the countdown runs out wherever there is work. */
  lemma UpDownLooksAlikeIff(cfg: Config, s: Snapshot)
    requires Falls.TwoChannels(cfg) && OnTriangle(cfg, s) && NothingTold(s)
    requires s.count == 0 && !s.down && s.next == Scan(cfg, UpDown, s, 2)
    ensures AlwaysAlike(cfg, UpDown, s) <==> WaveWorkDone(cfg)
  {
    hide OneTick, Scan, WorkDoneAt, AlwaysAlike, WaveWorkDone;
    Waves.ScannedUp(cfg, s);
    LoudTwo(cfg);
    ScanInRange(cfg, UpDown, s, 2);
    AlwaysAlikeIff(cfg, UpDown, s);
    if WaveWorkDone(cfg) {
      forall n: nat
        ensures WorkDoneAt(cfg, UpDown, s, n)
      {
        WaveWorkIsDone(cfg, s, n);
      }
    }
    if AlwaysDone(cfg, UpDown, s) {
      WaveWorkMustBeDone(cfg, s);
    }
  }
}
