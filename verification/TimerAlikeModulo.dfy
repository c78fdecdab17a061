/** Modulo mode against comparing on every tick: alike up to CC0 where CC0 is in sight, and never after it. */
module TimerAlikeModulo {
  import opened Arith
  import opened Timer
  import opened TimerLaws
  import opened TimerCountdown
  import opened TimerModulo
  import opened TimerEvery

  // ---------- the work at 0 is never done ----------

  /** The tick that leaves CC0 reaches 0 and does not run CaptureCompare. */
  lemma NotRunAtZero(cfg: Config, s: Snapshot)
    requires WithinPeriod(cfg, s) && InRange(cfg, s.next)
    ensures var k := Top(cfg) - U(cfg, s.count);
            && k >= 0 && Ticks(cfg, Modulo, s, k + 1).count == 0 && !Runs(cfg, Modulo, Ticks(cfg, Modulo, s, k))
  {
    hide OneTick, Moved, Runs, U, InRange, Top;
    CountBelowTop(cfg, s);
    ReachesTop(cfg, s);
    LeavesTop(cfg, Ticks(cfg, Modulo, s, Top(cfg) - U(cfg, s.count)));
  }

  /**
   * Modulo mode, any registers: as soon as one of the first three channels is in compare mode, its work at 0
   * is not done, and the countdown differs from comparing on every tick from the first tick after CC0 on.
   */
  lemma ModuloPartsAfterTop(cfg: Config, s: Snapshot, j: nat, n: nat)
    requires WithinPeriod(cfg, s) && InRange(cfg, s.next) && NothingTold(s)
    requires j < 3 && j < |cfg.value| && cfg.compare[j] && n > Top(cfg) - U(cfg, s.count)
    ensures !LooksAlike(cfg, Modulo, s, n)
  {
    hide Ticks, EveryTicks, Runs, U, Top, InRange, LooksAlike;
    NotRunAtZero(cfg, s);
    assert Proper(cfg, s);
    PartsForGood(cfg, Modulo, s, n, Top(cfg) - U(cfg, s.count), j);
  }

  // ---------- up to CC0 ----------

  /** The first period's test on the registers: CC0 is less than half a turn ahead, or no other enabled value lies
      before it, or it is the largest count, scanned at 0, and the channel that decides the scan hides none. */
  predicate InSight(cfg: Config, c: int)
    requires Valid(cfg)
  {
    || Top(cfg) - c < cfg.half
    || NoneBetween(cfg, c, Top(cfg))
    || (c == 0 && cfg.value[0] == -1
        && exists k :: 0 <= k < cfg.full && First(cfg, k) && NoneBetween(cfg, 0, U(cfg, cfg.value[k]))
                       && (cfg.value[k] < 0 || NoneBetween(cfg, U(cfg, cfg.value[k]), Top(cfg))))
  }

  /** Every scan from count `c` up to CC0 finds the next compare value. */
  predicate RightToTop(cfg: Config, c: int)
    requires Valid(cfg)
  {
    RightFrom(cfg, c)
    && forall j :: 0 <= j < |cfg.value| && cfg.compare[j] && c < U(cfg, cfg.value[j]) < Top(cfg) ==>
       RightFrom(cfg, U(cfg, cfg.value[j]))
  }

  lemma InSightIsRight(cfg: Config, c: int)
    requires Valid(cfg) && cfg.compare[0] && 0 <= c <= Top(cfg) && InSight(cfg, c)
    ensures RightToTop(cfg, c)
  {
    if !NoneBetween(cfg, c, Top(cfg)) && Top(cfg) - c >= cfg.half {
      var k :| 0 <= k < cfg.full && First(cfg, k) && NoneBetween(cfg, 0, U(cfg, cfg.value[k]))
               && (cfg.value[k] < 0 || NoneBetween(cfg, U(cfg, cfg.value[k]), Top(cfg)));
      assert RightFrom(cfg, 0);
      forall j | 0 <= j < |cfg.value| && cfg.compare[j] && 0 < U(cfg, cfg.value[j]) < Top(cfg)
        ensures RightFrom(cfg, U(cfg, cfg.value[j]))
      {
        if cfg.value[k] > 0 {
          assert NoneBetween(cfg, U(cfg, cfg.value[j]), Top(cfg));
        }
      }
    }
  }

  lemma RightIsInSight(cfg: Config, c: int)
    requires Valid(cfg) && cfg.compare[0] && 0 <= c <= Top(cfg) && RightToTop(cfg, c)
    ensures InSight(cfg, c)
  {
    if !NoneBetween(cfg, c, Top(cfg)) && Top(cfg) - c >= cfg.half {
      var k :| 0 <= k < cfg.full && First(cfg, k) && (cfg.value[k] > 0 || NoneBetween(cfg, 0, U(cfg, cfg.value[k])));
      if cfg.value[k] > 0 {
        var v := U(cfg, cfg.value[k]);
        assert RightFrom(cfg, v) && NoneBetween(cfg, v, Top(cfg));
        forall j | 0 <= j < |cfg.value| && cfg.compare[j]
          ensures !(0 < U(cfg, cfg.value[j]) < v)
        {
          assert 0 < U(cfg, cfg.value[j]) < v ==> RightFrom(cfg, U(cfg, cfg.value[j]));
        }
      }
    }
  }

  /** Away from 0 there is work exactly at the enabled values. */
  lemma WorkIsHit(cfg: Config, c: int)
    requires Valid(cfg) && cfg.compare[0] && c != 0
    ensures WorkAt(cfg, c) <==> Hit(cfg, c)
  {
    if Hit(cfg, c) {
      var j :| 0 <= j < |cfg.value| && cfg.compare[j] && cfg.value[j] == c;
      assert Acts(cfg, c, j);
    }
    if WorkAt(cfg, c) {
      var j :| 0 <= j < |cfg.value| && Acts(cfg, c, j);
      assert cfg.value[0] == c || cfg.value[j] == c;
    }
  }

  /** One tick below CC0. */
  lemma TickBelowTop(cfg: Config, r: Snapshot)
    requires WithinPeriod(cfg, r) && InRange(cfg, r.next) && r.count != cfg.value[0]
    ensures var t := OneTick(cfg, Modulo, r);
            && WithinPeriod(cfg, t) && InRange(cfg, t.next) && t.count != 0
            && U(cfg, t.count) == U(cfg, r.count) + 1 <= Top(cfg)
            && (Runs(cfg, Modulo, r) <==> Fuse(cfg, r.next) == 1)
            && (if Runs(cfg, Modulo, r) then t.next == Scan(cfg, Modulo, t, |cfg.value|)
                else Fuse(cfg, t.next) == Fuse(cfg, r.next) - 1)
            && (Hit(cfg, t.count) <==> HitU(cfg, U(cfg, t.count)))
  {
    hide OneTick, Scan, Moved, Fuse, Hit, HitU;
    TickEffect(cfg, Modulo, r);
    ModuloMoves(cfg, r);
    FuseBurns(cfg, r.next);
    HitIsHitU(cfg, Moved(cfg, Modulo, r).count);
  }

  /** A right countdown stays right up to CC0 and does the work on the way. */
  lemma {:induction false} RightUpToTop(cfg: Config, s: Snapshot, n: nat)
    requires Due(cfg, s) && cfg.compare[0] && RightToTop(cfg, U(cfg, s.count)) && U(cfg, s.count) + n <= Top(cfg)
    ensures var r := Ticks(cfg, Modulo, s, n); Due(cfg, r) && U(cfg, r.count) == U(cfg, s.count) + n
    ensures n >= 1 ==> WorkDoneAt(cfg, Modulo, s, n - 1)
  {
    assert Valid(cfg) && |s.pins| == |cfg.value|;
    hide OneTick, Due, Runs, WorkAt, RightFrom, InRange, Valid;
    if n > 0 {
      RightUpToTop(cfg, s, n - 1);
      var q := Ticks(cfg, Modulo, s, n - 1);
      RightTick(cfg, q, U(cfg, s.count));
    }
  }

  lemma HitRight(cfg: Config, c: int, x: int)
    requires Valid(cfg) && RightToTop(cfg, c) && c < x && HitU(cfg, x)
    ensures RightFrom(cfg, x)
  {
    hide RightFrom;
    if x >= Top(cfg) {
      AtTop(cfg, x);
    }
  }

  lemma RightTick(cfg: Config, q: Snapshot, c: int)
    requires Due(cfg, q) && cfg.compare[0] && RightToTop(cfg, c) && c <= U(cfg, q.count) < Top(cfg)
    ensures var r := OneTick(cfg, Modulo, q);
            && Due(cfg, r) && U(cfg, r.count) == U(cfg, q.count) + 1 && (WorkAt(cfg, r.count) ==> Runs(cfg, Modulo, q))
  {
    assert WithinPeriod(cfg, q) && InRange(cfg, q.next) && q.count != cfg.value[0];
    var r := OneTick(cfg, Modulo, q);
    TickBelowTop(cfg, q);
    WorkIsHit(cfg, r.count);
    hide OneTick, Scan, Runs, Fuse, WorkAt, Hit, WithinPeriod, RightFrom, Moved;
    var d, x := Fuse(cfg, q.next), U(cfg, r.count);
    assert Ahead(cfg, U(cfg, q.count), d);
    if d == 1 {
      HitRight(cfg, c, x);
      ScannedIsDue(cfg, r);
    } else {
      assert !HitU(cfg, x);
      assert Ahead(cfg, x, d - 1);
    }
  }

  /** A scan lands on an enabled value, the next one or a later one. */
  lemma ScanLands(cfg: Config, s: Snapshot)
    requires WithinPeriod(cfg, s) && cfg.compare[0] && s.count != cfg.value[0]
    ensures var d := U(cfg, s.count) + Fresh(cfg, Modulo, s); d <= Top(cfg) && HitU(cfg, d)
  {
    var c, n := U(cfg, s.count), |cfg.value|;
    assert U(cfg, cfg.value[0]) == Top(cfg);
    assert HitU(cfg, Top(cfg));
    if Top(cfg) - c < cfg.half {
      ScanNear(cfg, s, n);
    } else if Top(cfg) - c < 2 * cfg.half - 1 {
      ScanFar(cfg, s, n);
    } else {
      FindFirst(cfg, n);
      if OnlyEnds(cfg, n) {
        ScanUnset(cfg, s, n);
      } else {
        var k :| 0 <= k < n && First(cfg, k);
        ScanDecided(cfg, s, k, n);
        assert cfg.value[k] < 0 ==> HitU(cfg, U(cfg, cfg.value[k]));
        assert cfg.value[k] > 0 ==>
                 exists j :: 0 <= j < n && cfg.compare[j] && U(cfg, cfg.value[j]) == Scan(cfg, Modulo, s, n);
      }
    }
  }

  /** If all work up to CC0 is done, the scan the run starts with found the next compare value. */
  lemma DoneWasRight(cfg: Config, s: Snapshot)
    requires WithinPeriod(cfg, s) && cfg.compare[0]
    requires s.count != cfg.value[0] && s.next == Scan(cfg, Modulo, s, |cfg.value|)
    requires forall k: nat :: k < Top(cfg) - U(cfg, s.count) ==> WorkDoneAt(cfg, Modulo, s, k)
    ensures RightFrom(cfg, U(cfg, s.count))
  {
    var c, f := U(cfg, s.count), Fuse(cfg, s.next);
    ScanInRange(cfg, Modulo, s, |cfg.value|);
    FuseBurns(cfg, s.next);
    FreshIsAheadIff(cfg, s);
    ScanLands(cfg, s);
    CountBelowTop(cfg, s);
    var t := NextHit(cfg, c, 1);
    hide Scan, RightFrom, Ticks;
    if f > t {
      MissedHit(cfg, s, t);
    }
  }

  lemma MissedHit(cfg: Config, s: Snapshot, t: nat)
    requires WithinPeriod(cfg, s) && cfg.compare[0] && InRange(cfg, s.next) && Ahead(cfg, U(cfg, s.count), t)
    requires Fuse(cfg, s.next) > t
    ensures !WorkDoneAt(cfg, Modulo, s, t - 1)
  {
    hide OneTick, Runs, WorkAt, Hit, HitU;
    Coast(cfg, s, t - 1);
    var q := Ticks(cfg, Modulo, s, t - 1);
    assert q.count != cfg.value[0];
    TickBelowTop(cfg, q);
    WorkIsHit(cfg, Ticks(cfg, Modulo, s, t).count);
  }

  /** What is done on a run is done on the rest of it. */
  lemma RestIsDone(cfg: Config, s: Snapshot, m: nat, k: nat)
    requires Valid(cfg) && |s.pins| == |cfg.value| && WorkDoneAt(cfg, Modulo, s, m + k)
    ensures WorkDoneAt(cfg, Modulo, Ticks(cfg, Modulo, s, m), k)
  {
    hide Ticks, Runs, WorkAt;
    TicksSplit(cfg, Modulo, s, m, k);
    TicksSplit(cfg, Modulo, s, m, k + 1);
  }

  lemma {:induction false} CountsToTop(cfg: Config, s: Snapshot, n: nat)
    requires WithinPeriod(cfg, s) && InRange(cfg, s.next) && U(cfg, s.count) + n <= Top(cfg)
    ensures var r := Ticks(cfg, Modulo, s, n);
            WithinPeriod(cfg, r) && InRange(cfg, r.next) && U(cfg, r.count) == U(cfg, s.count) + n
  {
    hide OneTick, Runs;
    if n > 0 {
      CountsToTop(cfg, s, n - 1);
      TickBelowTop(cfg, Ticks(cfg, Modulo, s, n - 1));
    }
  }

  /** And so did the scan on every enabled value on the way. */
  lemma DoneRightAt(cfg: Config, s: Snapshot, j: nat)
    requires WithinPeriod(cfg, s) && InRange(cfg, s.next) && cfg.compare[0]
    requires forall k: nat :: k < Top(cfg) - U(cfg, s.count) ==> WorkDoneAt(cfg, Modulo, s, k)
    requires j < |cfg.value| && cfg.compare[j] && U(cfg, s.count) < U(cfg, cfg.value[j]) < Top(cfg)
    ensures RightFrom(cfg, U(cfg, cfg.value[j]))
  {
    var x := U(cfg, cfg.value[j]);
    var m := x - U(cfg, s.count);
    var q, r := Ticks(cfg, Modulo, s, m - 1), Ticks(cfg, Modulo, s, m);
    CountsToTop(cfg, s, m - 1);
    assert q.count != cfg.value[0];
    TickBelowTop(cfg, q);
    assert r == OneTick(cfg, Modulo, q);
    hide OneTick, Ticks, Runs, WorkAt, Hit, RightFrom, Scan, Moved;
    assert HitU(cfg, x);
    WorkIsHit(cfg, r.count);
    assert WorkDoneAt(cfg, Modulo, s, m - 1);
    forall k: nat | k < Top(cfg) - U(cfg, r.count)
      ensures WorkDoneAt(cfg, Modulo, r, k)
    {
      RestIsDone(cfg, s, m, k);
    }
    DoneWasRight(cfg, r);
  }

  /**
   * Modulo mode with channel 0 in compare mode, from a scan anywhere up to CC0, all channels in compare mode
   * having partners: counter, pins and notices are those of comparing on every tick on exactly the ticks up
   * to CC0, if and only if CC0 is in sight. After CC0 they differ in any case.
   */
  lemma ModuloLooksAlikeIff(cfg: Config, s: Snapshot)
    requires WithinPeriod(cfg, s) && cfg.compare[0] && Loud(cfg)
    requires NothingTold(s) && s.next == Scan(cfg, Modulo, s, |cfg.value|)
    ensures (forall n: nat :: LooksAlike(cfg, Modulo, s, n) <==> n <= Top(cfg) - U(cfg, s.count)) <==>
            InSight(cfg, U(cfg, s.count))
  {
    var c := U(cfg, s.count);
    ScanInRange(cfg, Modulo, s, |cfg.value|);
    assert Proper(cfg, s);
    CountBelowTop(cfg, s);
    hide Scan, InSight, LooksAlike, RightFrom, Top, U, WithinPeriod, Proper, WorkDoneAt, Loud;
    if InSight(cfg, c) {
      forall n: nat
        ensures LooksAlike(cfg, Modulo, s, n) <==> n <= Top(cfg) - c
      {
        if n <= Top(cfg) - c {
          InSightLooksAlike(cfg, s, n);
        } else {
          ModuloPartsAfterTop(cfg, s, 0, n);
        }
      }
    }
    if forall n: nat :: LooksAlike(cfg, Modulo, s, n) <==> n <= Top(cfg) - c {
      assert LooksAlike(cfg, Modulo, s, Top(cfg) - c);
      LooksAlikeIffWorkDone(cfg, Modulo, s, Top(cfg) - c);
      AlikeIsInSight(cfg, s);
    }
  }

  lemma InSightLooksAlike(cfg: Config, s: Snapshot, n: nat)
    requires WithinPeriod(cfg, s) && cfg.compare[0] && s.next == Scan(cfg, Modulo, s, |cfg.value|)
    requires InSight(cfg, U(cfg, s.count)) && n <= Top(cfg) - U(cfg, s.count)
    ensures LooksAlike(cfg, Modulo, s, n)
  {
    hide *;
    InSightIsDue(cfg, s);
    forall k: nat | k < n
      ensures WorkDoneAt(cfg, Modulo, s, k)
    {
      RightUpToTop(cfg, s, k + 1);
    }
    WorkDoneLooksAlike(cfg, Modulo, s, n);
  }

  lemma InSightIsDue(cfg: Config, s: Snapshot)
    requires WithinPeriod(cfg, s) && cfg.compare[0] && s.next == Scan(cfg, Modulo, s, |cfg.value|)
    requires InSight(cfg, U(cfg, s.count))
    ensures Valid(cfg) && |s.pins| == |cfg.value| && Proper(cfg, s) && Due(cfg, s) && RightToTop(cfg, U(cfg, s.count))
  {
    hide Scan, RightFrom, InSight;
    ScanInRange(cfg, Modulo, s, |cfg.value|);
    InSightIsRight(cfg, U(cfg, s.count));
    ScannedIsDue(cfg, s);
  }

  lemma AlikeIsInSight(cfg: Config, s: Snapshot)
    requires WithinPeriod(cfg, s) && cfg.compare[0] && s.next == Scan(cfg, Modulo, s, |cfg.value|)
    requires forall k: nat :: k < Top(cfg) - U(cfg, s.count) ==> WorkDoneAt(cfg, Modulo, s, k)
    ensures InSight(cfg, U(cfg, s.count))
  {
    var c := U(cfg, s.count);
    ScanInRange(cfg, Modulo, s, |cfg.value|);
    CountBelowTop(cfg, s);
    if s.count == cfg.value[0] {
      AtTop(cfg, c);
    } else {
      DoneWasRight(cfg, s);
    }
    hide Scan, WorkDoneAt, InSight, RightFrom;
    forall j | 0 <= j < |cfg.value| && cfg.compare[j] && c < U(cfg, cfg.value[j]) < Top(cfg)
      ensures RightFrom(cfg, U(cfg, cfg.value[j]))
    {
      DoneRightAt(cfg, s, j);
    }
    RightIsInSight(cfg, c);
  }

  // ---------- a pin that is never cleared ----------

  /** The action sets the pin at the channel's value and clears it at 0. */
  predicate SetThenClear(cfg: Config, j: nat)
    requires Valid(cfg) && j < |cfg.value|
  {
    cfg.action[j] == 3 || (cfg.action[j] == 5 && !(cfg.timer1 && j == 0))
  }

  lemma {:induction false} ComparedPin(cfg: Config, u: Snapshot, j: nat, i: nat)
    requires Valid(cfg) && |u.pins| == |cfg.value| && j < |cfg.value| && i <= |cfg.value| && SetThenClear(cfg, j)
    ensures Compared(cfg, Modulo, u, i).pins[j] ==
            if i <= j || !Acts(cfg, u.count, j) then u.pins[j]
            else if u.count == 0 then false else u.count == cfg.value[j] || u.pins[j]
  {
    if i > 0 {
      ComparedPin(cfg, u, j, i - 1);
      hide Compared;
    }
  }

  /** One tick on such a pin: the code's sets it at the channel's value and does nothing at 0. */
  lemma PinTick(cfg: Config, s: Snapshot, j: nat)
    requires WithinPeriod(cfg, s) && InRange(cfg, s.next) && j < |cfg.value| && SetThenClear(cfg, j)
    ensures var r := OneTick(cfg, Modulo, s);
            && WithinPeriod(cfg, r) && InRange(cfg, r.next)
            && r.pins[j] == (s.pins[j] || (Runs(cfg, Modulo, s) && cfg.compare[j] && r.count == cfg.value[j]))
  {
    TickEffect(cfg, Modulo, s);
    ModuloMoves(cfg, s);
    VisibleTick(cfg, Modulo, s);
    hide OneTick, Scan, Compared;
    var u := Moved(cfg, Modulo, s);
    ComparedPin(cfg, Visible(u), j, |cfg.value|);
    assert Visible(OneTick(cfg, Modulo, s)).pins == OneTick(cfg, Modulo, s).pins;
    assert u.pins == s.pins;
  }

  /** In modulo mode a pin that is to be cleared at 0 is never cleared, whatever the registers. */
  lemma {:induction false} SetStaysSet(cfg: Config, s: Snapshot, j: nat, n: nat)
    requires WithinPeriod(cfg, s) && InRange(cfg, s.next) && j < |cfg.value| && SetThenClear(cfg, j) && s.pins[j]
    ensures var r := Ticks(cfg, Modulo, s, n); WithinPeriod(cfg, r) && InRange(cfg, r.next) && r.pins[j]
  {
    assert |s.pins| == |cfg.value| && Valid(cfg);
    hide OneTick, Runs, WithinPeriod;
    if n > 0 {
      SetStaysSet(cfg, s, j, n - 1);
      PinTick(cfg, Ticks(cfg, Modulo, s, n - 1), j);
    }
  }

  /** Comparing on every tick clears it on every arrival at 0. */
  lemma EveryTickClears(cfg: Config, s: Snapshot, j: nat, n: nat)
    requires Proper(cfg, s) && j < |cfg.value| && SetThenClear(cfg, j) && cfg.compare[j]
    requires n >= 1 && Ticks(cfg, Modulo, s, n).count == 0
    ensures !EveryTicks(cfg, Modulo, s, n).pins[j]
  {
    hide OneTick, Compared, Moved, SetThenClear;
    CountsAlike(cfg, Modulo, s, n);
    var e := EveryTicks(cfg, Modulo, s, n - 1);
    ComparedPin(cfg, Moved(cfg, Modulo, e), j, |cfg.value|);
  }

  /** CC0 = 10 and channel 1 at 5, set there and to be cleared at 0. */
  predicate Pulse(cfg: Config, s: Snapshot) {
    && cfg == Config(0x8000, 3, [10, 5, 0, 0, 0], [true, true, false, false, false], [0, 3, 0, 0, 0], true)
    && s == Snapshot(0, 0, 5, false, [false, false, false, false, false], 0, [], [])
  }

  lemma PulseStarts(cfg: Config, s: Snapshot)
    requires Pulse(cfg, s)
    ensures WithinPeriod(cfg, s) && Proper(cfg, s) && NothingTold(s)
    ensures Loud(cfg) && InSight(cfg, 0) && Schedulable(cfg, 0)
    ensures s.next == Scan(cfg, Modulo, s, 5) && Top(cfg) == 10 && U(cfg, s.count) == 0
    ensures cfg.compare[0] && cfg.compare[1] && SetThenClear(cfg, 1) && |cfg.value| == 5
  {
    assert Scan(cfg, Modulo, s, 0) == -1;
    assert Scan(cfg, Modulo, s, 1) == 10;
    assert Scan(cfg, Modulo, s, 2) == 5;
    assert Scan(cfg, Modulo, s, 3) == 5;
    assert Scan(cfg, Modulo, s, 4) == 5;
  }

  /** With it the compare values are all served, and the countdown is comparing on every tick up to tick 10 only. */
  lemma PulseAlikeUpToTen(cfg: Config, s: Snapshot, n: nat)
    requires Pulse(cfg, s)
    ensures Schedulable(cfg, 0) && (LooksAlike(cfg, Modulo, s, n) <==> n <= 10)
  {
    hide *;
    PulseStarts(cfg, s);
    ModuloLooksAlikeIff(cfg, s);
  }

  /** The pin is set on the first period and never cleared. */
  lemma PulseStaysSet(cfg: Config, s: Snapshot, n: nat)
    requires Pulse(cfg, s) && n >= 5
    ensures Valid(cfg) && |s.pins| == |cfg.value| == 5 && Ticks(cfg, Modulo, s, n).pins[1]
  {
    hide *;
    PulseStarts(cfg, s);
    PulseSet(cfg, s);
    SetStaysSet(cfg, Ticks(cfg, Modulo, s, 5), 1, n - 5);
    TicksSplit(cfg, Modulo, s, 5, n - 5);
    assert 5 + (n - 5) == n;
  }

  lemma UnsignedZero(cfg: Config, r: Snapshot)
    requires WithinPeriod(cfg, r)
    ensures U(cfg, r.count) == 0 <==> r.count == 0
  {
  }

  /** Comparing on every tick clears it on every arrival at 0. */
  lemma PulseShouldClear(cfg: Config, s: Snapshot, n: nat)
    requires Pulse(cfg, s) && n >= 1 && n % 11 == 0
    ensures Valid(cfg) && |s.pins| == |cfg.value| == 5 && !EveryTicks(cfg, Modulo, s, n).pins[1]
  {
    hide *;
    PulseStarts(cfg, s);
    ModuloClosedForm(cfg, s, n);
    UnsignedZero(cfg, Ticks(cfg, Modulo, s, n));
    EveryTickClears(cfg, s, 1, n);
  }

  lemma PulseSet(cfg: Config, s: Snapshot)
    requires Pulse(cfg, s)
    ensures var r := Ticks(cfg, Modulo, s, 5); WithinPeriod(cfg, r) && InRange(cfg, r.next) && r.pins[1]
  {
    hide OneTick, Scan;
    Coast(cfg, s, 4);
    var q := Ticks(cfg, Modulo, s, 4);
    PinTick(cfg, q, 1);
    TickBelowTop(cfg, q);
    assert Ticks(cfg, Modulo, s, 5) == OneTick(cfg, Modulo, q);
  }
}
