/** Modulo mode with channel 0 in compare mode: when CaptureCompare runs on exactly the enabled compare values. */
module TimerModulo {
  import opened Arith
  import opened Timer
  import opened TimerLaws
  import opened TimerCountdown

  // ---------- the condition ----------

  /** No enabled compare value lies strictly between two counts. */
  predicate NoneBetween(cfg: Config, lo: int, hi: int)
    requires Valid(cfg)
  {
    forall j :: 0 <= j < |cfg.value| && cfg.compare[j] ==> !(lo < U(cfg, cfg.value[j]) < hi)
  }

  /** The first fully scanned channel whose value is neither 0 nor the largest count. */
  predicate First(cfg: Config, k: int)
    requires Valid(cfg)
  {
    && 0 <= k < cfg.full && cfg.compare[k] && cfg.value[k] != 0 && cfg.value[k] != -1
    && forall j :: 0 <= j < k && cfg.compare[j] ==> cfg.value[j] == 0 || cfg.value[j] == -1
  }

  /** A scan at count `c` finds the next compare value. */
  predicate RightFrom(cfg: Config, c: int)
    requires Valid(cfg)
  {
    || c >= Top(cfg)
    || Top(cfg) - c < cfg.half
    || NoneBetween(cfg, c, Top(cfg))
    || (c == 0 && cfg.value[0] == -1
        && exists k :: 0 <= k < cfg.full && First(cfg, k)
                       && (cfg.value[k] > 0 || NoneBetween(cfg, 0, U(cfg, cfg.value[k]))))
  }

  /** Some enabled compare value, unsigned. */
  predicate HitU(cfg: Config, c: int)
    requires Valid(cfg)
  {
    exists j :: 0 <= j < |cfg.value| && cfg.compare[j] && U(cfg, cfg.value[j]) == c
  }

  /** `d` ticks ahead of count `c` is the next compare value. */
  predicate Ahead(cfg: Config, c: int, d: int)
    requires Valid(cfg)
  {
    d >= 1 && c + d <= Top(cfg) && HitU(cfg, c + d) && NoneBetween(cfg, c, c + d)
  }

  lemma HitIsHitU(cfg: Config, x: int)
    requires Valid(cfg) && InRange(cfg, x)
    ensures Hit(cfg, x) <==> HitU(cfg, U(cfg, x))
  {
    forall j | 0 <= j < |cfg.value|
      ensures U(cfg, cfg.value[j]) == U(cfg, x) <==> cfg.value[j] == x
    {
    }
  }

  // ---------- what a scan finds ----------

  /** The scan's result among the first `i` channels, when CC0 is less than half a turn ahead. */
  predicate Nearest(cfg: Config, c: int, d: int, i: nat)
    requires Valid(cfg) && i <= |cfg.value|
  {
    && d >= 1 && c + d <= Top(cfg)
    && (exists j :: 0 <= j < i && cfg.compare[j] && U(cfg, cfg.value[j]) == c + d)
    && forall j :: 0 <= j < i && cfg.compare[j] ==> !(c < U(cfg, cfg.value[j]) < c + d)
  }

  lemma {:induction false} ScanNear(cfg: Config, s: Snapshot, i: nat)
    requires WithinPeriod(cfg, s) && cfg.compare[0] && 1 <= i <= |cfg.value|
    requires 0 < Top(cfg) - U(cfg, s.count) < cfg.half
    ensures Nearest(cfg, U(cfg, s.count), Scan(cfg, Modulo, s, i), i)
  {
    var c := U(cfg, s.count);
    if i == 1 {
      assert Scan(cfg, Modulo, s, 0) == -1;
      assert U(cfg, cfg.value[0]) == c + (Top(cfg) - c);
    } else {
      ScanNear(cfg, s, i - 1);
      var next := Scan(cfg, Modulo, s, i - 1);
      if cfg.compare[i - 1] {
        var d := Distance(cfg, Modulo, s, i - 1);
        assert 0 < d < next ==> U(cfg, cfg.value[i - 1]) == c + d;
        assert Scan(cfg, Modulo, s, i) == if 0 < d < next then d else next;
      }
    }
  }

  /** From half a turn on, CC0 hides all other channels: the countdown is the way to CC0. */
  lemma {:induction false} ScanFar(cfg: Config, s: Snapshot, i: nat)
    requires WithinPeriod(cfg, s) && cfg.compare[0] && 1 <= i <= |cfg.value|
    requires cfg.half <= Top(cfg) - U(cfg, s.count) < 2 * cfg.half - 1
    ensures Scan(cfg, Modulo, s, i) == Top(cfg) - U(cfg, s.count) - 2 * cfg.half
  {
    if i == 1 {
      assert Scan(cfg, Modulo, s, 0) == -1;
    } else {
      ScanFar(cfg, s, i - 1);
    }
  }

  predicate OnlyEnds(cfg: Config, i: nat)
    requires Valid(cfg) && i <= |cfg.value|
  {
    forall j :: 0 <= j < i && j < cfg.full && cfg.compare[j] ==> cfg.value[j] == 0 || cfg.value[j] == -1
  }

  /** At count 0 with CC0 the largest count, channels at either end of the range leave the countdown unset. */
  lemma {:induction false} ScanUnset(cfg: Config, s: Snapshot, i: nat)
    requires Valid(cfg) && s.count == 0 && i <= |cfg.value| && OnlyEnds(cfg, i)
    ensures Scan(cfg, Modulo, s, i) == -1
  {
    if i > 0 {
      ScanUnset(cfg, s, i - 1);
    }
  }

  /** The first other channel decides: if its value is in the upper half it stays, else the nearest value is found. */
  lemma {:induction false} ScanDecided(cfg: Config, s: Snapshot, k: nat, i: nat)
    requires Valid(cfg) && s.count == 0 && First(cfg, k) && k < i <= |cfg.value|
    ensures var d, v := Scan(cfg, Modulo, s, i), cfg.value[k];
            if v < 0 then d == v
            else
              && 0 < d < cfg.half && (exists j :: 0 <= j < i && cfg.compare[j] && cfg.value[j] == d)
              && forall j :: 0 <= j < i && cfg.compare[j] ==> !(0 < cfg.value[j] < d)
  {
    if i == k + 1 {
      ScanUnset(cfg, s, k);
    } else {
      ScanDecided(cfg, s, k, i - 1);
    }
  }

  lemma {:induction false} FindFirst(cfg: Config, i: nat)
    requires Valid(cfg) && i <= |cfg.value|
    ensures OnlyEnds(cfg, i) || exists k :: 0 <= k < i && First(cfg, k)
  {
    if i > 0 {
      FindFirst(cfg, i - 1);
      if OnlyEnds(cfg, i - 1) && !OnlyEnds(cfg, i) {
        assert First(cfg, i - 1);
      }
    }
  }

  lemma FirstUnique(cfg: Config, k: int, l: int)
    requires Valid(cfg) && First(cfg, k) && First(cfg, l)
    ensures k == l
  {
  }

  /** The largest count as CC0, scanned at 0. */
  lemma ScanWhole(cfg: Config, s: Snapshot)
    requires WithinPeriod(cfg, s) && cfg.compare[0] && s.count == 0 && cfg.value[0] == -1
    ensures Ahead(cfg, 0, Fresh(cfg, Modulo, s)) <==> RightFrom(cfg, 0)
  {
    var n := |cfg.value|;
    FindFirst(cfg, n);
    if OnlyEnds(cfg, n) {
      ScanUnset(cfg, s, n);
      assert U(cfg, cfg.value[0]) == Top(cfg);
      assert HitU(cfg, Top(cfg));
      assert forall k :: 0 <= k < cfg.full ==> !First(cfg, k);
    } else {
      var k :| 0 <= k < n && First(cfg, k);
      ScanDecided(cfg, s, k, n);
      assert !NoneBetween(cfg, 0, Top(cfg));
      DecidedAhead(cfg, Scan(cfg, Modulo, s, n), k);
      forall l | First(cfg, l)
        ensures l == k
      {
        FirstUnique(cfg, k, l);
      }
    }
  }

  lemma DecidedAhead(cfg: Config, d: int, k: int)
    requires Valid(cfg) && First(cfg, k) && Top(cfg) == 2 * cfg.half - 1
    requires var v := cfg.value[k];
             if v < 0 then d == v
             else
               && 0 < d < cfg.half && (exists j :: 0 <= j < |cfg.value| && cfg.compare[j] && cfg.value[j] == d)
               && forall j :: 0 <= j < |cfg.value| && cfg.compare[j] ==> !(0 < cfg.value[j] < d)
    ensures Ahead(cfg, 0, Fuse(cfg, d)) <==> cfg.value[k] > 0 || NoneBetween(cfg, 0, U(cfg, cfg.value[k]))
  {
    if cfg.value[k] < 0 {
      assert U(cfg, cfg.value[k]) == Fuse(cfg, d);
    } else {
      var j :| 0 <= j < |cfg.value| && cfg.compare[j] && cfg.value[j] == d;
      assert U(cfg, cfg.value[j]) == d;
    }
  }

  /** A scan below CC0 finds the next compare value exactly under the condition. */
  lemma FreshIsAheadIff(cfg: Config, s: Snapshot)
    requires WithinPeriod(cfg, s) && cfg.compare[0] && s.count != cfg.value[0]
    ensures var c := U(cfg, s.count); Ahead(cfg, c, Fresh(cfg, Modulo, s)) <==> RightFrom(cfg, c)
  {
    var c, n := U(cfg, s.count), |cfg.value|;
    if Top(cfg) - c < cfg.half {
      ScanNear(cfg, s, n);
      var d := Scan(cfg, Modulo, s, n);
      assert HitU(cfg, c + d) && NoneBetween(cfg, c, c + d);
    } else if Top(cfg) - c < 2 * cfg.half - 1 {
      ScanFar(cfg, s, n);
      assert U(cfg, cfg.value[0]) == Top(cfg);
      assert HitU(cfg, Top(cfg));
    } else {
      ScanWhole(cfg, s);
    }
  }

  // ---------- right scans make right runs ----------

  /** The countdown is right whenever it can matter: at CC0 the next tick scans anew. */
  predicate Due(cfg: Config, s: Snapshot) {
    && WithinPeriod(cfg, s) && InRange(cfg, s.next)
    && (s.count != cfg.value[0] ==> Ahead(cfg, U(cfg, s.count), Fuse(cfg, s.next)))
  }

  /** Every scan from count `c` on finds the next compare value, and none is 0. */
  predicate AllRight(cfg: Config, c: int)
    requires Valid(cfg)
  {
    && !Hit(cfg, 0) && RightFrom(cfg, c) && RightFrom(cfg, 0)
    && forall j :: 0 <= j < |cfg.value| && cfg.compare[j] && U(cfg, cfg.value[j]) < Top(cfg) ==>
       RightFrom(cfg, U(cfg, cfg.value[j]))
  }

  lemma ModuloMoves(cfg: Config, s: Snapshot)
    requires WithinPeriod(cfg, s)
    ensures var u := Moved(cfg, Modulo, s);
            && InRange(cfg, u.count) && U(cfg, u.count) <= Top(cfg)
            && U(cfg, u.count) == (if s.count == cfg.value[0] then 0 else U(cfg, s.count) + 1)
            && (u.count == 0 <==> s.count == cfg.value[0])
  {
  }

  /** A scanned state is right. */
  lemma ScannedIsDue(cfg: Config, r: Snapshot)
    requires WithinPeriod(cfg, r) && cfg.compare[0] && RightFrom(cfg, U(cfg, r.count))
    requires r.next == Scan(cfg, Modulo, r, |cfg.value|)
    ensures Due(cfg, r)
  {
    ScanInRange(cfg, Modulo, r, |cfg.value|);
    hide Scan;
    if r.count != cfg.value[0] {
      FreshIsAheadIff(cfg, r);
    }
  }

  /** A tick from a right state runs CaptureCompare exactly on an enabled value, and leaves a right state. */
  lemma DueTick(cfg: Config, s: Snapshot, c: int)
    requires Due(cfg, s) && cfg.compare[0] && AllRight(cfg, c)
    ensures Due(cfg, OneTick(cfg, Modulo, s))
    ensures Runs(cfg, Modulo, s) <==> Hit(cfg, Moved(cfg, Modulo, s).count)
  {
    var u, r := Moved(cfg, Modulo, s), OneTick(cfg, Modulo, s);
    TickEffect(cfg, Modulo, s);
    ModuloMoves(cfg, s);
    HitIsHitU(cfg, u.count);
    FuseBurns(cfg, s.next);
    assert Runs(cfg, Modulo, s) <==> s.next == 1 && u.count != 0;
    hide OneTick, Scan, Moved, Runs, Fuse;
    if s.count == cfg.value[0] {
      ScannedIsDue(cfg, r);
    } else if s.next == 1 {
      ScannedIsDue(cfg, r);
    } else {
      var d := Fuse(cfg, s.next);
      assert Ahead(cfg, U(cfg, s.count), d) && d >= 2;
      assert !HitU(cfg, U(cfg, u.count));
      assert U(cfg, cfg.value[0]) == Top(cfg);
      assert Ahead(cfg, U(cfg, r.count), d - 1);
    }
  }

  lemma {:induction false} DueRun(cfg: Config, s: Snapshot, c: int, n: nat)
    requires Due(cfg, s) && cfg.compare[0] && AllRight(cfg, c)
    ensures Due(cfg, Ticks(cfg, Modulo, s, n)) && RightAt(cfg, Modulo, s, n)
  {
    assert Valid(cfg) && |s.pins| == |cfg.value|;
    hide OneTick, Due, Runs, Hit, Valid;
    if n > 0 {
      DueRun(cfg, s, c, n - 1);
      DueTick(cfg, Ticks(cfg, Modulo, s, n - 1), c);
    }
    DueTick(cfg, Ticks(cfg, Modulo, s, n), c);
  }

  // ---------- right runs come from right scans ----------

  /** Before the countdown is over and CC0 passed, ticks only move the count and the countdown. */
  lemma {:induction false} Coast(cfg: Config, s: Snapshot, n: nat)
    requires WithinPeriod(cfg, s) && InRange(cfg, s.next)
    requires U(cfg, s.count) + n <= Top(cfg) && n < Fuse(cfg, s.next)
    ensures var r := Ticks(cfg, Modulo, s, n);
            && WithinPeriod(cfg, r) && InRange(cfg, r.next)
            && U(cfg, r.count) == U(cfg, s.count) + n && Fuse(cfg, r.next) == Fuse(cfg, s.next) - n
            && r.served == s.served
  {
    if n > 0 {
      Coast(cfg, s, n - 1);
      var r := Ticks(cfg, Modulo, s, n - 1);
      TickEffect(cfg, Modulo, r);
      ModuloMoves(cfg, r);
      FuseBurns(cfg, r.next);
      hide OneTick, Scan, Fuse;
    }
  }

  lemma {:induction false} NextHit(cfg: Config, c: int, m: int) returns (t: int)
    requires Valid(cfg) && cfg.compare[0] && 1 <= m && c + m <= Top(cfg) && NoneBetween(cfg, c, c + m)
    ensures Ahead(cfg, c, t)
    decreases Top(cfg) - c - m
  {
    assert U(cfg, cfg.value[0]) == Top(cfg);
    if HitU(cfg, c + m) {
      t := m;
    } else {
      t := NextHit(cfg, c, m + 1);
    }
  }

  ghost predicate AlwaysRight(cfg: Config, s: Snapshot)
    requires Valid(cfg) && |s.pins| == |cfg.value|
  {
    forall n: nat :: RightAt(cfg, Modulo, s, n)
  }

  /** What holds of a run holds of the rest of it. */
  lemma RestIsRight(cfg: Config, s: Snapshot, m: nat)
    requires Valid(cfg) && |s.pins| == |cfg.value| && AlwaysRight(cfg, s)
    ensures AlwaysRight(cfg, Ticks(cfg, Modulo, s, m))
  {
    hide OneTick, Runs, Hit;
    forall n: nat
      ensures RightAt(cfg, Modulo, Ticks(cfg, Modulo, s, m), n)
    {
      TicksSplit(cfg, Modulo, s, m, n);
      assert RightAt(cfg, Modulo, s, m + n);
    }
  }

  /** If the run is right, the scan it starts with found the next compare value. */
  lemma ScanWasRight(cfg: Config, s: Snapshot)
    requires WithinPeriod(cfg, s) && cfg.compare[0] && s.count != cfg.value[0]
    requires s.next == Scan(cfg, Modulo, s, |cfg.value|) && AlwaysRight(cfg, s)
    ensures RightFrom(cfg, U(cfg, s.count))
  {
    var c, f := U(cfg, s.count), Fuse(cfg, s.next);
    ScanInRange(cfg, Modulo, s, |cfg.value|);
    FuseBurns(cfg, s.next);
    var t := NextHit(cfg, c, 1);
    var n := if f < t then f - 1 else t - 1;
    Coast(cfg, s, n);
    var r := Ticks(cfg, Modulo, s, n);
    assert RightAt(cfg, Modulo, s, n);
    ModuloMoves(cfg, r);
    HitIsHitU(cfg, Moved(cfg, Modulo, r).count);
    FuseBurns(cfg, r.next);
    FreshIsAheadIff(cfg, s);
    hide OneTick, Scan, Moved, RightFrom;
    assert f >= t;
    assert f == t;
  }

  /** The run reaches CC0, unsigned, after as many ticks as are left to it. */
  lemma ReachesTop(cfg: Config, s: Snapshot)
    requires WithinPeriod(cfg, s) && InRange(cfg, s.next)
    ensures var r := Ticks(cfg, Modulo, s, Top(cfg) - U(cfg, s.count));
            WithinPeriod(cfg, r) && InRange(cfg, r.next) && r.count == cfg.value[0]
  {
    var n := Top(cfg) - U(cfg, s.count);
    ModuloClosedForm(cfg, s, n);
    DivModUnique(U(cfg, s.count) + n, Top(cfg) + 1, 0, Top(cfg));
    NextInRange(cfg, Modulo, s, n);
    hide OneTick, Scan;
  }

  lemma LeavesTop(cfg: Config, r: Snapshot)
    requires WithinPeriod(cfg, r) && InRange(cfg, r.next) && r.count == cfg.value[0]
    ensures var t := OneTick(cfg, Modulo, r);
            && WithinPeriod(cfg, t) && t.count == 0 == Moved(cfg, Modulo, r).count
            && t.next == Scan(cfg, Modulo, t, |cfg.value|) && !Runs(cfg, Modulo, r)
  {
    ModuloMoves(cfg, r);
    TickEffect(cfg, Modulo, r);
    ModuloAdvance(cfg, r);
    hide OneTick, Scan;
  }

  /** The tick that leaves CC0 shows that 0 is no compare value, and scans at 0. */
  lemma Rollover(cfg: Config, s: Snapshot)
    requires WithinPeriod(cfg, s) && InRange(cfg, s.next) && AlwaysRight(cfg, s)
    ensures !Hit(cfg, 0)
    ensures var r := Ticks(cfg, Modulo, s, Top(cfg) - U(cfg, s.count) + 1);
            && WithinPeriod(cfg, r) && r.count == 0
            && r.next == Scan(cfg, Modulo, r, |cfg.value|) && AlwaysRight(cfg, r)
  {
    hide OneTick, Scan, Hit, InRange, Top, U, Runs, Moved, AlwaysRight;
    var n := Top(cfg) - U(cfg, s.count);
    assert n >= 0 by {
      CountBelowTop(cfg, s);
    }
    ReachesTop(cfg, s);
    LeavesTop(cfg, Ticks(cfg, Modulo, s, n));
    RightNow(cfg, s, n);
    RestIsRight(cfg, s, n + 1);
  }

  lemma CountBelowTop(cfg: Config, s: Snapshot)
    requires WithinPeriod(cfg, s)
    ensures U(cfg, s.count) <= Top(cfg)
  {
  }

  lemma RightNow(cfg: Config, s: Snapshot, n: nat)
    requires Valid(cfg) && |s.pins| == |cfg.value| && AlwaysRight(cfg, s)
    ensures RightAt(cfg, Modulo, s, n)
  {
    hide RightAt;
  }

  lemma ScanAtHit(cfg: Config, r: Snapshot, j: nat)
    requires WithinPeriod(cfg, r) && cfg.compare[0] && r.count == 0
    requires r.next == Scan(cfg, Modulo, r, |cfg.value|) && AlwaysRight(cfg, r)
    requires j < |cfg.value| && cfg.compare[j] && 0 < U(cfg, cfg.value[j]) < Top(cfg)
    ensures RightFrom(cfg, U(cfg, cfg.value[j]))
  {
    var x := U(cfg, cfg.value[j]);
    var q := Ticks(cfg, Modulo, r, x - 1);
    ScanInRange(cfg, Modulo, r, |cfg.value|);
    ModuloClosedForm(cfg, r, x - 1);
    DivModUnique(x - 1, Top(cfg) + 1, 0, x - 1);
    NextInRange(cfg, Modulo, r, x - 1);
    assert RightAt(cfg, Modulo, r, x - 1);
    ModuloMoves(cfg, q);
    TickEffect(cfg, Modulo, q);
    ModuloAdvance(cfg, q);
    RestIsRight(cfg, r, x);
    hide OneTick, Scan, AlwaysRight, RightFrom;
    var p := Ticks(cfg, Modulo, r, x);
    assert Hit(cfg, Moved(cfg, Modulo, q).count);
    assert p == OneTick(cfg, Modulo, q) && U(cfg, p.count) == x;
    ScanWasRight(cfg, p);
  }

  lemma RightRunsAllRight(cfg: Config, s: Snapshot)
    requires WithinPeriod(cfg, s) && cfg.compare[0]
    requires s.next == Scan(cfg, Modulo, s, |cfg.value|) && AlwaysRight(cfg, s)
    ensures AllRight(cfg, U(cfg, s.count))
  {
    hide OneTick, Scan, AlwaysRight, RightFrom;
    var n := |cfg.value|;
    ScanInRange(cfg, Modulo, s, n);
    Rollover(cfg, s);
    var r := Ticks(cfg, Modulo, s, Top(cfg) - U(cfg, s.count) + 1);
    assert cfg.value[0] != 0;
    ScanWasRight(cfg, r);
    if s.count != cfg.value[0] {
      ScanWasRight(cfg, s);
    } else {
      AtTop(cfg, U(cfg, s.count));
    }
    forall j | 0 <= j < n && cfg.compare[j] && U(cfg, cfg.value[j]) < Top(cfg)
      ensures RightFrom(cfg, U(cfg, cfg.value[j]))
    {
      assert cfg.value[j] != 0;
      ScanAtHit(cfg, r, j);
    }
  }

  lemma AtTop(cfg: Config, c: int)
    requires Valid(cfg) && c >= Top(cfg)
    ensures RightFrom(cfg, c)
  {
  }

  /** Due at the start of a run that scans first. */
  lemma AllRightRunsRight(cfg: Config, s: Snapshot)
    requires WithinPeriod(cfg, s) && cfg.compare[0]
    requires s.next == Scan(cfg, Modulo, s, |cfg.value|) && AllRight(cfg, U(cfg, s.count))
    ensures AlwaysRight(cfg, s)
  {
    ScannedIsDue(cfg, s);
    hide OneTick, Scan, RightAt, AllRight, Due;
    forall n: nat
      ensures RightAt(cfg, Modulo, s, n)
    {
      DueRun(cfg, s, U(cfg, s.count), n);
    }
  }

  // ---------- the condition on the registers ----------

  /**
   * What a caller checks: no enabled compare value is 0; and CC0 is below half a turn, or no other enabled
   * value lies between 0 and CC0, or CC0 is the largest count and the channel that decides the scan at 0
   * has the smallest value, which lies in the upper half or is the only one; in this last case the run must
   * not start below it but above 0.
   */
  predicate Schedulable(cfg: Config, c: int)
    requires Valid(cfg)
  {
    && !Hit(cfg, 0)
    && (|| Top(cfg) < cfg.half
        || NoneBetween(cfg, 0, Top(cfg))
        || (&& cfg.value[0] == -1
            && (c == 0 || c >= cfg.half || NoneBetween(cfg, c, Top(cfg)))
            && exists k :: 0 <= k < cfg.full && First(cfg, k) && NoneBetween(cfg, 0, U(cfg, cfg.value[k]))
                           && (cfg.value[k] < 0 || NoneBetween(cfg, U(cfg, cfg.value[k]), Top(cfg)))))
  }

  lemma SchedulableIsAllRight(cfg: Config, c: int)
    requires Valid(cfg) && cfg.compare[0] && 0 <= c <= Top(cfg) && Schedulable(cfg, c)
    ensures AllRight(cfg, c)
  {
    if !NoneBetween(cfg, 0, Top(cfg)) && Top(cfg) >= cfg.half {
      var k :| 0 <= k < cfg.full && First(cfg, k) && NoneBetween(cfg, 0, U(cfg, cfg.value[k]))
               && (cfg.value[k] < 0 || NoneBetween(cfg, U(cfg, cfg.value[k]), Top(cfg)));
      assert RightFrom(cfg, 0);
      forall j | 0 <= j < |cfg.value| && cfg.compare[j] && U(cfg, cfg.value[j]) < Top(cfg)
        ensures RightFrom(cfg, U(cfg, cfg.value[j]))
      {
        assert cfg.value[j] != 0;
        if cfg.value[k] > 0 {
          assert NoneBetween(cfg, U(cfg, cfg.value[j]), Top(cfg));
        }
      }
    }
  }

  lemma AllRightIsSchedulable(cfg: Config, c: int)
    requires Valid(cfg) && cfg.compare[0] && 0 <= c <= Top(cfg) && AllRight(cfg, c)
    ensures Schedulable(cfg, c)
  {
    if !NoneBetween(cfg, 0, Top(cfg)) && Top(cfg) >= cfg.half {
      assert cfg.value[0] == -1;
      var k :| 0 <= k < cfg.full && First(cfg, k) && (cfg.value[k] > 0 || NoneBetween(cfg, 0, U(cfg, cfg.value[k])));
      if cfg.value[k] > 0 {
        var v := U(cfg, cfg.value[k]);
        assert RightFrom(cfg, v) && NoneBetween(cfg, v, Top(cfg));
        forall j | 0 <= j < |cfg.value| && cfg.compare[j]
          ensures !(0 < U(cfg, cfg.value[j]) < v)
        {
          assert RightFrom(cfg, U(cfg, cfg.value[j]));
        }
      }
    }
  }

  /**
   * Modulo mode with channel 0 in compare mode, from a call of get_next_cc_event anywhere up to CC0, for
   * every CC0: CaptureCompare runs on exactly the enabled compare values if and only if the registers are
   * schedulable. The work at 0, which is never done, is TimerAlikeModulo's.
   */
  lemma CountdownRefinesIff(cfg: Config, s: Snapshot)
    requires WithinPeriod(cfg, s) && cfg.compare[0] && s.next == Scan(cfg, Modulo, s, |cfg.value|)
    ensures Refines(cfg, Modulo, s) <==> Schedulable(cfg, U(cfg, s.count))
  {
    hide Scan, Schedulable, AllRight, Refines;
    var c := U(cfg, s.count);
    ScanInRange(cfg, Modulo, s, |cfg.value|);
    RefinesIff(cfg, Modulo, s);
    if AlwaysRight(cfg, s) {
      RightRunsAllRight(cfg, s);
      AllRightIsSchedulable(cfg, c);
    }
    if Schedulable(cfg, c) {
      SchedulableIsAllRight(cfg, c);
      AllRightRunsRight(cfg, s);
    }
  }

  /** The smallest case of a hidden channel: with CC0 = 0x8000 the compare at 5 is missed. */
  lemma UpperHalfHides(cfg: Config, s: Snapshot)
    requires cfg == Config(0x8000, 3, [-0x8000, 5, 0, 0, 0], [true, true, false, false, false], [0, 0, 0, 0, 0], true)
    requires s == Snapshot(0, 0, -0x8000, false, [false, false, false, false, false], 0, [], [])
    ensures s.next == Scan(cfg, Modulo, s, 5) && !Hit(cfg, 0) && Hit(cfg, 5) && !Schedulable(cfg, 0)
    ensures var r := Ticks(cfg, Modulo, s, 5); r.count == 5 && r.served == []
  {
    hide Scan, Ticks, Fuse;
    ScanFar(cfg, s, 5);
    FuseOf(cfg, s.next);
    assert cfg.compare[1] && cfg.value[1] == 5 && U(cfg, cfg.value[1]) == 5;
    Coast(cfg, s, 5);
    assert !NoneBetween(cfg, 0, Top(cfg));
  }

  lemma FuseOf(cfg: Config, next: int)
    requires next <= 0
    ensures Fuse(cfg, next) == next + 2 * cfg.half
  {
  }
}
