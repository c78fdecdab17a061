/** Free-running mode with any number of channels in compare mode: which ticks are served, turn after turn. */
module TimerTurns {
  import opened Arith
  import opened Timer
  import opened TimerLaws
  import opened TimerCountdown
  import opened TimerFree

  function Turn(cfg: Config): int {
    2 * cfg.half
  }

  // ---------- what a scan finds ----------

  /** Channel `k` settles a scan at count `c`: its value is neither `c` nor one behind. */
  predicate Decides(cfg: Config, c: int, k: nat)
    requires Valid(cfg) && k < |cfg.value|
  {
    cfg.compare[k] && cfg.value[k] != c && cfg.value[k] != Dec(cfg, c)
  }

  /** The first fully scanned channel from `k` on that settles a scan at count `c`; `full` if there is none. */
  function Decider(cfg: Config, c: int, k: nat): (d: nat)
    requires Valid(cfg) && k <= cfg.full
    ensures k <= d <= cfg.full && (d < cfg.full ==> Decides(cfg, c, d))
    ensures forall j :: k <= j < d ==> !Decides(cfg, c, j)
    decreases cfg.full - k
  {
    if k == cfg.full || Decides(cfg, c, k) then k else Decider(cfg, c, k + 1)
  }

  /** Ticks to the nearest value among the first `i` channels in compare mode; a whole turn if there is none. */
  function NearestGap(cfg: Config, c: int, i: nat): int
    requires Valid(cfg) && i <= |cfg.value|
  {
    if i == 0 then Turn(cfg) else
    var g := NearestGap(cfg, c, i - 1);
    if cfg.compare[i - 1] && Gap(cfg, c, cfg.value[i - 1]) < g then Gap(cfg, c, cfg.value[i - 1]) else g
  }

  /** Ticks to the next CaptureCompare after a scan at count `c`: to the nearest value if the deciding channel's
      lies ahead, less than half a turn, and otherwise to that channel's, past all values before it. */
  function NextGap(cfg: Config, c: int): int
    requires Valid(cfg)
  {
    var k := Decider(cfg, c, 0);
    if k == cfg.full then Turn(cfg) - 1 else
    var g := Gap(cfg, c, cfg.value[k]);
    if g < cfg.half then NearestGap(cfg, c, |cfg.value|) else g
  }

  lemma DistanceIsGap(cfg: Config, s: Snapshot, i: nat)
    requires Valid(cfg) && InRange(cfg, s.count) && i < |cfg.value|
    ensures var d, v := Distance(cfg, FreeRunning, s, i), cfg.value[i];
            var g := Gap(cfg, s.count, v);
            && d == Sub(cfg, v, s.count) && 1 <= g <= Turn(cfg) && (d > 0 <==> g < cfg.half) && (d > 0 ==> d == g)
            && (d == 0 <==> v == s.count) && (d == -1 <==> v == Dec(cfg, s.count))
            && (d < 0 ==> g == d + Turn(cfg)) && (d == 0 ==> g == Turn(cfg))
  {
  }

  /** As long as no channel decides, the countdown stays unset. */
  lemma {:induction false} ScanUnset(cfg: Config, s: Snapshot, i: nat)
    requires Valid(cfg) && InRange(cfg, s.count) && i <= |cfg.value|
    requires forall j :: 0 <= j < i && j < cfg.full ==> !Decides(cfg, s.count, j)
    ensures Scan(cfg, FreeRunning, s, i) == -1
  {
    if i > 0 {
      ScanUnset(cfg, s, i - 1);
      assert i - 1 < cfg.full ==> !Decides(cfg, s.count, i - 1);
      DistanceIsGap(cfg, s, i - 1);
      hide Distance, Gap;
    }
  }

  /** A deciding channel behind the count, or half a turn ahead, keeps the countdown. */
  lemma {:induction false} ScanBehind(cfg: Config, s: Snapshot, k: nat, i: nat)
    requires Valid(cfg) && InRange(cfg, s.count)
    requires k == Decider(cfg, s.count, 0) && k < i <= |cfg.value| && k < cfg.full
    requires Gap(cfg, s.count, cfg.value[k]) >= cfg.half
    ensures Scan(cfg, FreeRunning, s, i) == Sub(cfg, cfg.value[k], s.count) < -1
  {
    DistanceIsGap(cfg, s, k);
    if i == k + 1 {
      ScanUnset(cfg, s, k);
    } else {
      ScanBehind(cfg, s, k, i - 1);
    }
    hide Gap, Sub, Distance;
  }

  /** Channels that do not decide are a whole turn away, or one tick less. */
  lemma {:induction false} FarIfUndecided(cfg: Config, c: int, i: nat)
    requires Valid(cfg) && InRange(cfg, c) && i <= |cfg.value| && forall j :: 0 <= j < i ==> !Decides(cfg, c, j)
    ensures NearestGap(cfg, c, i) >= Turn(cfg) - 1
  {
    if i > 0 {
      FarIfUndecided(cfg, c, i - 1);
      assert !Decides(cfg, c, i - 1);
    }
  }

  /** A deciding channel ahead leaves the nearest value. */
  lemma {:induction false} ScanAhead(cfg: Config, s: Snapshot, k: nat, i: nat)
    requires Valid(cfg) && InRange(cfg, s.count)
    requires k == Decider(cfg, s.count, 0) && k < i <= |cfg.value| && k < cfg.full
    requires Gap(cfg, s.count, cfg.value[k]) < cfg.half
    ensures 0 < Scan(cfg, FreeRunning, s, i) == NearestGap(cfg, s.count, i) < cfg.half
  {
    DistanceIsGap(cfg, s, i - 1);
    if i == k + 1 {
      ScanUnset(cfg, s, k);
      FarIfUndecided(cfg, s.count, k);
    } else {
      ScanAhead(cfg, s, k, i - 1);
    }
    hide Gap, Sub, Distance;
  }

  /** What get_next_cc_event leaves, for any registers. */
  lemma FreshIs(cfg: Config, s: Snapshot)
    requires Valid(cfg) && InRange(cfg, s.count)
    ensures Fresh(cfg, FreeRunning, s) == NextGap(cfg, s.count)
  {
    var k, n := Decider(cfg, s.count, 0), |cfg.value|;
    if k == cfg.full {
      ScanUnset(cfg, s, n);
    } else {
      DistanceIsGap(cfg, s, k);
      if Gap(cfg, s.count, cfg.value[k]) < cfg.half {
        ScanAhead(cfg, s, k, n);
      } else {
        ScanBehind(cfg, s, k, n);
      }
      hide Gap, Sub, Distance, Scan;
    }
  }

  // ---------- positions in a turn ----------

  /** Channel `i` is the first in compare mode, and scanned in full. */
  predicate Leads(cfg: Config, i: nat) {
    Valid(cfg) && i < cfg.full && cfg.compare[i] && forall j :: 0 <= j < i ==> !cfg.compare[j]
  }

  /** How many ticks count `c` lies behind channel `i`'s value. */
  function Position(cfg: Config, i: nat, c: int): int
    requires i < |cfg.value|
  {
    if c < cfg.value[i] then c - cfg.value[i] + Turn(cfg) else c - cfg.value[i]
  }

  /** Where the turn's first CaptureCompare after the one at channel `i`'s value is. */
  function FirstWake(cfg: Config, i: nat): int
    requires Valid(cfg) && i < |cfg.value|
  {
    NextGap(cfg, cfg.value[i])
  }

  /** Where the first one at position 2 or later is; a whole turn if there is none. */
  function SecondWake(cfg: Config, i: nat): int
    requires Valid(cfg) && i < |cfg.value|
  {
    if FirstWake(cfg, i) == 1 then 1 + NextGap(cfg, Inc(cfg, cfg.value[i])) else FirstWake(cfg, i)
  }

  /** Some enabled channel has its value at position `p`. */
  predicate ValueAt(cfg: Config, i: nat, p: int)
    requires Valid(cfg) && i < |cfg.value|
  {
    exists j :: 0 <= j < |cfg.value| && cfg.compare[j] && Position(cfg, i, cfg.value[j]) == p
  }

  /** The positions at which CaptureCompare runs, the same on every turn: channel `i`'s value, the first two wakes,
      and, if the second is in the second half of the turn, all values after it. */
  predicate Woken(cfg: Config, i: nat, p: int)
    requires Valid(cfg) && i < |cfg.value|
  {
    || p == 0 || p == FirstWake(cfg, i) || p == SecondWake(cfg, i)
    || (cfg.half < SecondWake(cfg, i) < p && ValueAt(cfg, i, p))
  }

  /** Ticks left at count `c` until the next CaptureCompare. */
  function Left(cfg: Config, i: nat, c: int): int
    requires Valid(cfg) && i < |cfg.value|
  {
    var p, w1, w2 := Position(cfg, i, c), FirstWake(cfg, i), SecondWake(cfg, i);
    if p < w1 then w1 - p else if p < w2 then w2 - p
    else if w2 > cfg.half then NearestGap(cfg, c, |cfg.value|) else Turn(cfg) - p
  }

  predicate OnTurn(cfg: Config, i: nat, s: Snapshot) {
    Proper(cfg, s) && Leads(cfg, i) && Fuse(cfg, s.next) == Left(cfg, i, s.count)
  }

  lemma PositionMoves(cfg: Config, i: nat, c: int)
    requires Valid(cfg) && i < |cfg.value| && InRange(cfg, c)
    ensures 0 <= Position(cfg, i, c) < Turn(cfg) && (Position(cfg, i, c) == 0 <==> c == cfg.value[i])
    ensures Position(cfg, i, Inc(cfg, c)) == if Position(cfg, i, c) == Turn(cfg) - 1 then 0 else Position(cfg, i, c) + 1
    ensures Gap(cfg, c, cfg.value[i]) == Turn(cfg) - Position(cfg, i, c)
    ensures c == Inc(cfg, cfg.value[i]) <==> Position(cfg, i, c) == 1
    ensures cfg.value[i] == Dec(cfg, c) <==> Position(cfg, i, c) == 1
  {
  }

  /** From two ticks behind channel `i`'s value on, that channel decides. */
  lemma LeaderDecides(cfg: Config, i: nat, c: int)
    requires Leads(cfg, i) && InRange(cfg, c) && Position(cfg, i, c) >= 2
    ensures NextGap(cfg, c) ==
            if Position(cfg, i, c) > cfg.half then NearestGap(cfg, c, |cfg.value|) else Turn(cfg) - Position(cfg, i, c)
  {
    PositionMoves(cfg, i, c);
    assert Decides(cfg, c, i);
    var k := Decider(cfg, c, 0);
    assert k <= i;
    assert k == i;
    hide Gap, Position;
  }

  lemma {:induction false} NearestIsLeast(cfg: Config, c: int, i: nat, j: nat)
    requires Valid(cfg) && InRange(cfg, c) && j < i <= |cfg.value| && cfg.compare[j]
    ensures 1 <= NearestGap(cfg, c, i) <= Gap(cfg, c, cfg.value[j])
  {
    NearestInTurn(cfg, c, i - 1);
    if j < i - 1 {
      NearestIsLeast(cfg, c, i - 1, j);
    }
    DistancePositive(cfg, c, cfg.value[i - 1]);
    hide Gap;
  }

  lemma DistancePositive(cfg: Config, c: int, v: int)
    requires Valid(cfg) && InRange(cfg, c) && InRange(cfg, v)
    ensures 1 <= Gap(cfg, c, v) <= Turn(cfg)
  {
  }

  lemma {:induction false} NearestInTurn(cfg: Config, c: int, i: nat)
    requires Valid(cfg) && InRange(cfg, c) && i <= |cfg.value|
    ensures 1 <= NearestGap(cfg, c, i) <= Turn(cfg)
    ensures NearestGap(cfg, c, i) == Turn(cfg)
            || exists j :: 0 <= j < i && cfg.compare[j] && Gap(cfg, c, cfg.value[j]) == NearestGap(cfg, c, i)
  {
    if i > 0 {
      NearestInTurn(cfg, c, i - 1);
      DistancePositive(cfg, c, cfg.value[i - 1]);
      hide Gap;
    }
  }

  /** One tick on, the nearest value is one tick nearer. */
  lemma {:induction false} NearestGoesDown(cfg: Config, c: int, i: nat)
    requires Valid(cfg) && InRange(cfg, c) && i <= |cfg.value| && NearestGap(cfg, c, i) >= 2
    ensures NearestGap(cfg, Inc(cfg, c), i) == NearestGap(cfg, c, i) - 1 || NearestGap(cfg, c, i) == Turn(cfg)
    ensures NearestGap(cfg, Inc(cfg, c), i) >= NearestGap(cfg, c, i) - 1
  {
    if i > 0 {
      NearestGoesDown(cfg, c, i - 1);
      GapCloses(cfg, c, cfg.value[i - 1]);
      NearestInTurn(cfg, Inc(cfg, c), i - 1);
      hide Gap;
    }
  }

  lemma UndecidedGap(cfg: Config, c: int, v: int)
    requires Valid(cfg) && InRange(cfg, c) && InRange(cfg, v) && v != c && v != Dec(cfg, c)
    ensures 1 <= Gap(cfg, c, v) <= Turn(cfg) - 2
  {
  }

  lemma NextGapBound(cfg: Config, c: int)
    requires Valid(cfg) && InRange(cfg, c)
    ensures 1 <= NextGap(cfg, c) <= Turn(cfg) - 1
  {
    var k := Decider(cfg, c, 0);
    if k < cfg.full {
      UndecidedGap(cfg, c, cfg.value[k]);
      NearestIsLeast(cfg, c, |cfg.value|, k);
    }
    hide Gap, NearestGap;
  }

  lemma WakeOrder(cfg: Config, i: nat)
    requires Leads(cfg, i)
    ensures 1 <= FirstWake(cfg, i) <= SecondWake(cfg, i) <= Turn(cfg)
    ensures FirstWake(cfg, i) < Turn(cfg) && SecondWake(cfg, i) >= 2
    ensures FirstWake(cfg, i) >= 2 ==> SecondWake(cfg, i) == FirstWake(cfg, i)
  {
    NextGapBound(cfg, cfg.value[i]);
    NextGapBound(cfg, Inc(cfg, cfg.value[i]));
    hide NextGap;
  }

  /** At a position where CaptureCompare runs, the scan finds the next such position. */
  lemma ScanOnTurn(cfg: Config, i: nat, c: int)
    requires Leads(cfg, i) && InRange(cfg, c) && Woken(cfg, i, Position(cfg, i, c))
    ensures NextGap(cfg, c) == Left(cfg, i, c)
  {
    PositionMoves(cfg, i, c);
    WakeOrder(cfg, i);
    if Position(cfg, i, c) >= 2 {
      LeaderDecides(cfg, i, c);
    }
    hide Position, NextGap, NearestGap, ValueAt;
  }

  lemma {:induction false} NearestNow(cfg: Config, i: nat, c: int)
    requires Leads(cfg, i) && InRange(cfg, c)
    ensures NearestGap(cfg, c, |cfg.value|) == 1 <==> ValueAt(cfg, i, Position(cfg, i, Inc(cfg, c)))
  {
    var n := |cfg.value|;
    NearestInTurn(cfg, c, n);
    if NearestGap(cfg, c, n) == 1 {
      var j :| 0 <= j < n && cfg.compare[j] && Gap(cfg, c, cfg.value[j]) == 1;
      GapCloses(cfg, c, cfg.value[j]);
    }
    if ValueAt(cfg, i, Position(cfg, i, Inc(cfg, c))) {
      var j :| 0 <= j < n && cfg.compare[j] && Position(cfg, i, cfg.value[j]) == Position(cfg, i, Inc(cfg, c));
      GapCloses(cfg, c, cfg.value[j]);
      NearestIsLeast(cfg, c, n, j);
    }
  }

  lemma LeaderAtZero(cfg: Config, i: nat)
    requires Leads(cfg, i)
    ensures ValueAt(cfg, i, 0)
  {
    assert Position(cfg, i, cfg.value[i]) == 0;
  }

  /** The countdown runs out exactly at the positions listed. */
  lemma LeftIsOne(cfg: Config, i: nat, c: int)
    requires Leads(cfg, i) && InRange(cfg, c)
    ensures Left(cfg, i, c) == 1 <==> Woken(cfg, i, Position(cfg, i, Inc(cfg, c)))
    ensures Left(cfg, i, c) >= 2 ==> Left(cfg, i, Inc(cfg, c)) == Left(cfg, i, c) - 1
    ensures Left(cfg, i, c) >= 1
  {
    PositionMoves(cfg, i, c);
    WakeOrder(cfg, i);
    NearestNow(cfg, i, c);
    LeaderAtZero(cfg, i);
    NearestIsLeast(cfg, c, |cfg.value|, i);
    if NearestGap(cfg, c, |cfg.value|) >= 2 {
      NearestGoesDown(cfg, c, |cfg.value|);
    }
    hide Position, NextGap, NearestGap, ValueAt, Gap, Inc, FirstWake, SecondWake;
  }

  /** A tick keeps the turn's schedule and runs CaptureCompare at its positions only. */
  lemma TurnTick(cfg: Config, i: nat, s: Snapshot)
    requires OnTurn(cfg, i, s)
    ensures var r := OneTick(cfg, FreeRunning, s);
            && OnTurn(cfg, i, r) && r.count == Inc(cfg, s.count)
            && (Runs(cfg, FreeRunning, s) <==> Woken(cfg, i, Position(cfg, i, r.count)))
  {
    var r := OneTick(cfg, FreeRunning, s);
    FreeTick(cfg, s);
    LeftIsOne(cfg, i, s.count);
    hide OneTick, Scan, Runs, Left, Woken, Fuse, Position;
    if Runs(cfg, FreeRunning, s) {
      FreshIs(cfg, r);
      ScanOnTurn(cfg, i, r.count);
    }
  }

  lemma {:induction false} TurnRun(cfg: Config, i: nat, s: Snapshot, n: nat)
    requires OnTurn(cfg, i, s)
    ensures OnTurn(cfg, i, Ticks(cfg, FreeRunning, s, n))
  {
    assert Valid(cfg) && |s.pins| == |cfg.value|;
    hide OneTick, OnTurn, Runs, Woken;
    if n > 0 {
      TurnRun(cfg, i, s, n - 1);
      TurnTick(cfg, i, Ticks(cfg, FreeRunning, s, n - 1));
    }
  }

  /** A scan where CaptureCompare is due starts the schedule. */
  lemma ScannedOnTurn(cfg: Config, i: nat, s: Snapshot)
    requires Leads(cfg, i) && Proper(cfg, s) && s.next == Scan(cfg, FreeRunning, s, |cfg.value|)
    requires Woken(cfg, i, Position(cfg, i, s.count))
    ensures OnTurn(cfg, i, s)
  {
    FreshIs(cfg, s);
    ScanOnTurn(cfg, i, s.count);
  }

  /**
   * Any number of channels, any values, any number of turns after a scan on the first channel's value (or at
   * another position of its schedule): a tick runs CaptureCompare exactly if it reaches one of the positions
   * of the schedule. So each value is served on every turn or on none.
   */
  lemma FreeServesExactly(cfg: Config, i: nat, s: Snapshot, n: nat, t: nat)
    requires Leads(cfg, i) && Proper(cfg, s) && s.next == Scan(cfg, FreeRunning, s, |cfg.value|)
    requires Woken(cfg, i, Position(cfg, i, s.count))
    requires 1 <= t <= n && forall x :: x in s.served ==> x <= s.now
    ensures s.now + t in Ticks(cfg, FreeRunning, s, n).served
            <==> Woken(cfg, i, Position(cfg, i, Ticks(cfg, FreeRunning, s, t).count))
  {
    hide OneTick, Runs, Scan, OnTurn, Woken, Position;
    ScannedOnTurn(cfg, i, s);
    ServedIff(cfg, FreeRunning, s, n, t);
    TurnRun(cfg, i, s, t - 1);
    TurnTick(cfg, i, Ticks(cfg, FreeRunning, s, t - 1));
  }

  // ---------- the first channel is never missed ----------

  lemma NextNotPast(cfg: Config, i: nat, c: int)
    requires Leads(cfg, i) && InRange(cfg, c)
    ensures NextGap(cfg, c) <= Gap(cfg, c, cfg.value[i])
  {
    PositionMoves(cfg, i, c);
    NextGapBound(cfg, c);
    NearestIsLeast(cfg, c, |cfg.value|, i);
    if Position(cfg, i, c) >= 2 {
      LeaderDecides(cfg, i, c);
    }
    hide Position, NextGap, NearestGap, Gap;
  }

  /** The countdown does not go past channel `i`'s value. */
  predicate NotPast(cfg: Config, i: nat, s: Snapshot) {
    Proper(cfg, s) && Leads(cfg, i) && Fuse(cfg, s.next) <= Gap(cfg, s.count, cfg.value[i])
  }

  lemma NotPastTick(cfg: Config, i: nat, s: Snapshot)
    requires NotPast(cfg, i, s)
    ensures var r := OneTick(cfg, FreeRunning, s);
            && NotPast(cfg, i, r) && r.count == Inc(cfg, s.count)
            && (r.count == cfg.value[i] ==> Runs(cfg, FreeRunning, s) && OnTurn(cfg, i, r))
  {
    var r := OneTick(cfg, FreeRunning, s);
    FreeTick(cfg, s);
    FuseBurns(cfg, s.next);
    GapCloses(cfg, s.count, cfg.value[i]);
    PositionMoves(cfg, i, r.count);
    DistancePositive(cfg, r.count, cfg.value[i]);
    hide OneTick, Scan, Runs, Fuse, Gap, OnTurn, Position, Inc;
    if Runs(cfg, FreeRunning, s) {
      FreshIs(cfg, r);
      NextNotPast(cfg, i, r.count);
      if r.count == cfg.value[i] {
        ScannedOnTurn(cfg, i, r);
      }
    }
  }

  /** From any scan: the way to channel `i`'s value, and the schedule from there on. */
  lemma {:induction false} ReachesSchedule(cfg: Config, i: nat, s: Snapshot, n: nat)
    requires Leads(cfg, i) && Proper(cfg, s) && s.next == Scan(cfg, FreeRunning, s, |cfg.value|)
    ensures var r, g := Ticks(cfg, FreeRunning, s, n), Gap(cfg, s.count, cfg.value[i]);
            if n < g then NotPast(cfg, i, r) && Gap(cfg, r.count, cfg.value[i]) == g - n else OnTurn(cfg, i, r)
  {
    hide OneTick, Scan, Gap, OnTurn, Runs, Woken;
    if n == 0 {
      FreshIs(cfg, s);
      NextNotPast(cfg, i, s.count);
      DistancePositive(cfg, s.count, cfg.value[i]);
    } else {
      ReachesSchedule(cfg, i, s, n - 1);
      var q := Ticks(cfg, FreeRunning, s, n - 1);
      if n - 1 < Gap(cfg, s.count, cfg.value[i]) {
        NotPastTick(cfg, i, q);
        GapCloses(cfg, q.count, cfg.value[i]);
      } else {
        TurnTick(cfg, i, q);
      }
    }
  }

  /** From any scan, with any number of channels: every arrival at the first channel's value is served, and after
      the first of them exactly the positions of the schedule are. */
  lemma FirstNeverMissed(cfg: Config, i: nat, s: Snapshot, n: nat, t: nat)
    requires Leads(cfg, i) && Proper(cfg, s) && s.next == Scan(cfg, FreeRunning, s, |cfg.value|)
    requires 1 <= t <= n && forall x :: x in s.served ==> x <= s.now
    ensures var served, c := Ticks(cfg, FreeRunning, s, n).served, Ticks(cfg, FreeRunning, s, t).count;
            && (c == cfg.value[i] ==> s.now + t in served)
            && (t >= Gap(cfg, s.count, cfg.value[i]) ==> (s.now + t in served <==> Woken(cfg, i, Position(cfg, i, c))))
  {
    assert Position(cfg, i, cfg.value[i]) == 0;
    hide OneTick, Runs, Scan, OnTurn, Position, Gap;
    ServedIff(cfg, FreeRunning, s, n, t);
    ReachesSchedule(cfg, i, s, t - 1);
    var q := Ticks(cfg, FreeRunning, s, t - 1);
    if t - 1 < Gap(cfg, s.count, cfg.value[i]) {
      NotPastTick(cfg, i, q);
      GapCloses(cfg, q.count, cfg.value[i]);
    } else {
      TurnTick(cfg, i, q);
    }
  }

  // ---------- when nothing is missed ----------

  /** The test on the registers: every enabled value is at a position of the schedule. */
  predicate NothingHidden(cfg: Config, i: nat)
    requires Valid(cfg) && i < |cfg.value|
  {
    forall j :: 0 <= j < |cfg.value| && cfg.compare[j] ==> Woken(cfg, i, Position(cfg, i, cfg.value[j]))
  }

  lemma {:induction false} CountAfter(cfg: Config, s: Snapshot, v: int) returns (t: nat)
    requires Proper(cfg, s) && InRange(cfg, v)
    ensures t == Gap(cfg, s.count, v) && t >= 1 && Ticks(cfg, FreeRunning, s, t).count == v
  {
    DistancePositive(cfg, s.count, v);
    t := Gap(cfg, s.count, v);
    CountsOn(cfg, s, v, t);
  }

  lemma {:induction false} CountsOn(cfg: Config, s: Snapshot, v: int, n: nat)
    requires Proper(cfg, s) && InRange(cfg, v) && n <= Gap(cfg, s.count, v)
    ensures var r := Ticks(cfg, FreeRunning, s, n);
            Proper(cfg, r)
            && if n < Gap(cfg, s.count, v) then Gap(cfg, r.count, v) == Gap(cfg, s.count, v) - n else r.count == v
  {
    hide OneTick, Gap, Scan, Runs;
    DistancePositive(cfg, s.count, v);
    if n > 0 {
      CountsOn(cfg, s, v, n - 1);
      var q := Ticks(cfg, FreeRunning, s, n - 1);
      FreeTick(cfg, q);
      GapCloses(cfg, q.count, v);
    }
  }

  /**
   * From a scan on an enabled value, with any number of channels: every arrival at an enabled value, on every
   * turn, is served if and only if every enabled value is at a position of the schedule.
   */
  lemma AllServedIff(cfg: Config, i: nat, s: Snapshot)
    requires Leads(cfg, i) && Proper(cfg, s) && s.next == Scan(cfg, FreeRunning, s, |cfg.value|)
    requires Hit(cfg, s.count) && forall x :: x in s.served ==> x <= s.now
    ensures (forall t: nat :: t >= 1 ==> ServedIfHit(cfg, FreeRunning, s, t)) <==> NothingHidden(cfg, i)
  {
    hide OneTick, Scan, Woken, Position, Gap;
    if NothingHidden(cfg, i) {
      forall t: nat | t >= 1
        ensures ServedIfHit(cfg, FreeRunning, s, t)
      {
        FreeServesExactly(cfg, i, s, t, t);
      }
    }
    if forall t: nat :: t >= 1 ==> ServedIfHit(cfg, FreeRunning, s, t) {
      forall j | 0 <= j < |cfg.value| && cfg.compare[j]
        ensures Woken(cfg, i, Position(cfg, i, cfg.value[j]))
      {
        MustBeWoken(cfg, i, s, j);
      }
    }
  }

  /** A second arrival comes after the first channel's value. */
  lemma MustBeWoken(cfg: Config, i: nat, s: Snapshot, j: nat)
    requires Leads(cfg, i) && Proper(cfg, s) && s.next == Scan(cfg, FreeRunning, s, |cfg.value|)
    requires forall x :: x in s.served ==> x <= s.now
    requires forall t: nat :: t >= 1 ==> ServedIfHit(cfg, FreeRunning, s, t)
    requires j < |cfg.value| && cfg.compare[j]
    ensures Woken(cfg, i, Position(cfg, i, cfg.value[j]))
  {
    hide OneTick, Scan, Woken, Position, Gap;
    var a := CountAfter(cfg, s, cfg.value[i]);
    CountsOn(cfg, s, cfg.value[i], a);
    var r := Ticks(cfg, FreeRunning, s, a);
    var b := CountAfter(cfg, r, cfg.value[j]);
    TicksSplit(cfg, FreeRunning, s, a, b);
    FirstNeverMissed(cfg, i, s, a + b, a + b);
    assert ServedIfHit(cfg, FreeRunning, s, a + b);
  }

  // ---------- three channels ----------

  /** Three fully scanned channels with different values, and no others, are in compare mode. */
  predicate Three(cfg: Config, i: nat, j: nat, k: nat) {
    && Valid(cfg) && i < j < k < cfg.full
    && (forall l :: 0 <= l < |cfg.value| ==> (cfg.compare[l] <==> l == i || l == j || l == k))
    && cfg.value[i] != cfg.value[j] && cfg.value[i] != cfg.value[k] && cfg.value[j] != cfg.value[k]
  }

  /** The second value one tick after the first; or the third one tick after it and the second within half a turn;
      or both in the second half of the turn, in order; or the second value last and the third no exception to it. */
  predicate InOrder(cfg: Config, i: nat, j: nat, k: nat)
    requires Three(cfg, i, j, k)
  {
    var q, r := Position(cfg, i, cfg.value[j]), Position(cfg, i, cfg.value[k]);
    || q == 1
    || (q < cfg.half && r == 1)
    || cfg.half < q < r
    || (q == Turn(cfg) - 1 && (r == 1 || r > cfg.half))
  }

  /** The third value comes first, two ticks or more after the first channel's, and the second one is in the same
      half of the turn, or is the last value of the turn. */
  predicate SecondHidden(cfg: Config, i: nat, j: nat, k: nat)
    requires Three(cfg, i, j, k)
  {
    var q, r := Position(cfg, i, cfg.value[j]), Position(cfg, i, cfg.value[k]);
    2 <= r < q < cfg.half || (q == Turn(cfg) - 1 && 2 <= r <= cfg.half)
  }

  lemma {:induction false} NearestSkips(cfg: Config, c: int, a: nat, b: nat)
    requires Valid(cfg) && a <= b <= |cfg.value| && forall l :: a <= l < b ==> !cfg.compare[l]
    ensures NearestGap(cfg, c, b) == NearestGap(cfg, c, a)
  {
    if a < b {
      NearestSkips(cfg, c, a, b - 1);
    }
  }

  lemma NearestOfThree(cfg: Config, i: nat, j: nat, k: nat, c: int)
    requires Three(cfg, i, j, k) && InRange(cfg, c)
    ensures var g0, g1, g2 := Gap(cfg, c, cfg.value[i]), Gap(cfg, c, cfg.value[j]), Gap(cfg, c, cfg.value[k]);
            var m := if g1 < g0 then g1 else g0;
            NearestGap(cfg, c, |cfg.value|) == if g2 < m then g2 else m
  {
    NearestSkips(cfg, c, 0, i);
    NearestSkips(cfg, c, i + 1, j);
    NearestSkips(cfg, c, j + 1, k);
    NearestSkips(cfg, c, k + 1, |cfg.value|);
    DistancePositive(cfg, c, cfg.value[i]);
    assert NearestGap(cfg, c, 0) == Turn(cfg);
    hide Gap;
  }

  lemma DeciderOfThree(cfg: Config, i: nat, j: nat, k: nat, c: int)
    requires Three(cfg, i, j, k)
    ensures Decider(cfg, c, 0) == if Decides(cfg, c, i) then i else if Decides(cfg, c, j) then j
                                  else if Decides(cfg, c, k) then k else cfg.full
  {
    var d := Decider(cfg, c, 0);
    assert Decides(cfg, c, i) ==> d <= i;
    assert Decides(cfg, c, j) ==> d <= j;
    assert Decides(cfg, c, k) ==> d <= k;
  }

  /** Gaps from the first channel's value and from the count after it. */
  lemma GapsByPosition(cfg: Config, i: nat, v: int)
    requires Valid(cfg) && i < |cfg.value| && InRange(cfg, v)
    ensures var x, p := cfg.value[i], Position(cfg, i, v);
            && 0 <= p < Turn(cfg) && (p == 0 <==> v == x) && (p == 1 <==> v == Inc(cfg, x))
            && (p == Turn(cfg) - 1 <==> v == Dec(cfg, x))
            && Gap(cfg, x, v) == (if p == 0 then Turn(cfg) else p)
            && Gap(cfg, Inc(cfg, x), v) == (if p <= 1 then Turn(cfg) - 1 + p else p - 1)
            && Dec(cfg, Inc(cfg, x)) == x && InRange(cfg, Inc(cfg, x))
  {
  }

  lemma WakesOfThree(cfg: Config, i: nat, j: nat, k: nat)
    requires Three(cfg, i, j, k)
    ensures var q, r := Position(cfg, i, cfg.value[j]), Position(cfg, i, cfg.value[k]);
            var first := if q != Turn(cfg) - 1 then q else r;
            var w1 := if first >= cfg.half then first else if q < r then q else r;
            && 1 <= q < Turn(cfg) && 1 <= r < Turn(cfg) && q != r
            && FirstWake(cfg, i) == w1 && SecondWake(cfg, i) == if w1 == 1 then (if q == 1 then r else q) else w1
  {
    var x, c := cfg.value[i], Inc(cfg, cfg.value[i]);
    GapsByPosition(cfg, i, x);
    GapsByPosition(cfg, i, cfg.value[j]);
    GapsByPosition(cfg, i, cfg.value[k]);
    DeciderOfThree(cfg, i, j, k, x);
    DeciderOfThree(cfg, i, j, k, c);
    NearestOfThree(cfg, i, j, k, x);
    NearestOfThree(cfg, i, j, k, c);
    if Position(cfg, i, cfg.value[j]) == Position(cfg, i, cfg.value[k]) {
      SamePosition(cfg, i, cfg.value[j], cfg.value[k]);
    }
    hide Gap, Position, Decider, NearestGap, Inc, Dec;
  }

  lemma SamePosition(cfg: Config, i: nat, v: int, w: int)
    requires Valid(cfg) && i < |cfg.value| && InRange(cfg, v)
    requires InRange(cfg, w) && Position(cfg, i, v) == Position(cfg, i, w)
    ensures v == w
  {
  }

  /**
   * Three channels, all values: every arrival is served on every turn if and only if the values are in order.
   * Otherwise exactly one channel is lost, on every turn: the second if the third hides it, else the third.
   */
  lemma ThreeServedIff(cfg: Config, i: nat, j: nat, k: nat)
    requires Three(cfg, i, j, k)
    ensures Leads(cfg, i) && (NothingHidden(cfg, i) <==> InOrder(cfg, i, j, k))
    ensures Woken(cfg, i, Position(cfg, i, cfg.value[j])) <==> !SecondHidden(cfg, i, j, k)
    ensures Woken(cfg, i, Position(cfg, i, cfg.value[k])) <==> InOrder(cfg, i, j, k) || SecondHidden(cfg, i, j, k)
  {
    WakesOfThree(cfg, i, j, k);
    var q, r := Position(cfg, i, cfg.value[j]), Position(cfg, i, cfg.value[k]);
    assert ValueAt(cfg, i, q) && ValueAt(cfg, i, r);
    assert Position(cfg, i, cfg.value[i]) == 0;
    hide Position, FirstWake, SecondWake, ValueAt;
    assert Woken(cfg, i, q) <==> !SecondHidden(cfg, i, j, k);
    assert Woken(cfg, i, r) <==> InOrder(cfg, i, j, k) || SecondHidden(cfg, i, j, k);
    assert !(InOrder(cfg, i, j, k) && SecondHidden(cfg, i, j, k));
    if InOrder(cfg, i, j, k) {
      forall l | 0 <= l < |cfg.value| && cfg.compare[l]
        ensures Woken(cfg, i, Position(cfg, i, cfg.value[l]))
      {
      }
    }
  }

  /** The second channel lost on every turn: values 0, 3 and 2. */
  lemma SecondChannelLost(cfg: Config, s: Snapshot, n: nat, t: nat)
    requires cfg == Config(0x8000, 3, [0, 3, 2, 0, 0], [true, true, true, false, false], [0, 0, 0, 0, 0], true)
    requires Proper(cfg, s) && s.count == 0 && s.next == Scan(cfg, FreeRunning, s, 5) && s.served == []
    requires 1 <= t <= n && Ticks(cfg, FreeRunning, s, t).count == 3
    ensures s.now + t !in Ticks(cfg, FreeRunning, s, n).served
  {
    hide Ticks, Scan, Woken;
    ThreeServedIff(cfg, 0, 1, 2);
    ScheduleStarts(cfg, 0);
    FreeServesExactly(cfg, 0, s, n, t);
  }

  /** The third channel lost on every turn: values 3 and 6 above the first one's. */
  lemma ThirdChannelLost(cfg: Config, s: Snapshot, n: nat, t: nat)
    requires cfg == Config(0x8000, 3, [-0x8000, -0x7FFD, -0x7FFA, 0, 0], [true, true, true, false, false],
                           [0, 0, 0, 0, 0], true)
    requires Proper(cfg, s) && s.count == -0x8000 && s.next == Scan(cfg, FreeRunning, s, 5) && s.served == []
    requires 1 <= t <= n && Ticks(cfg, FreeRunning, s, t).count == -0x7FFA
    ensures s.now + t !in Ticks(cfg, FreeRunning, s, n).served
  {
    hide Ticks, Scan, Woken;
    ThreeServedIff(cfg, 0, 1, 2);
    ScheduleStarts(cfg, 0);
    FreeServesExactly(cfg, 0, s, n, t);
  }

  lemma ScheduleStarts(cfg: Config, i: nat)
    requires Valid(cfg) && i < |cfg.value|
    ensures Position(cfg, i, cfg.value[i]) == 0 && Woken(cfg, i, 0)
  {
  }
}
