/** Down mode of the timer with two channels: on which ticks CaptureCompare runs, for all register values. */
module TimerDown {
  import Arith
  import opened Timer
  import opened TimerLaws
  import opened TimerCountdown

  predicate TwoChannels(cfg: Config) {
    Valid(cfg) && cfg.full == 2 && |cfg.value| == 2
  }

  /** Channel 1 is in compare mode with a value below CC0, unsigned. */
  predicate Below(cfg: Config)
    requires TwoChannels(cfg)
  {
    cfg.compare[1] && U(cfg, cfg.value[1]) < Top(cfg)
  }

  /** Channel 1 is in compare mode with a value above CC0. */
  predicate Above(cfg: Config)
    requires TwoChannels(cfg)
  {
    cfg.compare[1] && U(cfg, cfg.value[1]) > Top(cfg)
  }

  /** The settings in which the countdown happens to run out at the reload. */
  predicate ReloadServed(cfg: Config)
    requires TwoChannels(cfg)
  {
    var top, last, v := Top(cfg), 2 * cfg.half - 1, U(cfg, cfg.value[1]);
    if Below(cfg) then (if cfg.compare[0] then top == last else v == last - 1)
    else if Above(cfg) then v == last
    else top == last - 1 || (top == last && (cfg.compare[0] || cfg.compare[1]))
  }

  /** And those in which it runs out at 0. */
  predicate ZeroServed(cfg: Config)
    requires TwoChannels(cfg)
  {
    Top(cfg) == 2 * cfg.half - 1 && !Below(cfg)
  }

  /** Ticks until the countdown runs out, at count `c`. */
  function Expected(cfg: Config, c: int): int
    requires TwoChannels(cfg)
  {
    var top, last, v := Top(cfg), 2 * cfg.half - 1, U(cfg, cfg.value[1]);
    if Below(cfg) then (if c > v then c - v else c + 1 + (if cfg.compare[0] then last - top else last - 1 - v))
    else if Above(cfg) then c + 1 + (last - v)
    else if top < last then c + 1 + (last - 1 - top)
    else if c > 0 then c
    else if cfg.compare[0] || cfg.compare[1] then 1 else last
  }

  predicate Due(cfg: Config, s: Snapshot) {
    TwoChannels(cfg) && WithinPeriod(cfg, s) && InRange(cfg, s.next)
    && Fuse(cfg, s.next) == Expected(cfg, U(cfg, s.count))
  }

  lemma ScanTwo(cfg: Config, s: Snapshot)
    requires TwoChannels(cfg) && InRange(cfg, s.count)
    ensures var d0, d1 := Sub(cfg, s.count, cfg.value[0]), Sub(cfg, s.count, cfg.value[1]);
            var first := if cfg.compare[0] && d0 != 0 then d0 else -1;
            Scan(cfg, Down, s, 2) ==
            if cfg.compare[1] && (0 < d1 < first || (first == -1 && d1 != 0)) then d1 else first
  {
    assert Scan(cfg, Down, s, 0) == -1;
    assert Scan(cfg, Down, s, 1) ==
           if cfg.compare[0] && s.count != cfg.value[0] then Sub(cfg, s.count, cfg.value[0]) else -1;
  }

  /** A signed distance downwards, in ticks. */
  lemma SubDown(cfg: Config, c: int, v: int)
    requires Valid(cfg) && InRange(cfg, c) && InRange(cfg, v)
    ensures var d, g := Sub(cfg, c, v), U(cfg, c) - U(cfg, v);
            && InRange(cfg, d) && (d == 0 <==> c == v) && (c == v <==> g == 0)
            && (d != 0 ==> Fuse(cfg, d) == if g > 0 then g else g + 2 * cfg.half)
            && 0 <= U(cfg, c) < 2 * cfg.half && 0 <= U(cfg, v) < 2 * cfg.half
  {
  }

  /** A scan at the reload, at channel 1's value or at 0 makes the countdown as expected. */
  lemma ScannedIsDue(cfg: Config, s: Snapshot)
    requires TwoChannels(cfg) && WithinPeriod(cfg, s) && s.next == Scan(cfg, Down, s, 2)
    requires s.count == cfg.value[0] || (Below(cfg) && s.count == cfg.value[1]) || (ZeroServed(cfg) && s.count == 0)
    ensures Due(cfg, s)
  {
    ScanTwo(cfg, s);
    ScanInRange(cfg, Down, s, 2);
    SubDown(cfg, s.count, cfg.value[0]);
    SubDown(cfg, s.count, cfg.value[1]);
    hide Scan, Sub;
  }

  /** Where a tick is served. */
  predicate Served(cfg: Config, before: int, after: int)
    requires TwoChannels(cfg)
  {
    || (Below(cfg) && after == cfg.value[1] && before != 0)
    || (before == 0 && ReloadServed(cfg))
    || (before != 0 && after == 0 && ZeroServed(cfg))
  }

  /** A tick is served where the countdown was expected to run out. */
  lemma ServedWhenExpected(cfg: Config, s: int, r: int)
    requires TwoChannels(cfg) && InRange(cfg, s) && InRange(cfg, r) && U(cfg, s) <= Top(cfg) && U(cfg, r) <= Top(cfg)
    requires U(cfg, r) == if s == 0 then Top(cfg) else U(cfg, s) - 1
    ensures Served(cfg, s, r) <==> Expected(cfg, U(cfg, s)) == 1
  {
    SubDown(cfg, s, cfg.value[1]);
    SubDown(cfg, r, cfg.value[1]);
    hide Sub, Fuse;
  }

  lemma ExpectedGoesDown(cfg: Config, c: int)
    requires TwoChannels(cfg) && 0 < c <= Top(cfg) && Expected(cfg, c) > 1
    ensures Expected(cfg, c - 1) == Expected(cfg, c) - 1
  {
  }

  lemma DueTick(cfg: Config, s: Snapshot)
    requires Due(cfg, s)
    ensures var r := OneTick(cfg, Down, s);
            && Due(cfg, r) && (Runs(cfg, Down, s) <==> Served(cfg, s.count, r.count))
            && r.count == if s.count == 0 then cfg.value[0] else Dec(cfg, s.count)
  {
    var r, c := OneTick(cfg, Down, s), U(cfg, s.count);
    TickEffect(cfg, Down, s);
    DownAdvance(cfg, s);
    assert Runs(cfg, Down, s) <==> s.next == 1;
    assert Rescans(cfg, Down, s) <==> s.count == 0;
    assert r.count == if s.count == 0 then cfg.value[0] else Dec(cfg, s.count);
    assert InRange(cfg, s.count) && InRange(cfg, r.count) && (s.count != 0 ==> 0 < c);
    hide OneTick, Scan, Fuse, Runs, Moved, Rescans, Expected, Served, Dec, U, InRange;
    FuseBurns(cfg, s.next);
    ServedWhenExpected(cfg, s.count, r.count);
    if s.next == 1 || s.count == 0 {
      ArrivesScanned(cfg, s, r);
    } else {
      ExpectedGoesDown(cfg, c);
    }
  }

  lemma ArrivesScanned(cfg: Config, s: Snapshot, r: Snapshot)
    requires TwoChannels(cfg) && WithinPeriod(cfg, r) && r.next == Scan(cfg, Down, r, 2)
    requires Served(cfg, s.count, r.count) || s.count == 0
    requires s.count == 0 ==> r.count == cfg.value[0]
    ensures Due(cfg, r)
  {
    hide Scan, WithinPeriod;
    ScannedIsDue(cfg, r);
  }

  lemma {:induction false} DueRun(cfg: Config, s: Snapshot, n: nat)
    requires Due(cfg, s)
    ensures Due(cfg, Ticks(cfg, Down, s, n))
  {
    assert Valid(cfg) && |s.pins| == |cfg.value|;
    hide OneTick, Due, Runs, Served;
    if n > 0 {
      DueRun(cfg, s, n - 1);
      DueTick(cfg, Ticks(cfg, Down, s, n - 1));
    }
  }

  /**
   * From a reload, for all register values and over any number of periods: a tick runs CaptureCompare
   * exactly if it counts down to channel 1's value below CC0, or one of the special settings makes the
   * countdown run out at the reload or at 0. A value equal to CC0 is not served as such.
   */
  lemma DownServesExactly(cfg: Config, s: Snapshot, n: nat, k: nat)
    requires TwoChannels(cfg) && WithinPeriod(cfg, s) && s.count == cfg.value[0] && s.next == Scan(cfg, Down, s, 2)
    requires 1 <= k <= n && forall t :: t in s.served ==> t <= s.now
    ensures s.now + k in Ticks(cfg, Down, s, n).served
            <==> Served(cfg, Ticks(cfg, Down, s, k - 1).count, Ticks(cfg, Down, s, k).count)
  {
    hide OneTick, Due, Runs, Served, Scan;
    ScannedIsDue(cfg, s);
    ScanInRange(cfg, Down, s, 2);
    ServedIff(cfg, Down, s, n, k);
    DueRun(cfg, s, k - 1);
    DueTick(cfg, Ticks(cfg, Down, s, k - 1));
  }

  /** The reload is served exactly if CC0 is an enabled value, and where the countdown runs out at 0, 0 is one. */
  predicate Exact(cfg: Config)
    requires TwoChannels(cfg)
  {
    && (ReloadServed(cfg) <==> Hit(cfg, cfg.value[0]))
    && (Top(cfg) > 0 && ZeroServed(cfg) ==> Hit(cfg, 0))
  }

  /** From a reload, for all register values: when CaptureCompare runs on exactly the enabled compare values. */
  lemma DownRefinesIff(cfg: Config, s: Snapshot)
    requires TwoChannels(cfg) && WithinPeriod(cfg, s) && s.count == cfg.value[0] && s.next == Scan(cfg, Down, s, 2)
    ensures Refines(cfg, Down, s) <==> Exact(cfg)
  {
    hide OneTick, Due, Runs, Scan, RightAt, ReloadServed, ZeroServed;
    ScannedIsDue(cfg, s);
    ScanInRange(cfg, Down, s, 2);
    RefinesIff(cfg, Down, s);
    if Exact(cfg) {
      forall n: nat
        ensures RightAt(cfg, Down, s, n)
      {
        ExactIsRight(cfg, s, n);
      }
    }
    if forall n: nat :: RightAt(cfg, Down, s, n) {
      RightIsExact(cfg, s);
    }
  }

  /** A tick is right where a served one is a hit and the other way round. */
  lemma RightIff(cfg: Config, s: Snapshot, n: nat)
    requires Due(cfg, s)
    ensures var q, r := Ticks(cfg, Down, s, n), Ticks(cfg, Down, s, n + 1);
            && Due(cfg, q) && Due(cfg, r)
            && (RightAt(cfg, Down, s, n) <==> (Served(cfg, q.count, r.count) <==> Hit(cfg, r.count)))
            && r.count == if q.count == 0 then cfg.value[0] else Dec(cfg, q.count)
  {
    var q := Ticks(cfg, Down, s, n);
    DueRun(cfg, s, n);
    DueTick(cfg, q);
    DueRun(cfg, s, n + 1);
    TickEffect(cfg, Down, q);
    hide OneTick, Due, Runs, Scan, Served, Hit, Moved, Rescans;
  }

  lemma HitTwo(cfg: Config, c: int)
    requires TwoChannels(cfg)
    ensures Hit(cfg, c) <==> (cfg.compare[0] && c == cfg.value[0]) || (cfg.compare[1] && c == cfg.value[1])
  {
    assert Hit(cfg, c) <== (cfg.compare[0] && c == cfg.value[0]);
    assert Hit(cfg, c) <== (cfg.compare[1] && c == cfg.value[1]);
  }

  lemma ExactIsRight(cfg: Config, s: Snapshot, n: nat)
    requires Due(cfg, s) && Exact(cfg)
    ensures RightAt(cfg, Down, s, n)
  {
    RightIff(cfg, s, n);
    var q, r := Ticks(cfg, Down, s, n), Ticks(cfg, Down, s, n + 1);
    HitTwo(cfg, r.count);
    HitTwo(cfg, cfg.value[0]);
    hide Ticks, RightAt, ReloadServed, Hit;
    assert U(cfg, q.count) <= Top(cfg) && InRange(cfg, q.count);
    assert r.count == cfg.value[1] && q.count != 0 && cfg.compare[1] ==> Below(cfg);
  }

  /** The tick that reaches 0 in the first period, if one does, and the reload after it. */
  lemma PeriodEnds(cfg: Config, s: Snapshot)
    requires Due(cfg, s) && s.count == cfg.value[0]
    ensures var top := Top(cfg);
            && top >= 0 && Ticks(cfg, Down, s, top).count == 0
            && (top > 0 ==> Ticks(cfg, Down, s, top - 1).count == 1)
  {
    assert WithinPeriod(cfg, s) && Top(cfg) >= 0;
    hide Ticks, Due, WithinPeriod;
    CountAt(cfg, s, Top(cfg));
    if Top(cfg) > 0 {
      CountAt(cfg, s, Top(cfg) - 1);
    }
  }

  /** The count after `n` ticks of the first period. */
  lemma CountAt(cfg: Config, s: Snapshot, n: nat)
    requires WithinPeriod(cfg, s) && s.count == cfg.value[0] && n <= Top(cfg)
    ensures var r := Ticks(cfg, Down, s, n);
            (n == Top(cfg) ==> r.count == 0) && (n == Top(cfg) - 1 ==> r.count == 1)
  {
    hide Ticks;
    DownClosedForm(cfg, s, n);
    Arith.DivModUnique(n, Top(cfg) + 1, 0, n);
  }

  lemma RightIsExact(cfg: Config, s: Snapshot)
    requires Due(cfg, s) && s.count == cfg.value[0] && forall n: nat :: RightAt(cfg, Down, s, n)
    ensures Exact(cfg)
  {
    assert TwoChannels(cfg) && |s.pins| == |cfg.value|;
    hide Ticks, RightAt, Hit, Due, ReloadServed, Below;
    var top := Top(cfg);
    PeriodEnds(cfg, s);
    RightIff(cfg, s, top);
    assert RightAt(cfg, Down, s, top);
    if top > 0 {
      RightIff(cfg, s, top - 1);
      assert RightAt(cfg, Down, s, top - 1);
      NotBelow(cfg);
    }
  }

  /** Where the countdown runs out at 0 channel 1 is not below CC0. */
  lemma NotBelow(cfg: Config)
    requires TwoChannels(cfg)
    ensures ZeroServed(cfg) ==> !Below(cfg)
  {
  }

  // ---------- channels 3 and 4 of timer 1 ----------

  /** Two channels in compare mode with values below CC0, `i` scanned in full and `j` above it not; CC0 is less than
      half a turn. */
  predicate FarAbove(cfg: Config, i: nat, j: nat) {
    && Valid(cfg) && i < cfg.full <= j < |cfg.value| && 0 <= cfg.value[i] < cfg.value[j] < cfg.value[0]
    && forall k :: 0 <= k < |cfg.value| ==> (cfg.compare[k] <==> k == i || k == j)
  }

  lemma ScanFarAbove(cfg: Config, s: Snapshot, i: nat, j: nat)
    requires FarAbove(cfg, i, j) && s.count == cfg.value[0]
    ensures Scan(cfg, Down, s, |cfg.value|) == cfg.value[0] - cfg.value[i]
  {
    ScanSkips(cfg, Down, s, 0, i);
    ScanSkips(cfg, Down, s, i + 1, j);
    ScanSkips(cfg, Down, s, j + 1, |cfg.value|);
    assert Scan(cfg, Down, s, 0) == -1;
    assert Scan(cfg, Down, s, i + 1) == cfg.value[0] - cfg.value[i];
  }

  /** Before the countdown is over and 0 reached, ticks only move the count and the countdown. */
  lemma {:induction false} DownCoast(cfg: Config, s: Snapshot, n: nat)
    requires WithinPeriod(cfg, s) && InRange(cfg, s.next) && n <= U(cfg, s.count) && n < Fuse(cfg, s.next)
    ensures var r := Ticks(cfg, Down, s, n);
            && WithinPeriod(cfg, r) && InRange(cfg, r.next) && U(cfg, r.count) == U(cfg, s.count) - n
            && Fuse(cfg, r.next) == Fuse(cfg, s.next) - n && r.served == s.served
  {
    if n > 0 {
      DownCoast(cfg, s, n - 1);
      var r := Ticks(cfg, Down, s, n - 1);
      TickEffect(cfg, Down, r);
      DownAdvance(cfg, r);
      FuseBurns(cfg, r.next);
      hide OneTick, Scan, Fuse;
    }
  }

  lemma StartsCoast(cfg: Config, s: Snapshot, i: nat, j: nat)
    requires FarAbove(cfg, i, j) && WithinPeriod(cfg, s) && s.count == cfg.value[0]
    requires s.next == cfg.value[0] - cfg.value[i]
    ensures InRange(cfg, s.next) && U(cfg, s.count) == cfg.value[0] && Fuse(cfg, s.next) == s.next
  {
  }

  lemma CoastEnds(cfg: Config, r: Snapshot, c: int)
    requires WithinPeriod(cfg, r) && U(cfg, r.count) == c < cfg.half && InRange(cfg, r.next)
    ensures r.count == c && (Fuse(cfg, r.next) == 1 ==> r.next == 1)
    ensures r.count > 0 && r.next == 1 ==> Runs(cfg, Down, r) && Moved(cfg, Down, r).count == c - 1
  {
  }

  /** Channels 3 and 4 measure upwards in every mode: in down mode the compare of such a channel, although first on the
      way down, is missed, and the other one's is served. */
  lemma FarChannelMissed(cfg: Config, s: Snapshot, i: nat, j: nat)
    requires FarAbove(cfg, i, j) && WithinPeriod(cfg, s) && s.count == cfg.value[0]
    requires s.next == Scan(cfg, Down, s, |cfg.value|)
    ensures var r := Ticks(cfg, Down, s, cfg.value[0] - cfg.value[j]); r.count == cfg.value[j] && r.served == s.served
    ensures var q := Ticks(cfg, Down, s, cfg.value[0] - cfg.value[i] - 1);
            Runs(cfg, Down, q) && Moved(cfg, Down, q).count == cfg.value[i]
  {
    hide Scan, Ticks;
    ScanFarAbove(cfg, s, i, j);
    StartsCoast(cfg, s, i, j);
    FarPassed(cfg, s, j);
    NearReached(cfg, s, i);
  }

  lemma FarPassed(cfg: Config, s: Snapshot, j: nat)
    requires WithinPeriod(cfg, s) && InRange(cfg, s.next)
    requires j < |cfg.value| && 0 <= cfg.value[j] < cfg.value[0] == s.count
    requires Fuse(cfg, s.next) > cfg.value[0] - cfg.value[j]
    ensures var r := Ticks(cfg, Down, s, cfg.value[0] - cfg.value[j]); r.count == cfg.value[j] && r.served == s.served
  {
    hide Ticks, Fuse;
    var n := cfg.value[0] - cfg.value[j];
    DownCoast(cfg, s, n);
    CoastEnds(cfg, Ticks(cfg, Down, s, n), cfg.value[j]);
  }

  lemma NearReached(cfg: Config, s: Snapshot, i: nat)
    requires WithinPeriod(cfg, s) && InRange(cfg, s.next)
    requires i < |cfg.value| && 0 <= cfg.value[i] < cfg.value[0] == s.count
    requires Fuse(cfg, s.next) == cfg.value[0] - cfg.value[i]
    ensures var q := Ticks(cfg, Down, s, cfg.value[0] - cfg.value[i] - 1);
            Runs(cfg, Down, q) && Moved(cfg, Down, q).count == cfg.value[i]
  {
    hide Ticks, Fuse, Runs, Moved;
    var n := cfg.value[0] - cfg.value[i] - 1;
    DownCoast(cfg, s, n);
    CoastEnds(cfg, Ticks(cfg, Down, s, n), cfg.value[i] + 1);
  }
}
