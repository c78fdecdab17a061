/** Up/down mode of the timer with two channels: on which ticks CaptureCompare runs, for all register values. */
module TimerUpDown {
  import Arith
  import opened Timer
  import opened TimerLaws
  import opened TimerCountdown
  import opened TimerDown

  function Last(cfg: Config): int {
    2 * cfg.half - 1
  }

  /** Channel 1's value, unsigned. */
  function Second(cfg: Config): int
    requires TwoChannels(cfg)
  {
    U(cfg, cfg.value[1])
  }

  /** On the way up channel 0 hides channel 1: CC0 lies half a turn ahead or more, but is not the largest count. */
  predicate HiddenUp(cfg: Config)
    requires TwoChannels(cfg)
  {
    cfg.compare[0] && cfg.half <= Top(cfg) < Last(cfg)
  }

  /** Ticks until the countdown runs out, on the way up and on the way down. */
  function ExpectedUp(cfg: Config, c: int): int
    requires TwoChannels(cfg)
  {
    var top, v, e1 := Top(cfg), Second(cfg), cfg.compare[1];
    if cfg.compare[0] then (if e1 && c < v < top && !HiddenUp(cfg) then v - c else top - c)
    else if e1 && v > c then v - c
    else if e1 && v > 0 then Last(cfg) - (c - v)
    else Last(cfg) - c
  }

  function ExpectedDown(cfg: Config, c: int): int
    requires TwoChannels(cfg)
  {
    var top, v, e1 := Top(cfg), Second(cfg), cfg.compare[1];
    if e1 && v < top then
      (if c > v then c - v else if cfg.compare[0] then Last(cfg) + 1 - top + c else Last(cfg) - (v - c))
    else if e1 && v > top then Last(cfg) + 1 - v + c
    else Last(cfg) - (top - c)
  }

  predicate OnCourse(cfg: Config, s: Snapshot) {
    && TwoChannels(cfg) && OnTriangle(cfg, s) && InRange(cfg, s.next)
    && Fuse(cfg, s.next) == if s.down then ExpectedDown(cfg, U(cfg, s.count)) else ExpectedUp(cfg, U(cfg, s.count))
  }

  lemma ScanUp(cfg: Config, s: Snapshot)
    requires TwoChannels(cfg) && InRange(cfg, s.count) && !s.down
    ensures var d0, d1 := Sub(cfg, cfg.value[0], s.count), Sub(cfg, cfg.value[1], s.count);
            var first := if cfg.compare[0] && d0 != 0 then d0 else -1;
            Scan(cfg, UpDown, s, 2) ==
            if cfg.compare[1] && (0 < d1 < first || (first == -1 && d1 != 0)) then d1 else first
  {
    assert Scan(cfg, UpDown, s, 0) == -1;
    assert Scan(cfg, UpDown, s, 1) ==
           if cfg.compare[0] && Sub(cfg, cfg.value[0], s.count) != 0 then Sub(cfg, cfg.value[0], s.count) else -1;
  }

  lemma ScanDown(cfg: Config, s: Snapshot)
    requires TwoChannels(cfg) && InRange(cfg, s.count) && s.down
    ensures var d0, d1 := Sub(cfg, s.count, cfg.value[0]), Sub(cfg, s.count, cfg.value[1]);
            var first := if cfg.compare[0] && d0 != 0 then d0 else -1;
            Scan(cfg, UpDown, s, 2) ==
            if cfg.compare[1] && (0 < d1 < first || (first == -1 && d1 != 0)) then d1 else first
  {
    assert Scan(cfg, UpDown, s, 0) == -1;
    assert Scan(cfg, UpDown, s, 1) ==
           if cfg.compare[0] && Sub(cfg, s.count, cfg.value[0]) != 0 then Sub(cfg, s.count, cfg.value[0]) else -1;
  }

  lemma ScannedUp(cfg: Config, s: Snapshot)
    requires TwoChannels(cfg) && OnTriangle(cfg, s) && !s.down && s.next == Scan(cfg, UpDown, s, 2)
    requires s.count == 0 || (cfg.compare[1] && s.count == cfg.value[1] && !HiddenUp(cfg))
    ensures OnCourse(cfg, s)
  {
    ScanUp(cfg, s);
    ScanInRange(cfg, UpDown, s, 2);
    SubDown(cfg, cfg.value[0], s.count);
    SubDown(cfg, cfg.value[1], s.count);
    var d0 := Sub(cfg, cfg.value[0], s.count);
    assert d0 > 0 <==> 0 < Top(cfg) - U(cfg, s.count) < cfg.half;
    hide Scan, Sub;
  }

  lemma ScannedDown(cfg: Config, s: Snapshot)
    requires TwoChannels(cfg) && OnTriangle(cfg, s) && s.down && s.next == Scan(cfg, UpDown, s, 2)
    requires s.count == cfg.value[0] || (cfg.compare[1] && s.count == cfg.value[1])
    ensures OnCourse(cfg, s)
  {
    ScanDown(cfg, s);
    ScanInRange(cfg, UpDown, s, 2);
    SubDown(cfg, s.count, cfg.value[0]);
    SubDown(cfg, s.count, cfg.value[1]);
    hide Scan, Sub;
  }

  /** Whether the tick that arrives at `after`, going down or up, is served. */
  predicate ServedAt(cfg: Config, down: bool, after: int)
    requires TwoChannels(cfg)
  {
    var top, v, e1 := Top(cfg), Second(cfg), cfg.compare[1];
    if down then (e1 && after == cfg.value[1] && v < top) || (after == 0 && top == Last(cfg) && (!e1 || v == top))
    else
      || (e1 && after == cfg.value[1] && v > 0 && (v == top || !HiddenUp(cfg)))
      || (after == cfg.value[0] && (cfg.compare[0] || (top == Last(cfg) && (!e1 || v == 0))))
  }

  lemma UpDownTick(cfg: Config, s: Snapshot)
    requires OnTriangle(cfg, s) && InRange(cfg, s.next)
    ensures var r := OneTick(cfg, UpDown, s);
            && OnTriangle(cfg, r) && InRange(cfg, r.next)
            && r.count == Moved(cfg, UpDown, s).count == (if s.down then Dec(cfg, s.count) else Inc(cfg, s.count))
            && U(cfg, r.count) == (if s.down then U(cfg, s.count) - 1 else U(cfg, s.count) + 1)
            && r.down == (if s.down then r.count != 0 else r.count == cfg.value[0])
            && (Runs(cfg, UpDown, s) <==> s.next == 1)
            && r.next == (if s.next == 1 || r.down != s.down then Scan(cfg, UpDown, r, |cfg.value|)
                          else Dec(cfg, s.next))
  {
    TickEffect(cfg, UpDown, s);
    UpDownAdvance(cfg, s);
    hide OneTick, Scan;
  }

  /** A tick is served where the countdown was expected to run out. */
  lemma ServedWhenExpected(cfg: Config, down: bool, c: int, after: int)
    requires TwoChannels(cfg) && InRange(cfg, after) && U(cfg, after) == (if down then c - 1 else c + 1) && 0 <= c
    requires c <= Top(cfg) && U(cfg, after) <= Top(cfg)
    ensures ServedAt(cfg, down, after) <==> (if down then ExpectedDown(cfg, c) else ExpectedUp(cfg, c)) == 1
  {
    SubDown(cfg, after, cfg.value[0]);
    SubDown(cfg, after, cfg.value[1]);
    hide Sub, Fuse;
  }

  /** Away from the ends and the served ticks the expected countdown goes down by one. */
  lemma ExpectedGoesDown(cfg: Config, down: bool, c: int)
    requires TwoChannels(cfg) && 0 <= c <= Top(cfg) && 0 <= (if down then c - 1 else c + 1) <= Top(cfg)
    ensures down && ExpectedDown(cfg, c) > 1 ==> ExpectedDown(cfg, c - 1) == ExpectedDown(cfg, c) - 1
    ensures !down && ExpectedUp(cfg, c) > 1 ==> ExpectedUp(cfg, c + 1) == ExpectedUp(cfg, c) - 1
  {
  }

  lemma CourseTick(cfg: Config, s: Snapshot)
    requires OnCourse(cfg, s)
    ensures var r := OneTick(cfg, UpDown, s);
            && OnCourse(cfg, r) && (Runs(cfg, UpDown, s) <==> ServedAt(cfg, s.down, r.count))
            && r.count == Moved(cfg, UpDown, s).count
  {
    assert TwoChannels(cfg) && OnTriangle(cfg, s) && InRange(cfg, s.next);
    var r, c := OneTick(cfg, UpDown, s), U(cfg, s.count);
    CourseRange(cfg, s);
    UpDownTick(cfg, s);
    CourseRange(cfg, r);
    hide OneTick, Scan, Fuse, Runs, Moved, Inc, Dec, InRange, OnTriangle, U, Top, ExpectedUp, ExpectedDown, HiddenUp;
    FuseBurns(cfg, s.next);
    ServedWhenExpected(cfg, s.down, c, r.count);
    if s.next == 1 || r.down != s.down {
      ArrivesScanned(cfg, s, r);
    } else {
      ExpectedGoesDown(cfg, s.down, c);
    }
  }

  lemma CourseRange(cfg: Config, s: Snapshot)
    requires TwoChannels(cfg) && OnTriangle(cfg, s)
    ensures InRange(cfg, s.count) && 0 <= U(cfg, s.count) <= Top(cfg)
    ensures InRange(cfg, cfg.value[0]) && InRange(cfg, cfg.value[1])
  {
  }

  lemma ArrivesScanned(cfg: Config, s: Snapshot, r: Snapshot)
    requires TwoChannels(cfg) && OnTriangle(cfg, r) && r.next == Scan(cfg, UpDown, r, 2)
    requires r.down == (if s.down then r.count != 0 else r.count == cfg.value[0])
    requires r.down != s.down || ServedAt(cfg, s.down, r.count)
    ensures OnCourse(cfg, r)
  {
    hide Scan, OnTriangle, OnCourse;
    if r.down {
      ScannedDown(cfg, r);
    } else {
      ScannedUp(cfg, r);
    }
  }

  lemma {:induction false} CourseRun(cfg: Config, s: Snapshot, n: nat)
    requires OnCourse(cfg, s)
    ensures OnCourse(cfg, Ticks(cfg, UpDown, s, n))
  {
    assert Valid(cfg) && |s.pins| == |cfg.value|;
    hide OneTick, OnCourse, Runs, ServedAt;
    if n > 0 {
      CourseRun(cfg, s, n - 1);
      CourseTick(cfg, Ticks(cfg, UpDown, s, n - 1));
    }
  }

  /** Neither a missed value of channel 1 on the way up, nor a countdown of a whole turn that runs out at an end. */
  predicate NothingAmiss(cfg: Config)
    requires TwoChannels(cfg)
  {
    var top, v, e1 := Top(cfg), Second(cfg), cfg.compare[1];
    && !(HiddenUp(cfg) && e1 && 0 < v < top)
    && !(top == Last(cfg) && (!e1 || v == top || (v == 0 && !cfg.compare[0])))
  }

  lemma ServedIsHitIff(cfg: Config, down: bool, after: int)
    requires TwoChannels(cfg) && InRange(cfg, after) && cfg.value[0] != 0 && U(cfg, after) <= Top(cfg)
    requires if down then after != cfg.value[0] else after != 0
    ensures NothingAmiss(cfg) ==> (ServedAt(cfg, down, after) <==> Hit(cfg, after))
    ensures HiddenUp(cfg) && cfg.compare[1] && 0 < Second(cfg) < Top(cfg) && !down && after == cfg.value[1] ==>
              !(ServedAt(cfg, down, after) <==> Hit(cfg, after))
    ensures Top(cfg) == Last(cfg) && (!cfg.compare[1] || Second(cfg) == Top(cfg)) && down && after == 0 ==>
              !(ServedAt(cfg, down, after) <==> Hit(cfg, after))
    ensures Top(cfg) == Last(cfg) && cfg.compare[1] && Second(cfg) == 0
            && !cfg.compare[0] && !down && after == cfg.value[0] ==>
              !(ServedAt(cfg, down, after) <==> Hit(cfg, after))
  {
    HitTwo(cfg, after);
  }

  lemma RightIff(cfg: Config, s: Snapshot, n: nat)
    requires OnCourse(cfg, s)
    ensures var q := Ticks(cfg, UpDown, s, n); var after := Moved(cfg, UpDown, q).count;
            && OnCourse(cfg, q) && (RightAt(cfg, UpDown, s, n) <==> (ServedAt(cfg, q.down, after) <==> Hit(cfg, after)))
            && InRange(cfg, after) && U(cfg, after) <= Top(cfg)
            && (if q.down then after != cfg.value[0] else after != 0)
            && U(cfg, after) == if q.down then U(cfg, q.count) - 1 else U(cfg, q.count) + 1
  {
    var q := Ticks(cfg, UpDown, s, n);
    CourseRun(cfg, s, n);
    CourseTick(cfg, q);
    hide OneTick, Scan, ServedAt, Hit, Runs;
  }

  /** The tick of the first period that arrives at `x` on the way up or down. */
  lemma Arrives(cfg: Config, s: Snapshot, x: int, down: bool) returns (n: nat)
    requires OnCourse(cfg, s) && s.count == 0 && !s.down
    requires if down then 0 <= x < Top(cfg) else 0 < x <= Top(cfg)
    ensures var q := Ticks(cfg, UpDown, s, n);
            OnCourse(cfg, q) && q.down == down && U(cfg, Moved(cfg, UpDown, q).count) == x
  {
    hide Ticks, Scan, Moved, Fuse, ExpectedUp, ExpectedDown;
    n := if down then 2 * Top(cfg) - x - 1 else x - 1;
    UpDownClosedForm(cfg, s, n);
    Arith.DivModUnique(n, 2 * Top(cfg), 0, n);
    CourseRun(cfg, s, n);
    RightIff(cfg, s, n);
  }

  lemma WrongSomewhere(cfg: Config, s: Snapshot)
    requires OnCourse(cfg, s) && s.count == 0 && !s.down && !NothingAmiss(cfg)
    ensures exists n: nat :: !RightAt(cfg, UpDown, s, n)
  {
    var top := Top(cfg);
    var down := top == Last(cfg) && (!cfg.compare[1] || Second(cfg) == top);
    var x := if down then 0 else if top == Last(cfg) then top else Second(cfg);
    var n := Arrives(cfg, s, x, down);
    RightIff(cfg, s, n);
    var after := Moved(cfg, UpDown, Ticks(cfg, UpDown, s, n)).count;
    ServedIsHitIff(cfg, down, after);
    SubDown(cfg, after, cfg.value[0]);
    SubDown(cfg, after, cfg.value[1]);
    hide Ticks, Moved, ServedAt, Hit, RightAt, Sub, Fuse;
    assert !RightAt(cfg, UpDown, s, n);
  }

  /**
   * From a scan at 0 on the way up, for all register values with CC0 not 0: CaptureCompare runs on exactly the
   * enabled compare values if and only if channel 0 does not hide channel 1 on the way up and, when CC0 is the
   * largest count, channel 1 is in compare mode with a value other than CC0, and other than 0 if channel 0
   * is not in compare mode.
   */
  lemma UpDownRefinesIff(cfg: Config, s: Snapshot)
    requires TwoChannels(cfg) && OnTriangle(cfg, s) && s.count == 0 && !s.down && s.next == Scan(cfg, UpDown, s, 2)
    ensures Refines(cfg, UpDown, s) <==> NothingAmiss(cfg)
  {
    ScannedUp(cfg, s);
    ScanInRange(cfg, UpDown, s, 2);
    RefinesIff(cfg, UpDown, s);
    hide Scan, RightAt, Refines, ServedAt, Hit, NothingAmiss, Ticks, Moved, Fuse;
    if NothingAmiss(cfg) {
      forall n: nat
        ensures RightAt(cfg, UpDown, s, n)
      {
        RightIff(cfg, s, n);
        var q := Ticks(cfg, UpDown, s, n);
        ServedIsHitIff(cfg, q.down, Moved(cfg, UpDown, q).count);
      }
    } else {
      WrongSomewhere(cfg, s);
    }
  }
}
