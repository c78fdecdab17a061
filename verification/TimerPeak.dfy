/** Up/down mode with any number of channels, timer 1's five among them: the compare at CC0 is never missed. */
module TimerPeak {
  import Arith
  import opened Timer
  import opened TimerLaws
  import opened TimerCountdown
  import Waves = TimerUpDown

  /** On the way up a scan never looks past CC0, whatever the other channels. */
  lemma {:induction false} ScanBelowPeak(cfg: Config, s: Snapshot, i: nat)
    requires OnTriangle(cfg, s) && !s.down && cfg.compare[0] && 1 <= i <= |cfg.value|
    ensures InRange(cfg, Scan(cfg, UpDown, s, i)) && Fuse(cfg, Scan(cfg, UpDown, s, i)) <= Top(cfg) - U(cfg, s.count)
  {
    ScanInRange(cfg, UpDown, s, i);
    if i == 1 {
      assert Scan(cfg, UpDown, s, 0) == -1;
    } else {
      ScanBelowPeak(cfg, s, i - 1);
    }
  }

  /** On the way up the countdown does not go past CC0. */
  predicate BelowPeak(cfg: Config, s: Snapshot) {
    && OnTriangle(cfg, s) && InRange(cfg, s.next) && cfg.compare[0]
    && (!s.down ==> Fuse(cfg, s.next) <= Top(cfg) - U(cfg, s.count))
  }

  lemma BelowPeakTick(cfg: Config, s: Snapshot)
    requires BelowPeak(cfg, s)
    ensures var r := OneTick(cfg, UpDown, s);
            BelowPeak(cfg, r) && (!s.down && r.count == cfg.value[0] ==> Runs(cfg, UpDown, s))
  {
    var r := OneTick(cfg, UpDown, s);
    Waves.UpDownTick(cfg, s);
    FuseBurns(cfg, s.next);
    hide OneTick, Scan, Fuse, Runs, Moved;
    if !r.down && (s.next == 1 || r.down != s.down) {
      ScanBelowPeak(cfg, r, |cfg.value|);
    }
  }

  lemma {:induction false} BelowPeakRun(cfg: Config, s: Snapshot, n: nat)
    requires BelowPeak(cfg, s)
    ensures BelowPeak(cfg, Ticks(cfg, UpDown, s, n))
  {
    assert Valid(cfg) && |s.pins| == |cfg.value|;
    hide OneTick, BelowPeak, Runs;
    if n > 0 {
      BelowPeakRun(cfg, s, n - 1);
      BelowPeakTick(cfg, Ticks(cfg, UpDown, s, n - 1));
    }
  }

  /**
   * Up/down mode with channel 0 in compare mode and any other channels, from a scan on the way up or from
   * anywhere on the way down, for all register values with CC0 not 0: every arrival at CC0 runs CaptureCompare.
   */
  lemma PeakAlwaysServed(cfg: Config, s: Snapshot, n: nat, k: nat)
    requires OnTriangle(cfg, s) && InRange(cfg, s.next) && cfg.compare[0]
    requires s.down || s.next == Scan(cfg, UpDown, s, |cfg.value|)
    requires 1 <= k <= n && forall t :: t in s.served ==> t <= s.now
    requires !Ticks(cfg, UpDown, s, k - 1).down && Ticks(cfg, UpDown, s, k).count == cfg.value[0]
    ensures s.now + k in Ticks(cfg, UpDown, s, n).served
  {
    hide OneTick, Runs, Scan, Fuse;
    if !s.down {
      ScanBelowPeak(cfg, s, |cfg.value|);
    }
    ServedIff(cfg, UpDown, s, n, k);
    BelowPeakRun(cfg, s, k - 1);
    BelowPeakTick(cfg, Ticks(cfg, UpDown, s, k - 1));
  }

  // ---------- three channels ----------

  /** Timer 1's fully scanned channels are on and the others off; CC0 is below half a turn and above two different
      values of channels 1 and 2. */
  predicate ThreeBelow(cfg: Config) {
    && Valid(cfg) && cfg.full >= 3 && cfg.compare[0] && cfg.compare[1] && cfg.compare[2]
    && (forall j :: 3 <= j < |cfg.value| ==> !cfg.compare[j])
    && 0 <= cfg.value[1] < cfg.value[0] && 0 <= cfg.value[2] < cfg.value[0] && cfg.value[1] != cfg.value[2]
  }

  function Upper(cfg: Config): int
    requires ThreeBelow(cfg)
  {
    if cfg.value[1] < cfg.value[2] then cfg.value[2] else cfg.value[1]
  }

  function Lower(cfg: Config): int
    requires ThreeBelow(cfg)
  {
    if cfg.value[1] < cfg.value[2] then cfg.value[1] else cfg.value[2]
  }

  /** Ticks until the countdown runs out, on the way up and on the way down. */
  function LeftUp(cfg: Config, c: int): int
    requires ThreeBelow(cfg)
  {
    if c < Lower(cfg) then Lower(cfg) - c else if c < Upper(cfg) then Upper(cfg) - c else cfg.value[0] - c
  }

  function LeftDown(cfg: Config, c: int): int
    requires ThreeBelow(cfg)
  {
    if c > Upper(cfg) then c - Upper(cfg)
    else if Upper(cfg) == cfg.value[0] - 1 && c > Lower(cfg) then c - Lower(cfg)
    else 2 * cfg.half - cfg.value[0] + c
  }

  predicate OnWave(cfg: Config, s: Snapshot) {
    && ThreeBelow(cfg) && OnTriangle(cfg, s) && InRange(cfg, s.next)
    && Fuse(cfg, s.next) == if s.down then LeftDown(cfg, s.count) else LeftUp(cfg, s.count)
  }

  /** One channel's turn in a scan. */
  function Taken(next: int, d: int): int {
    if 0 < d < next || (next == -1 && d != 0) then d else next
  }

  lemma ScanThree(cfg: Config, s: Snapshot)
    requires ThreeBelow(cfg) && 0 <= s.count <= cfg.value[0]
    ensures var g := if s.down then 1 else -1;
            Scan(cfg, UpDown, s, |cfg.value|) ==
            Taken(Taken(Taken(-1, g * (s.count - cfg.value[0])), g * (s.count - cfg.value[1])),
                  g * (s.count - cfg.value[2]))
  {
    ScanSkips(cfg, UpDown, s, 3, |cfg.value|);
    assert Scan(cfg, UpDown, s, 0) == -1;
    assert Scan(cfg, UpDown, s, 1) == Taken(-1, Distance(cfg, UpDown, s, 0));
    assert Scan(cfg, UpDown, s, 2) == Taken(Scan(cfg, UpDown, s, 1), Distance(cfg, UpDown, s, 1));
    assert Scan(cfg, UpDown, s, 3) == Taken(Scan(cfg, UpDown, s, 2), Distance(cfg, UpDown, s, 2));
  }

  /** Where a tick runs CaptureCompare: at all values on the way up, but on the way down at the upper one only, unless
      it is next to CC0. */
  predicate ServedOn(cfg: Config, down: bool, after: int)
    requires ThreeBelow(cfg)
  {
    if down then after == Upper(cfg) || (Upper(cfg) == cfg.value[0] - 1 && after == Lower(cfg))
    else after == Lower(cfg) || after == Upper(cfg) || after == cfg.value[0]
  }

  /** A scan at an end or where CaptureCompare runs leaves the countdown as listed. */
  lemma ScannedOnWave(cfg: Config, r: Snapshot)
    requires ThreeBelow(cfg) && OnTriangle(cfg, r) && r.next == Scan(cfg, UpDown, r, |cfg.value|)
    requires r.count == 0 || r.count == cfg.value[0] || ServedOn(cfg, r.down, r.count)
    ensures OnWave(cfg, r)
  {
    ScanInRange(cfg, UpDown, r, |cfg.value|);
    ScanThree(cfg, r);
    hide Scan;
  }

  lemma WaveTick(cfg: Config, s: Snapshot)
    requires OnWave(cfg, s)
    ensures var r := OneTick(cfg, UpDown, s);
            && OnWave(cfg, r) && (Runs(cfg, UpDown, s) <==> ServedOn(cfg, s.down, r.count))
            && r.down == (if s.down then r.count != 0 else r.count == cfg.value[0])
  {
    var r := OneTick(cfg, UpDown, s);
    Waves.UpDownTick(cfg, s);
    FuseBurns(cfg, s.next);
    assert 0 <= s.count <= cfg.value[0] && 0 <= r.count <= cfg.value[0];
    hide OneTick, Scan, Fuse, Runs, Moved;
    if s.next == 1 || r.down != s.down {
      ScannedOnWave(cfg, r);
    }
  }

  lemma {:induction false} WaveRun(cfg: Config, s: Snapshot, n: nat)
    requires OnWave(cfg, s)
    ensures OnWave(cfg, Ticks(cfg, UpDown, s, n))
  {
    assert Valid(cfg) && |s.pins| == |cfg.value|;
    hide OneTick, OnWave, Runs, ServedOn;
    if n > 0 {
      WaveRun(cfg, s, n - 1);
      WaveTick(cfg, Ticks(cfg, UpDown, s, n - 1));
    }
  }

  /** From a scan at 0, over any number of periods: the exact ticks that run CaptureCompare. */
  lemma ThreeServesExactly(cfg: Config, s: Snapshot, n: nat, k: nat)
    requires ThreeBelow(cfg) && OnTriangle(cfg, s) && s.count == 0 && s.next == Scan(cfg, UpDown, s, |cfg.value|)
    requires 1 <= k <= n && forall t :: t in s.served ==> t <= s.now
    ensures s.now + k in Ticks(cfg, UpDown, s, n).served
            <==> ServedOn(cfg, Ticks(cfg, UpDown, s, k - 1).down, Ticks(cfg, UpDown, s, k).count)
  {
    ScannedOnWave(cfg, s);
    hide OneTick, OnWave, Runs, ServedOn, Scan;
    ServedIff(cfg, UpDown, s, n, k);
    WaveRun(cfg, s, k - 1);
    WaveTick(cfg, Ticks(cfg, UpDown, s, k - 1));
  }

  lemma AllHitsServed(cfg: Config, s: Snapshot, k: nat)
    requires ThreeBelow(cfg) && OnTriangle(cfg, s) && s.count == 0 && s.next == Scan(cfg, UpDown, s, |cfg.value|)
    requires k >= 1 && (forall t :: t in s.served ==> t <= s.now) && Upper(cfg) == cfg.value[0] - 1
    ensures ServedIfHit(cfg, UpDown, s, k)
  {
    hide *;
    Within(cfg, s);
    ThreeServesExactly(cfg, s, k, k);
    ArrivesWithin(cfg, s, k);
    HitIsServed(cfg, Ticks(cfg, UpDown, s, k - 1).down, Ticks(cfg, UpDown, s, k).count);
    ServedIs(cfg, s, k);
  }

  lemma Within(cfg: Config, s: Snapshot)
    requires OnTriangle(cfg, s)
    ensures Valid(cfg) && |s.pins| == |cfg.value|
  {
  }

  lemma ServedIs(cfg: Config, s: Snapshot, k: nat)
    requires Valid(cfg) && |s.pins| == |cfg.value|
    ensures var r := Ticks(cfg, UpDown, s, k);
            ServedIfHit(cfg, UpDown, s, k) <==> (Hit(cfg, r.count) ==> s.now + k in r.served)
  {
  }

  lemma HitIsServed(cfg: Config, down: bool, c: int)
    requires ThreeBelow(cfg) && Upper(cfg) == cfg.value[0] - 1 && (down ==> c != cfg.value[0])
    ensures Hit(cfg, c) ==> ServedOn(cfg, down, c)
  {
    if Hit(cfg, c) {
      var j :| 0 <= j < |cfg.value| && cfg.compare[j] && cfg.value[j] == c;
      assert j < 3;
    }
  }

  /** On the way down CC0 is left behind. */
  lemma ArrivesWithin(cfg: Config, s: Snapshot, k: nat)
    requires ThreeBelow(cfg) && OnTriangle(cfg, s) && s.count == 0
    requires s.next == Scan(cfg, UpDown, s, |cfg.value|) && k >= 1
    ensures var q, r := Ticks(cfg, UpDown, s, k - 1), Ticks(cfg, UpDown, s, k); q.down ==> r.count != cfg.value[0]
  {
    ScannedOnWave(cfg, s);
    WaveRun(cfg, s, k - 1);
    var q := Ticks(cfg, UpDown, s, k - 1);
    hide Scan, OneTick, Fuse, LeftUp, LeftDown;
    Waves.UpDownTick(cfg, q);
  }

  /** The first way down reaches the lower value. */
  lemma LowerReached(cfg: Config, s: Snapshot)
    requires ThreeBelow(cfg) && OnTriangle(cfg, s) && s.count == 0 && !s.down && Upper(cfg) < cfg.value[0] - 1
    ensures var k := 2 * cfg.value[0] - Lower(cfg);
            && k >= 1 && Ticks(cfg, UpDown, s, k).count == Lower(cfg) && Ticks(cfg, UpDown, s, k - 1).down
  {
    hide OneTick;
    var p, k := 2 * Top(cfg), 2 * cfg.value[0] - Lower(cfg);
    UpDownClosedForm(cfg, s, k);
    UpDownClosedForm(cfg, s, k - 1);
    Arith.DivModUnique(k - 1, p, 0, k - 1);
    if Lower(cfg) == 0 {
      Arith.DivModUnique(k, p, 1, 0);
    } else {
      Arith.DivModUnique(k, p, 0, k);
    }
    hide Ticks;
  }

  lemma LowerLost(cfg: Config, s: Snapshot)
    requires ThreeBelow(cfg) && OnTriangle(cfg, s) && s.count == 0 && s.next == Scan(cfg, UpDown, s, |cfg.value|)
    requires (forall t :: t in s.served ==> t <= s.now) && Upper(cfg) < cfg.value[0] - 1
    ensures exists k: nat :: k >= 1 && !ServedIfHit(cfg, UpDown, s, k)
  {
    hide Scan, Ticks, Phase;
    LowerReached(cfg, s);
    var k := 2 * cfg.value[0] - Lower(cfg);
    ThreeServesExactly(cfg, s, k, k);
    assert Hit(cfg, cfg.value[1]) && Hit(cfg, cfg.value[2]);
    assert !ServedIfHit(cfg, UpDown, s, k);
  }

  /**
   * So every arrival at an enabled value, on every period, is served if and only if one of channels 1 and 2 has the
   * value just below CC0. Otherwise the lower one's is lost on every way down.
   */
  lemma ThreeServedIff(cfg: Config, s: Snapshot)
    requires ThreeBelow(cfg) && OnTriangle(cfg, s) && s.count == 0 && s.next == Scan(cfg, UpDown, s, |cfg.value|)
    requires forall t :: t in s.served ==> t <= s.now
    ensures (forall k: nat :: k >= 1 ==> ServedIfHit(cfg, UpDown, s, k)) <==> Upper(cfg) == cfg.value[0] - 1
  {
    assert Valid(cfg) && |s.pins| == |cfg.value|;
    hide Scan, Ticks, OnTriangle;
    if Upper(cfg) == cfg.value[0] - 1 {
      forall k: nat | k >= 1
        ensures ServedIfHit(cfg, UpDown, s, k)
      {
        AllHitsServed(cfg, s, k);
      }
    } else {
      LowerLost(cfg, s);
    }
  }
}
