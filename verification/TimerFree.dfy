/** Free-running mode from any scan: which compares are served, with one and with two channels in compare mode. */
module TimerFree {
  import opened Timer
  import opened TimerLaws
  import opened TimerCountdown

  /** Ticks until the count next equals `v`: a whole turn of the counter if it does now. */
  function Gap(cfg: Config, count: int, v: int): int {
    if count < v then v - count else v - count + 2 * cfg.half
  }

  lemma GapCloses(cfg: Config, c: int, v: int)
    requires Valid(cfg) && InRange(cfg, c) && InRange(cfg, v)
    ensures 1 <= Gap(cfg, c, v) <= 2 * cfg.half && (Gap(cfg, c, v) == 1 <==> Inc(cfg, c) == v)
    ensures Gap(cfg, Inc(cfg, c), v) == if Inc(cfg, c) == v then 2 * cfg.half else Gap(cfg, c, v) - 1
  {
  }

  /** The distance the scan uses, in ticks. */
  lemma SubIsGap(cfg: Config, c: int, v: int)
    requires Valid(cfg) && InRange(cfg, c) && InRange(cfg, v)
    ensures var d := Sub(cfg, v, c);
            InRange(cfg, d) && (d == 0 <==> c == v) && (d != 0 ==> Fuse(cfg, d) == Gap(cfg, c, v))
            && (d > 0 <==> Gap(cfg, c, v) < cfg.half)
  {
  }

  lemma FreeTick(cfg: Config, s: Snapshot)
    requires Proper(cfg, s)
    ensures var r := OneTick(cfg, FreeRunning, s);
            && Proper(cfg, r) && r.count == Inc(cfg, s.count) && r.now == s.now + 1
            && (Runs(cfg, FreeRunning, s) <==> Fuse(cfg, s.next) == 1)
            && r.served == (if Runs(cfg, FreeRunning, s) then s.served + [r.now] else s.served)
            && (Runs(cfg, FreeRunning, s) ==> r.next == Scan(cfg, FreeRunning, r, |cfg.value|))
            && (!Runs(cfg, FreeRunning, s) ==> Fuse(cfg, r.next) == Fuse(cfg, s.next) - 1)
  {
    TickEffect(cfg, FreeRunning, s);
    FuseBurns(cfg, s.next);
    hide OneTick, Scan, Fuse;
  }

  // ---------- one channel ----------

  /** Channel `i`, one of those scanned in full, is the only one in compare mode. */
  predicate OnlyChannel(cfg: Config, i: nat) {
    Valid(cfg) && i < cfg.full && forall j :: 0 <= j < |cfg.value| ==> (cfg.compare[j] <==> j == i)
  }

  /** The countdown runs out when the count reaches the compare value, or one tick before. */
  predicate OnTime(cfg: Config, s: Snapshot, i: nat) {
    Proper(cfg, s) && OnlyChannel(cfg, i)
    && var g := Gap(cfg, s.count, cfg.value[i]);
       Fuse(cfg, s.next) == g || (g >= 2 && Fuse(cfg, s.next) == g - 1)
  }

  predicate Early(cfg: Config, s: Snapshot, i: nat)
    requires i < |cfg.value|
  {
    Fuse(cfg, s.next) != Gap(cfg, s.count, cfg.value[i])
  }

  /** With one channel the scan gives its distance, or -1 on the compare value itself. */
  lemma ScanOne(cfg: Config, s: Snapshot, i: nat)
    requires OnlyChannel(cfg, i) && InRange(cfg, s.count)
    ensures var d := Sub(cfg, cfg.value[i], s.count);
            Scan(cfg, FreeRunning, s, |cfg.value|) == if d == 0 then -1 else d
  {
    ScanSkips(cfg, FreeRunning, s, 0, i);
    ScanSkips(cfg, FreeRunning, s, i + 1, |cfg.value|);
    assert Scan(cfg, FreeRunning, s, 0) == -1;
  }

  lemma ScannedOnTime(cfg: Config, s: Snapshot, i: nat)
    requires OnlyChannel(cfg, i) && Proper(cfg, s) && s.next == Scan(cfg, FreeRunning, s, |cfg.value|)
    ensures OnTime(cfg, s, i) && (Early(cfg, s, i) <==> s.count == cfg.value[i])
    ensures Inc(cfg, s.count) == cfg.value[i] ==> s.next == 1
  {
    ScanOne(cfg, s, i);
    SubIsGap(cfg, s.count, cfg.value[i]);
    hide Scan, Sub;
    GapCloses(cfg, s.count, cfg.value[i]);
  }

  /** One tick: CaptureCompare runs when the count reaches the compare value, and also one tick before
      if the countdown was early; an early wake-up re-arms it to 1. */
  lemma FreeRunningTick(cfg: Config, s: Snapshot, i: nat)
    requires OnTime(cfg, s, i)
    ensures var r, v := OneTick(cfg, FreeRunning, s), cfg.value[i];
            OnTime(cfg, r, i) && r.count == Inc(cfg, s.count)
            && (Runs(cfg, FreeRunning, s) <==> r.count == v || (Inc(cfg, r.count) == v && Early(cfg, s, i)))
            && (Runs(cfg, FreeRunning, s) && r.count != v ==> r.next == 1)
            && (Early(cfg, r, i) <==> r.count == v || (Early(cfg, s, i) && Inc(cfg, r.count) != v))
  {
    var r, v := OneTick(cfg, FreeRunning, s), cfg.value[i];
    FreeTick(cfg, s);
    GapCloses(cfg, s.count, v);
    hide OneTick, Scan, Fuse, Runs, Gap;
    GapCloses(cfg, r.count, v);
    if Runs(cfg, FreeRunning, s) {
      ScannedOnTime(cfg, r, i);
    }
  }

  lemma {:induction false} OnTimeRun(cfg: Config, s: Snapshot, i: nat, n: nat)
    requires OnTime(cfg, s, i)
    ensures OnTime(cfg, Ticks(cfg, FreeRunning, s, n), i)
  {
    if n > 0 {
      OnTimeRun(cfg, s, i, n - 1);
      FreeRunningTick(cfg, Ticks(cfg, FreeRunning, s, n - 1), i);
      hide OneTick, OnTime;
    }
  }

  /** No compare is ever missed, over any number of turns of the counter: every tick that leaves the count
      at the compare value is served, and a served tick has the count there or one before. */
  lemma FreeRunningNeverMisses(cfg: Config, s: Snapshot, i: nat, n: nat, k: nat)
    requires OnTime(cfg, s, i) && 1 <= k <= n && forall t :: t in s.served ==> t <= s.now
    ensures var served, c, v := Ticks(cfg, FreeRunning, s, n).served, Ticks(cfg, FreeRunning, s, k).count, cfg.value[i];
            && (c == v ==> s.now + k in served)
            && (s.now + k in served ==> c == v || Inc(cfg, c) == v)
  {
    hide OneTick;
    ServedIff(cfg, FreeRunning, s, n, k);
    OnTimeRun(cfg, s, i, k - 1);
    FreeRunningTick(cfg, Ticks(cfg, FreeRunning, s, k - 1), i);
  }

  // ---------- two channels ----------

  /** Channels `i` and `j`, both scanned in full, are the ones in compare mode. */
  predicate Pair(cfg: Config, i: nat, j: nat) {
    Valid(cfg) && i < j < cfg.full && forall k :: 0 <= k < |cfg.value| ==> (cfg.compare[k] <==> k == i || k == j)
  }

  lemma ScanPair(cfg: Config, s: Snapshot, i: nat, j: nat)
    requires Pair(cfg, i, j) && InRange(cfg, s.count)
    ensures var d0, d1 := Sub(cfg, cfg.value[i], s.count), Sub(cfg, cfg.value[j], s.count);
            Scan(cfg, FreeRunning, s, |cfg.value|) ==
              if d0 == 0 || d0 == -1 then (if d1 == 0 then -1 else d1) else if 0 < d1 < d0 then d1 else d0
  {
    ScanSkips(cfg, FreeRunning, s, 0, i);
    ScanSkips(cfg, FreeRunning, s, i + 1, j);
    ScanSkips(cfg, FreeRunning, s, j + 1, |cfg.value|);
    assert Scan(cfg, FreeRunning, s, 0) == -1;
    assert Scan(cfg, FreeRunning, s, i + 1) ==
           if Sub(cfg, cfg.value[i], s.count) == 0 then -1 else Sub(cfg, cfg.value[i], s.count);
  }

  /** The countdown goes to the next of the two values; for a shared one it may be one tick early. */
  predicate Timely(cfg: Config, s: Snapshot, i: nat, j: nat) {
    && Proper(cfg, s) && Pair(cfg, i, j)
    && var g0, g1, f := Gap(cfg, s.count, cfg.value[i]), Gap(cfg, s.count, cfg.value[j]), Fuse(cfg, s.next);
       f == (if g1 < g0 then g1 else g0) || (g0 == g1 && g0 >= 2 && f == g0 - 1)
  }

  /** The countdown goes to channel `i`'s value although channel `j`'s comes first. */
  predicate Late(cfg: Config, s: Snapshot, i: nat, j: nat) {
    && Proper(cfg, s) && Pair(cfg, i, j)
    && var g0, g1, f := Gap(cfg, s.count, cfg.value[i]), Gap(cfg, s.count, cfg.value[j]), Fuse(cfg, s.next);
       g1 < g0 && f == g0
  }

  /** A scan at count `c` hides channel `j`: channel `i`'s value is at least two ticks behind, and `j`'s comes first. */
  predicate Hidden(cfg: Config, c: int, i: nat, j: nat)
    requires Pair(cfg, i, j)
  {
    Sub(cfg, cfg.value[i], c) < -1 && Gap(cfg, c, cfg.value[j]) < Gap(cfg, c, cfg.value[i])
  }

  lemma ScannedPair(cfg: Config, s: Snapshot, i: nat, j: nat)
    requires Pair(cfg, i, j) && Proper(cfg, s) && s.next == Scan(cfg, FreeRunning, s, |cfg.value|)
    ensures if Hidden(cfg, s.count, i, j) then Late(cfg, s, i, j) else Timely(cfg, s, i, j)
  {
    var v0, v1 := cfg.value[i], cfg.value[j];
    ScanPair(cfg, s, i, j);
    SubIsGap(cfg, s.count, v0);
    SubIsGap(cfg, s.count, v1);
    GapCloses(cfg, s.count, v0);
    GapCloses(cfg, s.count, v1);
    var d0, d1 := Sub(cfg, v0, s.count), Sub(cfg, v1, s.count);
    assert d0 == 0 ==> Gap(cfg, s.count, v0) == 2 * cfg.half;
    assert d1 == 0 ==> Gap(cfg, s.count, v1) == 2 * cfg.half;
    hide Scan, Sub, Gap;
  }

  /** A tick with a timely countdown serves each value it reaches, and stays timely. */
  lemma TimelyTick(cfg: Config, s: Snapshot, i: nat, j: nat)
    requires Timely(cfg, s, i, j)
    ensures var r, v0, v1 := OneTick(cfg, FreeRunning, s), cfg.value[i], cfg.value[j];
            && Timely(cfg, r, i, j) && r.count == Inc(cfg, s.count)
            && (r.count == v0 || r.count == v1 ==> Runs(cfg, FreeRunning, s))
            && (Runs(cfg, FreeRunning, s) ==> r.count == v0 || r.count == v1 || (v0 == v1 == Inc(cfg, r.count)))
  {
    var r, v0, v1 := OneTick(cfg, FreeRunning, s), cfg.value[i], cfg.value[j];
    FreeTick(cfg, s);
    GapCloses(cfg, s.count, v0);
    GapCloses(cfg, s.count, v1);
    GapCloses(cfg, r.count, v0);
    GapCloses(cfg, r.count, v1);
    SubIsGap(cfg, r.count, v0);
    assert Gap(cfg, s.count, v0) == Gap(cfg, s.count, v1) ==> v0 == v1;
    hide OneTick, Scan, Fuse, Runs, Gap, Sub, Inc;
    if Runs(cfg, FreeRunning, s) {
      ScannedPair(cfg, r, i, j);
    }
  }

  /** A tick with a late countdown: the first arrival at channel `j`'s value is missed, and that ends it. */
  lemma LateTick(cfg: Config, s: Snapshot, i: nat, j: nat)
    requires Late(cfg, s, i, j)
    ensures var r, v1 := OneTick(cfg, FreeRunning, s), cfg.value[j];
            && r.count == Inc(cfg, s.count) && r.count != cfg.value[i] && !Runs(cfg, FreeRunning, s)
            && (if r.count == v1 then Timely(cfg, r, i, j) else Late(cfg, r, i, j))
            && (r.count != v1 ==> Gap(cfg, r.count, v1) == Gap(cfg, s.count, v1) - 1)
            && (r.count == v1 <==> Gap(cfg, s.count, v1) == 1)
  {
    var r, v0, v1 := OneTick(cfg, FreeRunning, s), cfg.value[i], cfg.value[j];
    FreeTick(cfg, s);
    GapCloses(cfg, s.count, v0);
    GapCloses(cfg, s.count, v1);
    hide OneTick, Scan, Fuse, Runs, Gap, Sub, Inc;
  }

  /** The run from a scan: late until channel `j`'s value is first reached, if it was hidden, and timely ever after. */
  lemma {:induction false} PairRun(cfg: Config, s: Snapshot, i: nat, j: nat, n: nat)
    requires Pair(cfg, i, j) && Proper(cfg, s) && s.next == Scan(cfg, FreeRunning, s, |cfg.value|)
    ensures var r, g1 := Ticks(cfg, FreeRunning, s, n), Gap(cfg, s.count, cfg.value[j]);
            if Hidden(cfg, s.count, i, j) && n < g1
            then Late(cfg, r, i, j) && Gap(cfg, r.count, cfg.value[j]) == g1 - n
            else Timely(cfg, r, i, j)
  {
    hide OneTick, Late, Timely, Scan, Gap, Hidden;
    if n == 0 {
      ScannedPair(cfg, s, i, j);
      GapCloses(cfg, s.count, cfg.value[j]);
    } else {
      PairRun(cfg, s, i, j, n - 1);
      var q := Ticks(cfg, FreeRunning, s, n - 1);
      if Hidden(cfg, s.count, i, j) && n - 1 < Gap(cfg, s.count, cfg.value[j]) {
        LateTick(cfg, q, i, j);
      } else {
        TimelyTick(cfg, q, i, j);
      }
    }
  }

  /**
   * Two channels, any values, any number of turns after a scan: every arrival at either value is served
   * except the first one at channel `j`'s if the scan hid it; and nothing else is served, but for a shared
   * value also one tick before.
   */
  lemma PairServed(cfg: Config, s: Snapshot, i: nat, j: nat, n: nat, k: nat)
    requires Pair(cfg, i, j) && Proper(cfg, s) && s.next == Scan(cfg, FreeRunning, s, |cfg.value|)
    requires 1 <= k <= n && forall t :: t in s.served ==> t <= s.now
    ensures var served, c := Ticks(cfg, FreeRunning, s, n).served, Ticks(cfg, FreeRunning, s, k).count;
            var v0, v1 := cfg.value[i], cfg.value[j];
            var missed := Hidden(cfg, s.count, i, j) && k == Gap(cfg, s.count, v1);
            && (missed ==> c == v1)
            && (c == v0 || c == v1 ==> (s.now + k in served <==> !missed))
            && (s.now + k in served ==> c == v0 || c == v1 || v0 == v1 == Inc(cfg, c))
  {
    hide OneTick, Late, Timely, Scan, Gap, Hidden, Runs;
    ServedIff(cfg, FreeRunning, s, n, k);
    PairRun(cfg, s, i, j, k - 1);
    var q := Ticks(cfg, FreeRunning, s, k - 1);
    if Hidden(cfg, s.count, i, j) && k - 1 < Gap(cfg, s.count, cfg.value[j]) {
      LateTick(cfg, q, i, j);
    } else {
      TimelyTick(cfg, q, i, j);
    }
  }

  /** The smallest case: compare values 10 and 20, counting on from 15, miss the compare at 20. */
  lemma SecondChannelMissed(cfg: Config, s: Snapshot)
    requires cfg == Config(0x8000, 3, [10, 20, 0, 0, 0], [true, true, false, false, false], [0, 0, 0, 0, 0], true)
    requires s == Snapshot(0, 15, -5, false, [false, false, false, false, false], 0, [], [])
    ensures s.next == Scan(cfg, FreeRunning, s, 5)
    ensures Ticks(cfg, FreeRunning, s, 5).count == 20 && 5 !in Ticks(cfg, FreeRunning, s, 5).served
  {
    hide Scan, Ticks;
    ScanPair(cfg, s, 0, 1);
    PairServed(cfg, s, 0, 1, 5, 5);
  }
}
