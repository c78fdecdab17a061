/** The countdown against a timer that runs CaptureCompare's pass over the channels on every tick. */
module TimerEvery {
  import opened Arith
  import opened Timer
  import opened TimerLaws
  import opened TimerCountdown

  // ---------- comparing on every single tick ----------

  /** What the outside sees: the counter, the pins and the notices, not the countdown or the record of served ticks. */
  function Visible(s: Snapshot): Snapshot {
    s.(next := 0, served := [])
  }

  /** A tick that moves the counter and then passes over all channels. */
  function EveryTick(cfg: Config, mode: Mode, s: Snapshot): (r: Snapshot)
    requires Valid(cfg) && |s.pins| == |cfg.value|
    ensures |r.pins| == |s.pins|
  {
    Compared(cfg, mode, Moved(cfg, mode, s), |cfg.value|)
  }

  function EveryTicks(cfg: Config, mode: Mode, s: Snapshot, n: nat): (r: Snapshot)
    requires Valid(cfg) && |s.pins| == |cfg.value|
    ensures |r.pins| == |s.pins|
  {
    if n == 0 then Visible(s) else EveryTick(cfg, mode, EveryTicks(cfg, mode, s, n - 1))
  }

  /** After `n` ticks nobody can tell the countdown from comparing on every tick. */
  ghost predicate LooksAlike(cfg: Config, mode: Mode, s: Snapshot, n: nat)
    requires Valid(cfg) && |s.pins| == |cfg.value|
  {
    Visible(Ticks(cfg, mode, s, n)) == EveryTicks(cfg, mode, s, n)
  }

  /** Channel `j` has work at count `c`: at its own value, at CC0 and at 0. */
  predicate Acts(cfg: Config, c: int, j: nat)
    requires Valid(cfg) && j < |cfg.value|
  {
    cfg.compare[j] && (c == cfg.value[0] || c == cfg.value[j] || c == 0)
  }

  predicate WorkAt(cfg: Config, c: int)
    requires Valid(cfg)
  {
    exists j :: 0 <= j < |cfg.value| && Acts(cfg, c, j)
  }

  /** The pass over the channels would change nothing. */
  predicate Silent(cfg: Config, mode: Mode, u: Snapshot)
    requires Valid(cfg) && |u.pins| == |cfg.value|
  {
    Compared(cfg, mode, Visible(u), |cfg.value|) == Visible(u)
  }

  lemma OutputVisible(cfg: Config, mode: Mode, s: Snapshot, i: nat)
    requires Valid(cfg) && i < |cfg.value| && |s.pins| == |cfg.value|
    ensures Output(cfg, mode, Visible(s), i) == Output(cfg, mode, s, i)
  {
  }

  lemma {:induction false} ComparedVisible(cfg: Config, mode: Mode, s: Snapshot, i: nat)
    requires Valid(cfg) && i <= |cfg.value| && |s.pins| == |cfg.value|
    ensures Compared(cfg, mode, Visible(s), i) == Visible(Compared(cfg, mode, s, i))
  {
    hide Output;
    if i > 0 {
      ComparedVisible(cfg, mode, s, i - 1);
      OutputVisible(cfg, mode, Compared(cfg, mode, s, i - 1), i - 1);
    }
  }

  lemma MovedVisible(cfg: Config, mode: Mode, s: Snapshot)
    requires Valid(cfg)
    ensures Moved(cfg, mode, Visible(s)) == Visible(Moved(cfg, mode, s))
  {
  }

  lemma ShownVisible(cfg: Config, mode: Mode, u: Snapshot)
    requires Valid(cfg) && |u.pins| == |cfg.value|
    ensures Visible(Shown(cfg, mode, u)) == Compared(cfg, mode, Visible(u), |cfg.value|)
  {
    hide Compared;
    ComparedVisible(cfg, mode, u.(next := 0, served := u.served + [u.now]), |cfg.value|);
  }

  /** One tick of the countdown, as the outside sees it. */
  lemma VisibleTick(cfg: Config, mode: Mode, r: Snapshot)
    requires Proper(cfg, r)
    ensures var u := Moved(cfg, mode, r);
            Visible(OneTick(cfg, mode, r)) ==
            if Runs(cfg, mode, r) then Compared(cfg, mode, Visible(u), |cfg.value|) else Visible(u)
  {
    hide OneTick, Moved, Runs, Rescans, Shown, Compared, Scan;
    OneTickShape(cfg, mode, r);
    ShownVisible(cfg, mode, Moved(cfg, mode, r));
  }

  lemma StepLooksAlike(cfg: Config, mode: Mode, s: Snapshot, n: nat)
    requires Proper(cfg, s) && LooksAlike(cfg, mode, s, n)
    ensures var r := Ticks(cfg, mode, s, n);
            LooksAlike(cfg, mode, s, n + 1) <==> Runs(cfg, mode, r) || Silent(cfg, mode, Moved(cfg, mode, r))
  {
    hide OneTick, Moved, Runs, Compared;
    var r := Ticks(cfg, mode, s, n);
    NextInRange(cfg, mode, s, n);
    VisibleTick(cfg, mode, r);
    MovedVisible(cfg, mode, r);
    assert Ticks(cfg, mode, s, n + 1) == OneTick(cfg, mode, r);
    assert EveryTicks(cfg, mode, s, n + 1) == EveryTick(cfg, mode, Visible(r));
  }

  /** The tick after `n` runs CaptureCompare or has nothing to show. */
  predicate DoneAt(cfg: Config, mode: Mode, s: Snapshot, n: nat)
    requires Valid(cfg) && |s.pins| == |cfg.value|
  {
    var r := Ticks(cfg, mode, s, n);
    Runs(cfg, mode, r) || Silent(cfg, mode, Moved(cfg, mode, r))
  }

  ghost predicate AlikeUpTo(cfg: Config, mode: Mode, s: Snapshot, n: nat)
    requires Valid(cfg) && |s.pins| == |cfg.value|
  {
    forall m: nat :: m <= n ==> LooksAlike(cfg, mode, s, m)
  }

  predicate DoneUpTo(cfg: Config, mode: Mode, s: Snapshot, n: nat)
    requires Valid(cfg) && |s.pins| == |cfg.value|
  {
    forall k: nat :: k < n ==> DoneAt(cfg, mode, s, k)
  }

  lemma UpToNext(cfg: Config, mode: Mode, s: Snapshot, n: nat)
    requires Valid(cfg) && |s.pins| == |cfg.value| && n > 0
    ensures AlikeUpTo(cfg, mode, s, n) <==> AlikeUpTo(cfg, mode, s, n - 1) && LooksAlike(cfg, mode, s, n)
    ensures DoneUpTo(cfg, mode, s, n) <==> DoneUpTo(cfg, mode, s, n - 1) && DoneAt(cfg, mode, s, n - 1)
  {
    hide LooksAlike, DoneAt;
  }

  /** In any mode and for any channels: the two look alike up to tick `n` if and only if every tick so far has
      run CaptureCompare or had nothing to show. */
  lemma {:induction false} LooksAlikeIff(cfg: Config, mode: Mode, s: Snapshot, n: nat)
    requires Proper(cfg, s)
    ensures AlikeUpTo(cfg, mode, s, n) <==> DoneUpTo(cfg, mode, s, n)
  {
    StartsAlike(cfg, mode, s);
    if n > 0 {
      LooksAlikeIff(cfg, mode, s, n - 1);
      UpToNext(cfg, mode, s, n);
      if AlikeUpTo(cfg, mode, s, n - 1) {
        StepLooksAlike(cfg, mode, s, n - 1);
      }
    }
    hide LooksAlike, Ticks, Runs, Silent;
  }

  lemma StartsAlike(cfg: Config, mode: Mode, s: Snapshot)
    requires Valid(cfg) && |s.pins| == |cfg.value|
    ensures LooksAlike(cfg, mode, s, 0)
  {
  }

  // ---------- what the pass has to show ----------

  lemma {:induction false} ComparedIdle(cfg: Config, mode: Mode, u: Snapshot, i: nat)
    requires Valid(cfg) && i <= |cfg.value| && |u.pins| == |cfg.value| && !WorkAt(cfg, u.count)
    ensures Compared(cfg, mode, u, i) == u
  {
    if i > 0 {
      ComparedIdle(cfg, mode, u, i - 1);
      assert !Acts(cfg, u.count, i - 1);
    }
  }

  /** Without work the pass is silent. */
  lemma IdleIsSilent(cfg: Config, mode: Mode, u: Snapshot)
    requires Valid(cfg) && |u.pins| == |cfg.value| && !WorkAt(cfg, u.count)
    ensures Silent(cfg, mode, u)
  {
    hide Compared;
    ComparedIdle(cfg, mode, Visible(u), |cfg.value|);
  }

  /** The pass notifies the partners of the first three channels that have work, and of no others. */
  lemma {:induction false} ComparedTells(cfg: Config, mode: Mode, u: Snapshot, i: nat, j: nat)
    requires Valid(cfg) && i <= |cfg.value| && |u.pins| == |cfg.value|
    ensures j < i && j < 3 && Acts(cfg, u.count, j) ==> Notice(u.now, j) in Compared(cfg, mode, u, i).notices
    ensures u.notices <= Compared(cfg, mode, u, i).notices
    ensures forall x :: x in Compared(cfg, mode, u, i).notices ==> x in u.notices || x.tick == u.now
  {
    hide Output;
    if i > 0 {
      ComparedTells(cfg, mode, u, i - 1, j);
    }
  }

  /** Both timers count alike. */
  lemma {:induction false} CountsAlike(cfg: Config, mode: Mode, s: Snapshot, n: nat)
    requires Proper(cfg, s)
    ensures var r, e := Ticks(cfg, mode, s, n), EveryTicks(cfg, mode, s, n);
            && Proper(cfg, r) && r.count == e.count && r.down == e.down && r.now == e.now == s.now + n
            && r.overflows == e.overflows
  {
    hide OneTick, Runs, Compared;
    NextInRange(cfg, mode, s, n);
    if n > 0 {
      CountsAlike(cfg, mode, s, n - 1);
      VisibleTick(cfg, mode, Ticks(cfg, mode, s, n - 1));
    }
  }

  lemma MovedKeepsNotices(cfg: Config, mode: Mode, e: Snapshot)
    requires Valid(cfg)
    ensures var u := Moved(cfg, mode, e); u.notices == e.notices && u.now == e.now + 1 && u.pins == e.pins
  {
  }

  /** What has been told stays told. */
  lemma {:induction false} EveryTickTells(cfg: Config, mode: Mode, s: Snapshot, n: nat, k: nat, j: nat)
    requires Proper(cfg, s) && k < n && j < 3 && j < |cfg.value| && Acts(cfg, Ticks(cfg, mode, s, k + 1).count, j)
    ensures Notice(s.now + k + 1, j) in EveryTicks(cfg, mode, s, n).notices
  {
    hide Ticks, Compared, Moved, Acts;
    var e := EveryTicks(cfg, mode, s, n - 1);
    CountsAlike(cfg, mode, s, n - 1);
    CountsAlike(cfg, mode, s, n);
    MovedKeepsNotices(cfg, mode, e);
    ComparedTells(cfg, mode, Moved(cfg, mode, e), |cfg.value|, j);
    if k < n - 1 {
      EveryTickTells(cfg, mode, s, n - 1, k, j);
    }
  }

  /** No notice is from the future. */
  predicate NothingTold(s: Snapshot) {
    forall x :: x in s.notices ==> x.tick <= s.now
  }

  /** A tick tells of itself only, and only if it runs CaptureCompare. */
  lemma TickTells(cfg: Config, mode: Mode, r: Snapshot)
    requires Proper(cfg, r)
    ensures forall x :: x in OneTick(cfg, mode, r).notices ==>
              x in r.notices || (Runs(cfg, mode, r) && x.tick == r.now + 1)
  {
    hide OneTick, Compared, Runs;
    VisibleTick(cfg, mode, r);
    ComparedTells(cfg, mode, Visible(Moved(cfg, mode, r)), |cfg.value|, 0);
  }

  /** A tick that does not run CaptureCompare is never told of. */
  lemma {:induction false} NeverTold(cfg: Config, mode: Mode, s: Snapshot, n: nat, k: nat)
    requires Proper(cfg, s) && !Runs(cfg, mode, Ticks(cfg, mode, s, k)) && NothingTold(s)
    ensures forall x :: x in Ticks(cfg, mode, s, n).notices ==> x.tick != s.now + k + 1 && x.tick <= s.now + n
  {
    hide OneTick, Runs;
    if n > 0 {
      NeverTold(cfg, mode, s, n - 1, k);
      NextInRange(cfg, mode, s, n - 1);
      TickTells(cfg, mode, Ticks(cfg, mode, s, n - 1));
    }
  }

  /** A missed notice tells the two apart for good. */
  lemma PartsForGood(cfg: Config, mode: Mode, s: Snapshot, n: nat, k: nat, j: nat)
    requires Proper(cfg, s) && k < n && j < 3 && j < |cfg.value| && Acts(cfg, Ticks(cfg, mode, s, k + 1).count, j)
    requires !Runs(cfg, mode, Ticks(cfg, mode, s, k)) && NothingTold(s)
    ensures !LooksAlike(cfg, mode, s, n)
  {
    hide Ticks, EveryTicks, Acts, Runs;
    EveryTickTells(cfg, mode, s, n, k, j);
    NeverTold(cfg, mode, s, n, k);
  }

  /** All channels in compare mode have partners to notify. */
  predicate Loud(cfg: Config)
    requires Valid(cfg)
  {
    forall j :: 3 <= j < |cfg.value| ==> !cfg.compare[j]
  }

  /** The tick after `k` runs CaptureCompare if there is work for it. */
  predicate WorkDoneAt(cfg: Config, mode: Mode, s: Snapshot, k: nat)
    requires Valid(cfg) && |s.pins| == |cfg.value|
  {
    WorkAt(cfg, Ticks(cfg, mode, s, k + 1).count) ==> Runs(cfg, mode, Ticks(cfg, mode, s, k))
  }

  lemma WorkDoneIsDone(cfg: Config, mode: Mode, s: Snapshot, k: nat)
    requires Proper(cfg, s) && WorkDoneAt(cfg, mode, s, k)
    ensures DoneAt(cfg, mode, s, k)
  {
    hide OneTick, Runs, Silent, WorkAt;
    var r := Ticks(cfg, mode, s, k);
    NextInRange(cfg, mode, s, k);
    TickEffect(cfg, mode, r);
    assert Ticks(cfg, mode, s, k + 1) == OneTick(cfg, mode, r);
    if !WorkAt(cfg, Moved(cfg, mode, r).count) {
      IdleIsSilent(cfg, mode, Moved(cfg, mode, r));
    }
  }

  /** If all work so far was done the two look alike. */
  lemma {:induction false} WorkDoneLooksAlike(cfg: Config, mode: Mode, s: Snapshot, n: nat)
    requires Proper(cfg, s) && forall k: nat :: k < n ==> WorkDoneAt(cfg, mode, s, k)
    ensures LooksAlike(cfg, mode, s, n)
  {
    hide Ticks, EveryTicks, WorkDoneAt, DoneAt, LooksAlike;
    forall k: nat | k < n
      ensures DoneAt(cfg, mode, s, k)
    {
      WorkDoneIsDone(cfg, mode, s, k);
    }
    LooksAlikeIff(cfg, mode, s, n);
  }

  /**
   * In any mode, when every channel in compare mode has a partner to notify: after `n` ticks the two look alike
   * if and only if no tick so far has left work at its count undone.
   */
  lemma LooksAlikeIffWorkDone(cfg: Config, mode: Mode, s: Snapshot, n: nat)
    requires Proper(cfg, s) && Loud(cfg) && NothingTold(s)
    ensures LooksAlike(cfg, mode, s, n) <==> forall k: nat :: k < n ==> WorkDoneAt(cfg, mode, s, k)
  {
    hide Ticks, EveryTicks, Runs, LooksAlike;
    if forall k: nat :: k < n ==> WorkDoneAt(cfg, mode, s, k) {
      WorkDoneLooksAlike(cfg, mode, s, n);
    } else {
      var k: nat :| k < n && !WorkDoneAt(cfg, mode, s, k);
      var j :| 0 <= j < |cfg.value| && Acts(cfg, Ticks(cfg, mode, s, k + 1).count, j);
      PartsForGood(cfg, mode, s, n, k, j);
    }
  }
}
