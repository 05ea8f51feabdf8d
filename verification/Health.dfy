/** Eviction and readmission as a function of the probe results, and what it means for a history. */
module Health {

  /** How a backend is probed.  A protocol ping sets the healthy flag itself; a TCP dial does not. */
  datatype Probe = Tcp | Ping

  datatype Thresholds = Thresholds(failures: int, successes: int, probe: Probe)

  datatype CheckType = Unset | CheckTcp | CheckPing

  datatype HealthConfig = HealthConfig(
    enabled: bool, checkType: CheckType, failureThreshold: int, successThreshold: int)

  /** A dial needs an address; without one a TCP check falls back to the backend's own ping. */
  function Limits(cfg: HealthConfig, hasAddress: bool): Thresholds {
    Thresholds(
      if cfg.failureThreshold == 0 then 3 else cfg.failureThreshold,
      if cfg.successThreshold == 0 then 2 else cfg.successThreshold,
      if cfg.checkType.CheckTcp? && hasAddress then Tcp else Ping)
  }

  datatype Status = Status(
    successCount: nat, failureCount: nat,
    consecutiveSuccess: nat, consecutiveFailure: nat,
    evicted: bool, healthy: bool,
    evictions: nat, recoveries: nat)

  function Start(healthy: bool): Status {
    Status(0, 0, 0, 0, false, healthy, 0, 0)
  }

  /** One check with the given result. */
  function Check(c: Thresholds, s: Status, passed: bool): Status {
    var probed := if c.probe.Ping? then s.(healthy := passed) else s;
    if passed then
      var t := probed.(successCount := s.successCount + 1,
                       consecutiveSuccess := s.consecutiveSuccess + 1,
                       consecutiveFailure := 0);
      if s.evicted && t.consecutiveSuccess >= c.successes then
        t.(evicted := false, healthy := true, recoveries := s.recoveries + 1)
      else if !s.evicted then
        t.(healthy := true)
      else
        t
    else
      var t := probed.(failureCount := s.failureCount + 1,
                       consecutiveFailure := s.consecutiveFailure + 1,
                       consecutiveSuccess := 0);
      if !s.evicted && t.consecutiveFailure >= c.failures then
        t.(evicted := true, healthy := false, evictions := s.evictions + 1)
      else
        t
  }

  function After(c: Thresholds, start: bool, history: seq<bool>): Status {
    if history == [] then Start(start)
    else Check(c, After(c, start, history[..|history| - 1]), history[|history| - 1])
  }

  lemma AfterNext(c: Thresholds, start: bool, history: seq<bool>, passed: bool)
    ensures After(c, start, history + [passed]) == Check(c, After(c, start, history), passed)
  {
    assert (history + [passed])[..|history|] == history;
  }

  // ----- The declarative reading -----

  /** n results equal to r end just before position i. */
  predicate Streak(history: seq<bool>, i: int, n: int, r: bool) {
    0 <= n <= i <= |history| && forall j | i - n <= j < i :: history[j] == r
  }

  /** A threshold below one acts as one, because counters are compared after being raised. */
  function AtLeastOne(n: int): int {
    if n >= 1 then n else 1
  }

  /** A failure streak of the threshold's length ends at i, and no success streak has completed since. */
  ghost predicate EvictedAt(c: Thresholds, history: seq<bool>, i: int) {
    && 0 <= i <= |history| && Streak(history, i, AtLeastOne(c.failures), false)
    && forall k | i + AtLeastOne(c.successes) <= k <= |history| ::
         !Streak(history, k, AtLeastOne(c.successes), true)
  }

  ghost predicate ShouldBeEvicted(c: Thresholds, history: seq<bool>) {
    exists i :: EvictedAt(c, history, i)
  }

  /** The counters are the lengths of the streaks at the end of the history. */
  ghost predicate CountsStreaks(s: Status, history: seq<bool>) {
    && (forall n | 0 <= n <= |history| :: Streak(history, |history|, n, true) <==> n <= s.consecutiveSuccess)
    && (forall n | 0 <= n <= |history| :: Streak(history, |history|, n, false) <==> n <= s.consecutiveFailure)
    && s.consecutiveSuccess <= |history| && s.consecutiveFailure <= |history|
    && s.successCount + s.failureCount == |history|
  }

  lemma StreakExtends(history: seq<bool>, r: bool, n: int, q: bool)
    requires 0 <= n <= |history| + 1
    ensures Streak(history + [r], |history| + 1, n, q)
       <==> (n == 0 || (q == r && Streak(history, |history|, n - 1, q)))
  {
    var h := history + [r];
    if n >= 1 && q == r && Streak(history, |history|, n - 1, q) {
      assert forall j | |history| + 1 - n <= j < |history| + 1 :: h[j] == q;
    }
    if n >= 1 && Streak(h, |history| + 1, n, q) {
      assert h[|history|] == q;
      assert forall j | |history| - (n - 1) <= j < |history| :: history[j] == h[j];
    }
  }

  lemma StreakKeeps(history: seq<bool>, r: bool, i: int, n: int, q: bool)
    requires i <= |history|
    ensures Streak(history + [r], i, n, q) <==> Streak(history, i, n, q)
  {
    var h := history + [r];
    assert forall j | 0 <= j < |history| :: h[j] == history[j];
  }

  lemma {:induction false} CountersCountStreaks(c: Thresholds, start: bool, history: seq<bool>)
    ensures CountsStreaks(After(c, start, history), history)
  {
    if history == [] {
    } else {
      var before := history[..|history| - 1];
      var r := history[|history| - 1];
      assert history == before + [r];
      CountersCountStreaks(c, start, before);
      var s, t := After(c, start, before), After(c, start, history);
      assert t.consecutiveSuccess == if r then s.consecutiveSuccess + 1 else 0;
      assert t.consecutiveFailure == if r then 0 else s.consecutiveFailure + 1;
      assert t.successCount + t.failureCount == |history|;
      forall n, q | 0 <= n <= |history|
        ensures Streak(history, |history|, n, q)
          <==> n <= (if q then t.consecutiveSuccess else t.consecutiveFailure)
      {
        StreakExtends(before, r, n, q);
      }
    }
  }

  /** A standing eviction survives one more result unless that result completes a success streak. */
  lemma EvictedAtExtends(c: Thresholds, history: seq<bool>, r: bool, i: int)
    requires i <= |history|
    ensures EvictedAt(c, history + [r], i)
       <==> EvictedAt(c, history, i)
            && !(i + AtLeastOne(c.successes) <= |history| + 1
                 && Streak(history + [r], |history| + 1, AtLeastOne(c.successes), true))
  {
    var h := history + [r];
    var n := AtLeastOne(c.successes);
    StreakKeeps(history, r, i, AtLeastOne(c.failures), false);
    forall k | k <= |history| ensures Streak(h, k, n, true) <==> Streak(history, k, n, true) {
      StreakKeeps(history, r, k, n, true);
    }
  }

  /** A success streak at the end lies wholly after any point where a failure streak ended. */
  lemma StreaksApart(h: seq<bool>, i: int, f: int, n: int)
    requires f >= 1 && Streak(h, i, f, false) && Streak(h, |h|, n, true)
    ensures i + n <= |h|
  {
    assert !h[i - 1];
  }

  /** The step-by-step counters evict exactly the backends the history says should be evicted: enough
      consecutive failures ended somewhere and enough consecutive successes have not followed. */
  lemma {:induction false} EvictedIff(c: Thresholds, start: bool, history: seq<bool>)
    ensures After(c, start, history).evicted <==> ShouldBeEvicted(c, history)
  {
    if history == [] {
      assert forall i :: !EvictedAt(c, history, i);
    } else {
      var before := history[..|history| - 1];
      var r := history[|history| - 1];
      assert history == before + [r];
      EvictedIff(c, start, before);
      CountersCountStreaks(c, start, before);
      CountersCountStreaks(c, start, history);
      EvictedStep(c, After(c, start, before), before, r);
    }
  }

  lemma EvictedStep(c: Thresholds, s: Status, before: seq<bool>, r: bool)
    requires s.evicted <==> ShouldBeEvicted(c, before)
    requires CountsStreaks(s, before) && CountsStreaks(Check(c, s, r), before + [r])
    ensures Check(c, s, r).evicted <==> ShouldBeEvicted(c, before + [r])
  {
    var h := before + [r];
    var t := Check(c, s, r);
    var f, n := AtLeastOne(c.failures), AtLeastOne(c.successes);
    assert t.consecutiveSuccess == (if r then s.consecutiveSuccess + 1 else 0);
    var recovered := r && t.consecutiveSuccess >= c.successes;
    assert recovered <==> n <= |h| && Streak(h, |h|, n, true);
    var failed := !r && t.consecutiveFailure >= c.failures;
    assert failed <==> f <= |h| && Streak(h, |h|, f, false);
    if s.evicted {
      var i :| EvictedAt(c, before, i);
      EvictedAtExtends(c, before, r, i);
      if recovered {
        forall j ensures !EvictedAt(c, h, j) {
          if EvictedAt(c, h, j) {
            StreaksApart(h, j, f, n);
          }
        }
      } else {
        assert EvictedAt(c, h, i);
      }
    } else {
      if failed {
        assert EvictedAt(c, h, |h|);
      } else {
        forall j ensures !EvictedAt(c, h, j) {
          if 0 <= j <= |before| {
            EvictedAtExtends(c, before, r, j);
          }
        }
      }
    }
  }

  // ----- Healthy flag and metrics -----

  /** Evictions lead recoveries by one while evicted, and equal them otherwise. */
  lemma {:induction false} EvictionsAndRecoveries(c: Thresholds, start: bool, history: seq<bool>)
    ensures var s := After(c, start, history); s.evictions == s.recoveries + if s.evicted then 1 else 0
  {
    if history != [] {
      EvictionsAndRecoveries(c, start, history[..|history| - 1]);
    }
  }

  /** A TCP-checked backend that starts healthy is healthy exactly while it is not evicted; one that
      starts unhealthy is, from its first success on. */
  lemma {:induction false} TcpHealthyIff(c: Thresholds, start: bool, history: seq<bool>)
    requires c.probe.Tcp?
    ensures var s := After(c, start, history);
      s.healthy <==> !s.evicted && (start || true in history)
  {
    if history != [] {
      var before := history[..|history| - 1];
      assert history == before + [history[|history| - 1]];
      TcpHealthyIff(c, start, before);
      if true !in before {
        NoRecoveryWithoutSuccess(c, start, before);
      }
    }
  }

  lemma {:induction false} NoRecoveryWithoutSuccess(c: Thresholds, start: bool, history: seq<bool>)
    requires true !in history
    ensures After(c, start, history).consecutiveSuccess == 0
  {
    if history != [] {
      NoRecoveryWithoutSuccess(c, start, history[..|history| - 1]);
    }
  }

  ghost predicate FlagFollowsEviction(c: Thresholds, history: seq<bool>) {
    After(c, true, history).healthy <==> !After(c, true, history).evicted
  }

  /** The flag agrees with eviction after every history exactly for TCP-checked backends, and for
      pinged ones whose thresholds both act as one: Ping bypasses the hysteresis. */
  lemma FlagFollowsEvictionIff(c: Thresholds)
    ensures (forall h :: FlagFollowsEviction(c, h)) <==> c.probe.Tcp? || (c.failures <= 1 && c.successes <= 1)
  {
    if c.probe.Tcp? {
      forall h ensures FlagFollowsEviction(c, h) { TcpHealthyIff(c, true, h); }
    } else if c.failures <= 1 && c.successes <= 1 {
      forall h ensures FlagFollowsEviction(c, h) { SingleThresholds(c, h); }
    } else if c.failures > 1 {
      assert After(c, true, [false]) == Check(c, After(c, true, []), false);
      assert !FlagFollowsEviction(c, [false]);
    } else {
      assert [false, true][..1] == [false];
      assert After(c, true, [false]) == Check(c, After(c, true, []), false);
      assert After(c, true, [false, true]) == Check(c, After(c, true, [false]), true);
      assert !FlagFollowsEviction(c, [false, true]);
    }
  }

  lemma {:induction false} SingleThresholds(c: Thresholds, h: seq<bool>)
    requires c.probe.Ping? && c.failures <= 1 && c.successes <= 1
    ensures FlagFollowsEviction(c, h)
  {
    if h != [] {
      SingleThresholds(c, h[..|h| - 1]);
    }
  }
}
