/** What every history of results makes of a backend, said of the configuration it was registered with. */
module HealthOutcomes {
  import opened Health

  /** How many results in a row it takes: the configured number, or the default if none is configured.  A number
      below one takes one. */
  function InARow(configured: int, default: int): int {
    if configured == 0 then default else if configured < 1 then 1 else configured
  }

  /** Enough failures in a row, three by default, have ended at i, and since then never enough successes in a row,
      two by default. */
  ghost predicate EvictedFrom(cfg: HealthConfig, history: seq<bool>, i: int) {
    var failures, successes := InARow(cfg.failureThreshold, 3), InARow(cfg.successThreshold, 2);
    && 0 <= i <= |history| && Streak(history, i, failures, false)
    && forall k | i + successes <= k <= |history| :: !Streak(history, k, successes, true)
  }

  ghost predicate EvictedBy(cfg: HealthConfig, history: seq<bool>) {
    exists i :: EvictedFrom(cfg, history, i)
  }

  /** A backend is evicted after exactly the histories that call for it under its configuration. */
  lemma EvictedByIff(cfg: HealthConfig, hasAddress: bool, start: bool, history: seq<bool>)
    ensures After(Limits(cfg, hasAddress), start, history).evicted <==> EvictedBy(cfg, history)
  {
    var c := Limits(cfg, hasAddress);
    EvictedIff(c, start, history);
    hide After, Streak;
    assert AtLeastOne(c.failures) == InARow(cfg.failureThreshold, 3);
    assert AtLeastOne(c.successes) == InARow(cfg.successThreshold, 2);
    assert forall i :: EvictedAt(c, history, i) <==> EvictedFrom(cfg, history, i);
  }

  // ----- The flag -----

  /** A backend that is dialled is healthy while it is not evicted, once it has been so; one that is pinged
      is what its last ping said. */
  lemma HealthyIff(cfg: HealthConfig, hasAddress: bool, start: bool, history: seq<bool>)
    ensures After(Limits(cfg, hasAddress), start, history).healthy
      == if cfg.checkType == CheckTcp && hasAddress then !EvictedBy(cfg, history) && (start || true in history)
         else if history == [] then start
         else history[|history| - 1]
  {
    if cfg.checkType == CheckTcp && hasAddress {
      EvictedByIff(cfg, hasAddress, start, history);
      TcpHealthyIff(Limits(cfg, hasAddress), start, history);
    }
  }

  // ----- The counters -----

  /** Result i turns the question whether the backend is evicted into this answer. */
  ghost predicate TurnsInto(cfg: HealthConfig, history: seq<bool>, i: nat, evicted: bool) {
    && 0 < i <= |history|
    && EvictedBy(cfg, history[..i]) == evicted && EvictedBy(cfg, history[..i - 1]) == !evicted
  }

  /** The results by which the backend is evicted, or readmitted. */
  ghost function Turns(cfg: HealthConfig, history: seq<bool>, evicted: bool): set<nat> {
    set i: nat | i <= |history| && TurnsInto(cfg, history, i, evicted)
  }

  lemma TurnsStep(cfg: HealthConfig, history: seq<bool>, passed: bool, evicted: bool)
    ensures |Turns(cfg, history + [passed], evicted)| == |Turns(cfg, history, evicted)|
      + if EvictedBy(cfg, history + [passed]) == evicted && EvictedBy(cfg, history) == !evicted then 1 else 0
  {
    hide EvictedBy;
    var h, n := history + [passed], |history| + 1;
    assert h[..n] == h && h[..n - 1] == history;
    forall i: nat | 0 < i <= |history| ensures TurnsInto(cfg, h, i, evicted) == TurnsInto(cfg, history, i, evicted) {
      assert h[..i] == history[..i] && h[..i - 1] == history[..i - 1];
    }
    if TurnsInto(cfg, h, n, evicted) {
      assert Turns(cfg, h, evicted) == Turns(cfg, history, evicted) + {n};
    } else {
      assert Turns(cfg, h, evicted) == Turns(cfg, history, evicted);
    }
  }

  lemma CheckCounts(c: Thresholds, s: Status, passed: bool)
    ensures var t := Check(c, s, passed);
      && t.evictions == s.evictions + (if t.evicted && !s.evicted then 1 else 0)
      && t.recoveries == s.recoveries + (if s.evicted && !t.evicted then 1 else 0)
      && t.successCount == s.successCount + (if passed then 1 else 0)
      && t.failureCount == s.failureCount + (if passed then 0 else 1)
  {}

  /** The metrics count the results by which the backend was evicted and readmitted, and the totals count the
      successes and the failures. */
  lemma {:induction false} CountersCount(cfg: HealthConfig, hasAddress: bool, start: bool, history: seq<bool>)
    ensures var s := After(Limits(cfg, hasAddress), start, history);
      && s.evictions == |Turns(cfg, history, true)| && s.recoveries == |Turns(cfg, history, false)|
      && s.successCount == multiset(history)[true] && s.failureCount == multiset(history)[false]
  {
    if history != [] {
      var c, before, passed := Limits(cfg, hasAddress), history[..|history| - 1], history[|history| - 1];
      assert history == before + [passed];
      CountersCount(cfg, hasAddress, start, before);
      EvictedByIff(cfg, hasAddress, start, before);
      EvictedByIff(cfg, hasAddress, start, history);
      TurnsStep(cfg, before, passed, true);
      TurnsStep(cfg, before, passed, false);
      AfterNext(c, start, before, passed);
      CheckCounts(c, After(c, start, before), passed);
      hide EvictedBy, Turns, Limits, Check, After;
    }
  }
}
