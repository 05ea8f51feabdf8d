/** What the breaker's counters mean over every run of atomic calls, and when it can recover. */
module CircuitRuns {
  import opened CircuitBreaker

  datatype Event =
    | Asked(now: int)
    | Succeeded(now: int)
    | Erred(now: int)

  function Apply(cfg: Config, b: Core, e: Event): Core {
    match e
    case Asked(now) => Allow(cfg, b, now).0
    case Succeeded(now) => OnSuccess(cfg, b, now)
    case Erred(now) => OnFailure(cfg, b, now)
  }

  function Run(cfg: Config, evs: seq<Event>): Core {
    if evs == [] then Fresh(0) else Apply(cfg, Run(cfg, evs[..|evs| - 1]), evs[|evs| - 1])
  }

  // ----- Readings of a history -----

  /** How many failures were reported since the last reported success. */
  function Trailing(evs: seq<Event>): nat {
    if evs == [] then 0
    else
      match evs[|evs| - 1]
      case Asked(_) => Trailing(evs[..|evs| - 1])
      case Succeeded(_) => 0
      case Erred(_) => Trailing(evs[..|evs| - 1]) + 1
  }

  /** How often the breaker went from one state to another. */
  function Moves(cfg: Config, evs: seq<Event>, from: State, to: State): nat {
    if evs == [] then 0
    else
      var before := evs[..|evs| - 1];
      Moves(cfg, before, from, to)
        + if Run(cfg, before).state == from && Run(cfg, evs).state == to then 1 else 0
  }

  /** How many calls the current half-open episode has admitted, its opening call included. */
  function EpisodeAdmits(cfg: Config, evs: seq<Event>): nat {
    if evs == [] then 0
    else
      var before := evs[..|evs| - 1];
      var last := evs[|evs| - 1];
      if !Run(cfg, evs).state.HalfOpen? then 0
      else
        (if Run(cfg, before).state.HalfOpen? then EpisodeAdmits(cfg, before) else 0)
          + if last.Asked? && Allow(cfg, Run(cfg, before), last.now).1 then 1 else 0
  }

  /** When the breaker last entered Open. */
  function OpenSince(cfg: Config, evs: seq<Event>): int {
    if evs == [] then 0
    else
      var before := evs[..|evs| - 1];
      if Run(cfg, evs).state.Open? && !Run(cfg, before).state.Open? then evs[|evs| - 1].now
      else OpenSince(cfg, before)
  }

  // ----- The counters -----

  ghost predicate CountersTell(cfg: Config, evs: seq<Event>) {
    var b := Run(cfg, evs);
    && (b.state.Closed? ==> b.failureCount == Trailing(evs) < cfg.failureThreshold)
    && (!b.state.Closed? ==> b.failureCount == cfg.failureThreshold)
    && (b.state.HalfOpen? ==> 0 <= b.successCount < cfg.successThreshold)
    && (!b.state.HalfOpen? ==> b.successCount == 0)
    && Moves(cfg, evs, Closed, Open) == Moves(cfg, evs, HalfOpen, Closed) + if b.state.Closed? then 0 else 1
  }

  lemma {:induction false} CountersAlwaysTell(cfg: Config, evs: seq<Event>)
    requires cfg.failureThreshold >= 1 && cfg.successThreshold >= 1
    ensures CountersTell(cfg, evs)
  {
    if evs != [] {
      CountersAlwaysTell(cfg, evs[..|evs| - 1]);
    }
  }

  function Failing(n: nat): seq<Event> {
    seq(n, _ => Erred(0))
  }

  /** n failures from the start: still closed below the threshold, open at it. */
  lemma {:induction false} FailingTrips(cfg: Config, n: nat)
    requires n <= cfg.failureThreshold || n <= 1
    ensures var b := Run(cfg, Failing(n));
      b == if n >= 1 && n >= cfg.failureThreshold then Core(Open, n, 0, 0, 0) else Core(Closed, n, 0, 0, 0)
  {
    if n > 0 {
      FailingTrips(cfg, n - 1);
      assert Failing(n)[..n - 1] == Failing(n - 1);
    }
  }

  /** The counters tell the history in every run exactly when both thresholds are positive: a
      configuration that leaves a threshold at zero breaks the reading. */
  lemma CountersTellIff(cfg: Config)
    ensures (forall evs :: CountersTell(cfg, evs)) <==> cfg.failureThreshold >= 1 && cfg.successThreshold >= 1
  {
    if cfg.failureThreshold >= 1 && cfg.successThreshold >= 1 {
      forall evs ensures CountersTell(cfg, evs) { CountersAlwaysTell(cfg, evs); }
    } else if cfg.failureThreshold < 1 {
      assert !CountersTell(cfg, []);
    } else {
      var n: nat := cfg.failureThreshold;
      FailingTrips(cfg, n);
      var late := Asked(if cfg.timeout >= 0 then cfg.timeout + 1 else 0);
      var evs := Failing(n) + [late];
      assert evs[..n] == Failing(n);
      assert Run(cfg, evs).state.HalfOpen? && Run(cfg, evs).successCount == 0;
      assert !CountersTell(cfg, evs);
    }
  }

  // ----- Half-open episodes -----

  /** With atomic calls, one half-open episode admits at most the configured number of calls and the
      one that opened it; halfOpenCalls never leaves 0..limit and is zero outside HalfOpen. */
  lemma {:induction false} EpisodeBound(cfg: Config, evs: seq<Event>)
    ensures var b := Run(cfg, evs);
      && 0 <= b.halfOpenCalls <= Limit(cfg)
      && (!b.state.HalfOpen? ==> b.halfOpenCalls == 0)
      && (b.state.HalfOpen? ==> EpisodeAdmits(cfg, evs) == b.halfOpenCalls + 1)
      && EpisodeAdmits(cfg, evs) <= Limit(cfg) + 1
  {
    if evs != [] {
      EpisodeBound(cfg, evs[..|evs| - 1]);
    }
  }

  lemma {:induction false} OpenSinceIsRecorded(cfg: Config, evs: seq<Event>)
    ensures Run(cfg, evs).state.Open? ==> Run(cfg, evs).lastStateChange == OpenSince(cfg, evs)
  {
    if evs != [] {
      OpenSinceIsRecorded(cfg, evs[..|evs| - 1]);
    }
  }

  /** An open breaker admits a call exactly when more than the timeout has passed since it opened. */
  lemma {:induction false} OpenAdmitsAfterTimeout(cfg: Config, evs: seq<Event>, now: int)
    requires Run(cfg, evs).state.Open?
    ensures Allow(cfg, Run(cfg, evs), now).1 <==> now - OpenSince(cfg, evs) > cfg.timeout
  {
    OpenSinceIsRecorded(cfg, evs);
  }

  /** A breaker that is never told of a failure stays closed and admits every call.  The cache
      service only ever reports successes, so its breakers never reject. */
  lemma {:induction false} NeverTripsUntold(cfg: Config, evs: seq<Event>, now: int)
    requires forall e | e in evs :: !e.Erred?
    ensures Run(cfg, evs).state.Closed? && Allow(cfg, Run(cfg, evs), now).1
  {
    if evs != [] {
      NeverTripsUntold(cfg, evs[..|evs| - 1], now);
      assert !evs[|evs| - 1].Erred?;
    }
  }

  // ----- Recovery with sequential calls -----

  function RunCalls(cfg: Config, b: Core, calls: seq<Call>): Core {
    if calls == [] then b
    else Execute(cfg, RunCalls(cfg, b, calls[..|calls| - 1]), calls[|calls| - 1]).0
  }

  /** From a fresh breaker. */
  function Sequential(cfg: Config, calls: seq<Call>): Core {
    RunCalls(cfg, Fresh(0), calls)
  }

  /** The breaker rejects every call from now on, whenever it comes. */
  ghost predicate Stuck(cfg: Config, b: Core) {
    forall now: int :: !Allow(cfg, b, now).1
  }

  predicate BetweenCalls(cfg: Config, b: Core) {
    && 0 <= b.halfOpenCalls <= Limit(cfg)
    && (b.state.HalfOpen? ==> b.successCount == b.halfOpenCalls + 1 && b.successCount < cfg.successThreshold)
    && (!b.state.HalfOpen? ==> b.successCount == 0)
  }

  /** Between sequential calls a half-open breaker has counted one success more than calls. */
  lemma {:induction false} SequentialCounts(cfg: Config, calls: seq<Call>)
    ensures BetweenCalls(cfg, Sequential(cfg, calls))
  {
    if calls != [] {
      SequentialCounts(cfg, calls[..|calls| - 1]);
    }
  }

  /** The same call, made n times. */
  function Same(c: Call, n: nat): seq<Call> {
    seq(n, _ => c)
  }

  lemma {:induction false} CallsTrip(cfg: Config, n: nat)
    requires n <= cfg.failureThreshold || n <= 1
    ensures Sequential(cfg, Same(Call(0, 0, false), n))
         == if n >= 1 && n >= cfg.failureThreshold then Core(Open, n, 0, 0, 0) else Core(Closed, n, 0, 0, 0)
  {
    if n > 0 {
      CallsTrip(cfg, n - 1);
      var cs := Same(Call(0, 0, false), n);
      assert cs[..n - 1] == Same(Call(0, 0, false), n - 1);
    }
  }

  /** k good calls on an open breaker after the timeout: half-open with k successes, or closed. */
  lemma {:induction false} GoodCalls(cfg: Config, b: Core, calls: seq<Call>)
    requires b.state.Open? && b.successCount == 0 && calls != []
    requires forall c | c in calls :: c.ok
    requires calls[0].asked - b.lastStateChange > cfg.timeout
    requires |calls| <= Limit(cfg) + 1
    requires |calls| == 1 || |calls| <= cfg.successThreshold
    ensures var t := RunCalls(cfg, b, calls);
      if |calls| >= cfg.successThreshold then t.state.Closed?
      else t.state.HalfOpen? && t.successCount == |calls| && t.halfOpenCalls == |calls| - 1
  {
    var last := calls[|calls| - 1];
    assert last.ok;
    if |calls| == 1 {
      assert RunCalls(cfg, b, calls[..0]) == b;
    } else {
      GoodCalls(cfg, b, calls[..|calls| - 1]);
    }
  }

  lemma {:induction false} RunCallsAppend(cfg: Config, b: Core, calls: seq<Call>, more: seq<Call>)
    ensures RunCalls(cfg, b, calls + more) == RunCalls(cfg, RunCalls(cfg, b, calls), more)
  {
    if more == [] {
      assert calls + more == calls;
    } else {
      var all := calls + more;
      assert all[..|all| - 1] == calls + more[..|more| - 1];
      RunCallsAppend(cfg, b, calls, more[..|more| - 1]);
    }
  }

  /** Sequential calls can leave the breaker rejecting forever exactly when it needs more successes
      than one half-open episode lets through. */
  lemma StuckIff(cfg: Config)
    ensures (exists calls :: Stuck(cfg, Sequential(cfg, calls))) <==> cfg.successThreshold > Limit(cfg) + 1
  {
    if calls :| Stuck(cfg, Sequential(cfg, calls)) {
      var b := Sequential(cfg, calls);
      SequentialCounts(cfg, calls);
      assert !Allow(cfg, b, b.lastStateChange + cfg.timeout + 1).1;
      assert b.state.HalfOpen?;
    }
    if cfg.successThreshold > Limit(cfg) + 1 {
      var n := if cfg.failureThreshold >= 1 then cfg.failureThreshold else 1;
      var bad := Same(Call(0, 0, false), n);
      CallsTrip(cfg, n);
      var t := if cfg.timeout >= 0 then cfg.timeout + 1 else 0;
      var good := Same(Call(t, t, true), Limit(cfg) + 1);
      GoodCalls(cfg, Sequential(cfg, bad), good);
      RunCallsAppend(cfg, Fresh(0), bad, good);
      var b := Sequential(cfg, bad + good);
      assert b.state.HalfOpen? && b.halfOpenCalls == Limit(cfg);
      assert Stuck(cfg, b);
    }
  }

  /** When it cannot get stuck, SuccessThreshold good calls after the timeout close an open breaker. */
  lemma GoodCallsClose(cfg: Config, history: seq<Call>, calls: seq<Call>)
    requires Sequential(cfg, history).state.Open?
    requires cfg.successThreshold <= Limit(cfg) + 1
    requires |calls| == if cfg.successThreshold >= 1 then cfg.successThreshold else 1
    requires forall c | c in calls :: c.ok
    requires calls[0].asked - Sequential(cfg, history).lastStateChange > cfg.timeout
    ensures Sequential(cfg, history + calls).state.Closed?
  {
    SequentialCounts(cfg, history);
    GoodCalls(cfg, Sequential(cfg, history), calls);
    RunCallsAppend(cfg, Fresh(0), history, calls);
  }
}
