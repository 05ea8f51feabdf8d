/**
 The circuit breaker under N concurrent callers.  Allow reads the state under one lock and acts
 under another, so each call is split at the lock boundaries; a schedule is any sequence of steps.
 */
module CircuitInterleaving {
  import opened CircuitBreaker

  /** Where a caller stands. */
  datatype Pc =
    | Idle
    | SawOpen       // read Open, about to compare the elapsed time without the lock
    | SawExpired    // the timeout had passed, about to take the lock
    | ReadBack      // released the lock, about to read the state again
    | SawHalfOpen   // read HalfOpen, about to take the lock and count itself
    | Running       // admitted, about to report

  datatype Kind = Plain | Probe | Counted

  /** One admission, with the state and half-open episode at the deciding read or increment. */
  datatype Admission = Admission(caller: nat, kind: Kind, state: State, episode: nat)

  datatype Sys = Sys(b: Core, now: int, pcs: seq<Pc>, episode: nat, log: seq<Admission>)

  datatype Action =
    | Pass(time: nat)
    | Advance(i: nat, ok: bool)   // caller i takes its next step; ok is what it reports, if it does

  function Init(n: nat): Sys {
    Sys(Fresh(0), 0, seq(n, _ => Idle), 0, [])
  }

  function Admit(s: Sys, i: nat, kind: Kind): Sys
    requires i < |s.pcs|
  {
    s.(pcs := s.pcs[i := Running], log := s.log + [Admission(i, kind, s.b.state, s.episode)])
  }

  function Move(s: Sys, i: nat, pc: Pc): Sys
    requires i < |s.pcs|
  {
    s.(pcs := s.pcs[i := pc])
  }

  function Step(cfg: Config, s: Sys, a: Action): Sys {
    match a
    case Pass(time) => s.(now := s.now + time)
    case Advance(i, ok) =>
      if i >= |s.pcs| then s else
      match s.pcs[i]
      case Idle =>
        (match s.b.state
         case Closed => Admit(s, i, Plain)
         case Open => Move(s, i, SawOpen)
         case HalfOpen => Move(s, i, SawHalfOpen))
      case SawOpen =>
        Move(s, i, if s.now - s.b.lastStateChange > cfg.timeout then SawExpired else Idle)
      case SawExpired =>
        if s.b.state.Open? && s.now - s.b.lastStateChange > cfg.timeout
        then Move(s, i, ReadBack).(
               b := s.b.(state := HalfOpen, lastStateChange := s.now, halfOpenCalls := 0),
               episode := s.episode + 1)
        else Move(s, i, ReadBack)
      case ReadBack =>
        if s.b.state.HalfOpen? then Admit(s, i, Probe) else Move(s, i, Idle)
      case SawHalfOpen =>
        if s.b.halfOpenCalls < cfg.halfOpenMaxCalls
        then Admit(s, i, Counted).(b := s.b.(halfOpenCalls := s.b.halfOpenCalls + 1))
        else Move(s, i, Idle)
      case Running =>
        Move(s, i, Idle).(b := if ok then OnSuccess(cfg, s.b, s.now) else OnFailure(cfg, s.b, s.now))
  }

  function RunFrom(cfg: Config, s: Sys, acts: seq<Action>): Sys {
    if acts == [] then s else Step(cfg, RunFrom(cfg, s, acts[..|acts| - 1]), acts[|acts| - 1])
  }

  function Run(cfg: Config, n: nat, acts: seq<Action>): Sys {
    RunFrom(cfg, Init(n), acts)
  }

  // ----- Counting admissions -----

  /** Admissions decided while the breaker was half-open, in episode e. */
  function InEpisode(log: seq<Admission>, e: nat): nat {
    if log == [] then 0
    else
      var last := log[|log| - 1];
      InEpisode(log[..|log| - 1], e) + if last.state.HalfOpen? && last.episode == e then 1 else 0
  }

  function CountedIn(log: seq<Admission>, e: nat): nat {
    if log == [] then 0
    else
      var last := log[|log| - 1];
      CountedIn(log[..|log| - 1], e)
        + if last.kind.Counted? && last.state.HalfOpen? && last.episode == e then 1 else 0
  }

  function ProbesBy(log: seq<Admission>, e: nat, i: nat): nat {
    if log == [] then 0
    else
      var last := log[|log| - 1];
      ProbesBy(log[..|log| - 1], e, i) + if last.kind.Probe? && last.episode == e && last.caller == i then 1 else 0
  }

  /** Uncounted admissions of the first n callers. */
  function ProbesOf(log: seq<Admission>, e: nat, n: nat): nat {
    if n == 0 then 0 else ProbesOf(log, e, n - 1) + ProbesBy(log, e, n - 1)
  }

  lemma {:induction false} ProbesOfAppend(log: seq<Admission>, a: Admission, e: nat, n: nat)
    ensures ProbesOf(log + [a], e, n)
         == ProbesOf(log, e, n) + if a.kind.Probe? && a.episode == e && a.caller < n then 1 else 0
  {
    if n > 0 {
      ProbesOfAppend(log, a, e, n - 1);
      assert (log + [a])[..|log|] == log;
    }
  }

  lemma {:induction false} ProbesOfEmpty(e: nat, n: nat)
    ensures ProbesOf([], e, n) == 0
  {
    if n > 0 {
      ProbesOfEmpty(e, n - 1);
    }
  }

  /** Half-open admissions are the counted ones and the probes of the callers. */
  lemma {:induction false} EpisodeSplits(log: seq<Admission>, e: nat, n: nat)
    requires forall a | a in log :: a.caller < n
    requires forall a | a in log :: (a.kind.Probe? ==> a.state.HalfOpen?) && (a.kind.Plain? ==> a.state.Closed?)
    ensures InEpisode(log, e) == CountedIn(log, e) + ProbesOf(log, e, n)
  {
    if log == [] {
      ProbesOfEmpty(e, n);
    } else {
      var last := log[|log| - 1];
      EpisodeSplits(log[..|log| - 1], e, n);
      ProbesOfAppend(log[..|log| - 1], last, e, n);
      assert log[..|log| - 1] + [last] == log;
      assert last in log;
    }
  }

  lemma {:induction false} ProbesOfBound(log: seq<Admission>, e: nat, n: nat)
    requires forall i: nat | i < n :: ProbesBy(log, e, i) <= 1
    ensures ProbesOf(log, e, n) <= n
  {
    if n > 0 {
      ProbesOfBound(log, e, n - 1);
    }
  }

  // ----- The invariant -----

  /** What holds of the shared state and the admissions, apart from single callers. */
  ghost predicate Shared(cfg: Config, s: Sys, n: nat) {
    && |s.pcs| == n
    && 0 <= s.b.halfOpenCalls <= Limit(cfg)
    && (forall a | a in s.log :: a.caller < n && a.episode <= s.episode)
    && (forall a | a in s.log :: (a.kind.Probe? ==> a.state.HalfOpen?) && (a.kind.Plain? ==> a.state.Closed?))
  }

  ghost predicate CountedWithin(cfg: Config, s: Sys, e: nat) {
    && CountedIn(s.log, e) <= Limit(cfg)
    && (s.b.state.HalfOpen? && e == s.episode ==> CountedIn(s.log, e) == s.b.halfOpenCalls)
    && (e > s.episode ==> CountedIn(s.log, e) == 0)
  }

  /** Once admitted uncounted, a caller reads HalfOpen for the rest of the episode, so it can only
      come back through the counted path. */
  ghost predicate ProbedOnce(s: Sys, e: nat, i: nat) {
    && ProbesBy(s.log, e, i) <= 1
    && (e > s.episode ==> ProbesBy(s.log, e, i) == 0)
    && (s.b.state.HalfOpen? && e == s.episode && i < |s.pcs| && ProbesBy(s.log, e, i) == 1 ==>
          !s.pcs[i].SawOpen? && !s.pcs[i].SawExpired? && !s.pcs[i].ReadBack?)
  }

  lemma StepShared(cfg: Config, s: Sys, a: Action, n: nat)
    requires Shared(cfg, s, n)
    ensures Shared(cfg, Step(cfg, s, a), n)
  {}

  lemma StepCounted(cfg: Config, s: Sys, a: Action, n: nat, e: nat)
    requires Shared(cfg, s, n) && CountedWithin(cfg, s, e)
    ensures CountedWithin(cfg, Step(cfg, s, a), e)
  {
    var t := Step(cfg, s, a);
    assert t.log != s.log ==> t.log[..|t.log| - 1] == s.log;
  }

  lemma StepProbed(cfg: Config, s: Sys, a: Action, n: nat, e: nat, i: nat)
    requires Shared(cfg, s, n) && ProbedOnce(s, e, i)
    ensures ProbedOnce(Step(cfg, s, a), e, i)
  {
    var t := Step(cfg, s, a);
    assert t.log != s.log ==> t.log[..|t.log| - 1] == s.log;
  }

  lemma {:induction false} RunKeeps(cfg: Config, n: nat, acts: seq<Action>, e: nat, i: nat)
    ensures Shared(cfg, Run(cfg, n, acts), n)
    ensures CountedWithin(cfg, Run(cfg, n, acts), e)
    ensures ProbedOnce(Run(cfg, n, acts), e, i)
  {
    if acts == [] {
    } else {
      hide Step, Shared, CountedWithin, ProbedOnce;
      var before := acts[..|acts| - 1];
      var s := Run(cfg, n, before);
      RunKeeps(cfg, n, before, e, i);
      StepShared(cfg, s, acts[|acts| - 1], n);
      StepCounted(cfg, s, acts[|acts| - 1], n, e);
      StepProbed(cfg, s, acts[|acts| - 1], n, e, i);
    }
  }

  /** In every interleaving one half-open episode admits at most the configured number of counted
      calls, at most one uncounted call per caller, and so at most limit + N calls in all. */
  lemma EpisodeBound(cfg: Config, n: nat, acts: seq<Action>, e: nat)
    ensures var log := Run(cfg, n, acts).log;
      && CountedIn(log, e) <= Limit(cfg)
      && (forall i: nat :: ProbesBy(log, e, i) <= 1)
      && InEpisode(log, e) <= Limit(cfg) + n
  {
    var s := Run(cfg, n, acts);
    RunKeeps(cfg, n, acts, e, 0);
    forall i: nat ensures ProbesBy(s.log, e, i) <= 1 {
      RunKeeps(cfg, n, acts, e, i);
    }
    EpisodeSplits(s.log, e, n);
    ProbesOfBound(s.log, e, n);
  }

  // ----- Admission while open -----

  ghost predicate AdmitsWhileOpen(cfg: Config, n: nat, acts: seq<Action>) {
    exists a | a in Run(cfg, n, acts).log :: a.state.Open?
  }

  /** A lone caller that read HalfOpen still finds it so when it counts itself. */
  ghost predicate NoneWhileOpen(s: Sys) {
    && (forall a | a in s.log :: !a.state.Open?)
    && (forall i | 0 <= i < |s.pcs| :: s.pcs[i].SawHalfOpen? ==> s.b.state.HalfOpen?)
  }

  lemma {:induction false} LoneCaller(cfg: Config, n: nat, acts: seq<Action>)
    requires n <= 1
    ensures NoneWhileOpen(Run(cfg, n, acts)) && |Run(cfg, n, acts).pcs| == n
  {
    if acts != [] {
      LoneCaller(cfg, n, acts[..|acts| - 1]);
    }
  }

  lemma {:induction false} NoneCounted(cfg: Config, n: nat, acts: seq<Action>)
    requires cfg.halfOpenMaxCalls <= 0
    ensures forall a | a in Run(cfg, n, acts).log :: !a.state.Open?
  {
    if acts != [] {
      NoneCounted(cfg, n, acts[..|acts| - 1]);
      RunKeeps(cfg, n, acts[..|acts| - 1], 0, 0);
    }
  }

  /** Caller 0 fails k calls in a row. */
  function FailuresOfZero(k: nat): seq<Action> {
    if k == 0 then [] else FailuresOfZero(k - 1) + [Advance(0, true)] + [Advance(0, false)]
  }

  lemma RunOne(cfg: Config, s: Sys, acts: seq<Action>, a: Action)
    ensures RunFrom(cfg, s, acts + [a]) == Step(cfg, RunFrom(cfg, s, acts), a)
  {
    hide Step;
    assert (acts + [a])[..|acts|] == acts;
  }

  /** One call of caller 0 on a closed breaker that fails. */
  lemma FailOnce(cfg: Config, s: Sys)
    requires |s.pcs| >= 1 && s.pcs[0].Idle? && s.b.state.Closed?
    ensures var t := Step(cfg, Step(cfg, s, Advance(0, true)), Advance(0, false));
      t.pcs == s.pcs && t.now == s.now && t.b == OnFailure(cfg, s.b, s.now)
  {
    assert s.pcs[0 := Running][0 := Idle] == s.pcs;
  }

  lemma {:induction false} FailuresTrip(cfg: Config, n: nat, k: nat)
    requires n >= 1 && (k <= cfg.failureThreshold || k <= 1)
    ensures var s := Run(cfg, n, FailuresOfZero(k));
      && s.pcs == Init(n).pcs && s.now == 0
      && s.b == if k >= 1 && k >= cfg.failureThreshold then Core(Open, k, 0, 0, 0) else Core(Closed, k, 0, 0, 0)
  {
    hide Step;
    if k == 0 {
    } else {
      FailuresTrip(cfg, n, k - 1);
      FailOnce(cfg, Run(cfg, n, FailuresOfZero(k - 1)));
      RunOne(cfg, Init(n), FailuresOfZero(k - 1), Advance(0, true));
      RunOne(cfg, Init(n), FailuresOfZero(k - 1) + [Advance(0, true)], Advance(0, false));
      hide RunFrom;
    }
  }

  /** From an open breaker past its timeout: caller 1 probes, caller 0 reads HalfOpen, caller 1 fails,
      caller 0 counts itself in although the breaker is open again. */
  lemma StaleCount(cfg: Config, s: Sys) returns (t: Sys, acts: seq<Action>)
    requires |s.pcs| >= 2 && s.pcs[0].Idle? && s.pcs[1].Idle? && cfg.halfOpenMaxCalls >= 1
    requires s.b.state.Open? && s.now - s.b.lastStateChange > cfg.timeout
    ensures t == RunFrom(cfg, s, acts) && exists a | a in t.log :: a.state.Open?
  {
    var one, zero, fail := Advance(1, true), Advance(0, true), Advance(1, false);
    acts := [];
    t := s;
    RunOne(cfg, s, acts, one);  acts := acts + [one];   t := Step(cfg, t, one);
    RunOne(cfg, s, acts, one);  acts := acts + [one];   t := Step(cfg, t, one);
    RunOne(cfg, s, acts, one);  acts := acts + [one];   t := Step(cfg, t, one);
    assert t.b.state.HalfOpen? && t.b.halfOpenCalls == 0 && t.pcs == s.pcs[1 := ReadBack];
    RunOne(cfg, s, acts, one);  acts := acts + [one];   t := Step(cfg, t, one);
    RunOne(cfg, s, acts, zero); acts := acts + [zero];  t := Step(cfg, t, zero);
    assert t.pcs[0].SawHalfOpen? && t.pcs[1].Running?;
    RunOne(cfg, s, acts, fail); acts := acts + [fail];  t := Step(cfg, t, fail);
    assert t.b.state.Open? && t.b.halfOpenCalls == 0;
    RunOne(cfg, s, acts, zero); acts := acts + [zero];  t := Step(cfg, t, zero);
    assert t.log[|t.log| - 1] == Admission(0, Counted, Open, t.episode);
    assert t.log[|t.log| - 1] in t.log;
  }

  lemma {:induction false} RunAppend(cfg: Config, s: Sys, acts: seq<Action>, more: seq<Action>)
    ensures RunFrom(cfg, s, acts + more) == RunFrom(cfg, RunFrom(cfg, s, acts), more)
  {
    hide Step;
    if more == [] {
      assert acts + more == acts;
    } else {
      var all := acts + more;
      assert all[..|all| - 1] == acts + more[..|more| - 1];
      RunAppend(cfg, s, acts, more[..|more| - 1]);
    }
  }

  lemma TwoCallersAdmitWhileOpen(cfg: Config, n: nat) returns (acts: seq<Action>)
    requires n >= 2 && cfg.halfOpenMaxCalls >= 1
    ensures AdmitsWhileOpen(cfg, n, acts)
  {
    hide Step, RunFrom, FailuresOfZero;
    var k: nat := if cfg.failureThreshold >= 1 then cfg.failureThreshold else 1;
    var trip := FailuresOfZero(k);
    FailuresTrip(cfg, n, k);
    var wait := Pass(if cfg.timeout >= 0 then cfg.timeout + 1 else 0);
    RunOne(cfg, Init(n), trip, wait);
    var s := Run(cfg, n, trip + [wait]);
    assert s == Run(cfg, n, trip).(now := wait.time) by { WaitStep(cfg, Run(cfg, n, trip), wait.time); }
    var t, more := StaleCount(cfg, s);
    RunAppend(cfg, Init(n), trip + [wait], more);
    acts := trip + [wait] + more;
  }

  lemma WaitStep(cfg: Config, s: Sys, time: nat)
    ensures Step(cfg, s, Pass(time)) == s.(now := s.now + time)
  {}

  /** The breaker can let a call through while it is open exactly when two callers share it and
      half-open calls are allowed at all: the half-open path of Allow does not look at the state again. */
  lemma AdmitsWhileOpenIff(cfg: Config, n: nat)
    ensures (exists acts :: AdmitsWhileOpen(cfg, n, acts)) <==> n >= 2 && cfg.halfOpenMaxCalls >= 1
  {
    if acts :| AdmitsWhileOpen(cfg, n, acts) {
      if n <= 1 { LoneCaller(cfg, n, acts); }
      if cfg.halfOpenMaxCalls <= 0 { NoneCounted(cfg, n, acts); }
    }
    if n >= 2 && cfg.halfOpenMaxCalls >= 1 {
      var acts := TwoCallersAdmitWhileOpen(cfg, n);
    }
  }

  /** In every interleaving in which no call reports a failure the breaker stays closed, and a caller
      is only ever idle or admitted: nobody is rejected. */
  lemma {:induction false} NeverTripsUntold(cfg: Config, n: nat, acts: seq<Action>)
    requires forall a | a in acts :: a.Advance? ==> a.ok
    ensures var s := Run(cfg, n, acts);
      s.b.state.Closed? && forall i | 0 <= i < |s.pcs| :: s.pcs[i].Idle? || s.pcs[i].Running?
  {
    if acts != [] {
      NeverTripsUntold(cfg, n, acts[..|acts| - 1]);
      assert acts[|acts| - 1] in acts;
    }
  }
}
