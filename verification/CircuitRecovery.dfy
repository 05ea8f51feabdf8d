/** Whether a breaker shared by N interleaved callers can always admit another call. */
module CircuitRecovery {
  import opened CircuitBreaker
  import opened CircuitInterleaving

  /** Whatever the callers do and however long they wait, no call is admitted any more. */
  ghost predicate Deadlocked(cfg: Config, s: Sys) {
    forall acts :: RunFrom(cfg, s, acts).log == s.log
  }

  // ----- Callers that still owe a report -----

  predicate Owes(pc: Pc) {
    pc.Running? || pc.ReadBack?
  }

  function Owing(pcs: seq<Pc>): nat {
    if pcs == [] then 0 else (if Owes(pcs[0]) then 1 else 0) + Owing(pcs[1..])
  }

  lemma {:induction false} OwingMoves(pcs: seq<Pc>, i: nat, pc: Pc)
    requires i < |pcs|
    ensures Owing(pcs[i := pc]) + (if Owes(pcs[i]) then 1 else 0) == Owing(pcs) + if Owes(pc) then 1 else 0
  {
    if i == 0 {
      assert pcs[0 := pc][1..] == pcs[1..];
    } else {
      assert pcs[i := pc][1..] == pcs[1..][i - 1 := pc];
      OwingMoves(pcs[1..], i - 1, pc);
    }
  }

  lemma {:induction false} IdleOwesNothing(pcs: seq<Pc>)
    requires forall i | 0 <= i < |pcs| :: pcs[i].Idle?
    ensures Owing(pcs) == 0
  {
    if pcs != [] {
      IdleOwesNothing(pcs[1..]);
    }
  }

  /** In HalfOpen the successes reported, and the calls that may still report one, outnumber the calls
      counted in. */
  predicate Recoverable(cfg: Config, s: Sys) {
    && (!s.b.state.HalfOpen? ==> s.b.successCount == 0)
    && 0 <= s.b.successCount && (s.b.successCount == 0 || s.b.successCount < cfg.successThreshold)
    && (s.b.state.HalfOpen? ==> s.b.successCount + Owing(s.pcs) >= s.b.halfOpenCalls + 1)
  }

  lemma StepRecoverable(cfg: Config, s: Sys, a: Action)
    requires Recoverable(cfg, s)
    ensures Recoverable(cfg, Step(cfg, s, a))
  {
    hide Owing;
    if a.Advance? && a.i < |s.pcs| {
      var t := Step(cfg, s, a);
      assert t.pcs == s.pcs[a.i := t.pcs[a.i]];
      OwingMoves(s.pcs, a.i, t.pcs[a.i]);
    }
  }

  /** In every interleaving: a half-open breaker has successes counted or outstanding for every call it
      has counted in, and for the one that opened the episode. */
  lemma {:induction false} RunRecoverable(cfg: Config, n: nat, acts: seq<Action>)
    ensures Recoverable(cfg, Run(cfg, n, acts))
  {
    if acts == [] {
    } else {
      hide Step, Recoverable;
      RunRecoverable(cfg, n, acts[..|acts| - 1]);
      StepRecoverable(cfg, Run(cfg, n, acts[..|acts| - 1]), acts[|acts| - 1]);
    }
  }

  // ----- A way to the next admission -----

  function Togo(pc: Pc): nat {
    match pc
    case Idle => 0
    case Running => 1
    case ReadBack => 2
    case SawHalfOpen => 2
    case SawExpired => 3
    case SawOpen => 4
  }

  lemma StepComesBack(cfg: Config, s: Sys, i: nat)
    requires i < |s.pcs| && !s.pcs[i].Idle?
    ensures var t := Step(cfg, s, Advance(i, true));
      t.pcs == s.pcs[i := t.pcs[i]] && Togo(t.pcs[i]) < Togo(s.pcs[i])
  {}

  /** A caller left to itself becomes idle. */
  lemma {:induction false} ComesBack(cfg: Config, s: Sys, i: nat) returns (acts: seq<Action>)
    requires i < |s.pcs|
    ensures RunFrom(cfg, s, acts).pcs == s.pcs[i := Idle]
    decreases Togo(s.pcs[i])
  {
    acts := [];
    if !s.pcs[i].Idle? {
      var go := Advance(i, true);
      var t := Step(cfg, s, go);
      StepComesBack(cfg, s, i);
      hide Step, Togo;
      var more := ComesBack(cfg, t, i);
      RunOne(cfg, s, [], go);
      assert RunFrom(cfg, s, []) == s && [] + [go] == [go];
      RunAppend(cfg, s, [go], more);
      acts := [go] + more;
      assert s.pcs[i := t.pcs[i]][i := Idle] == s.pcs[i := Idle];
    }
  }

  lemma {:induction false} AllComeBack(cfg: Config, s: Sys, k: nat) returns (acts: seq<Action>)
    requires k <= |s.pcs|
    ensures var t := RunFrom(cfg, s, acts);
      |t.pcs| == |s.pcs| && forall i | 0 <= i < k :: t.pcs[i].Idle?
  {
    hide Step;
    if k == 0 {
      acts := [];
    } else {
      var before := AllComeBack(cfg, s, k - 1);
      var more := ComesBack(cfg, RunFrom(cfg, s, before), k - 1);
      RunAppend(cfg, s, before, more);
      acts := before + more;
    }
  }

  /** With every caller idle, a recoverable breaker lets the next call through, if need be after a wait. */
  lemma NextIsAdmitted(cfg: Config, s: Sys) returns (acts: seq<Action>)
    requires |s.pcs| >= 1 && (forall i | 0 <= i < |s.pcs| :: s.pcs[i].Idle?)
    requires Recoverable(cfg, s) && s.b.halfOpenCalls >= 0 && cfg.successThreshold <= Limit(cfg) + 1
    ensures |RunFrom(cfg, s, acts).log| > |s.log|
  {
    var go := Advance(0, true);
    assert RunFrom(cfg, s, []) == s;
    match s.b.state
    case Closed =>
      acts := [] + [go];
      RunOne(cfg, s, [], go);
    case HalfOpen =>
      IdleOwesNothing(s.pcs);
      assert s.b.halfOpenCalls < cfg.halfOpenMaxCalls;
      acts := [] + [go] + [go];
      RunOne(cfg, s, [], go);
      RunOne(cfg, s, [] + [go], go);
    case Open =>
      acts := Reopens(cfg, s);
  }

  /** The breaker half-open since now, with a new episode. */
  function Reopened(s: Sys, now: int): Sys {
    s.(now := now, b := s.b.(state := HalfOpen, lastStateChange := now, halfOpenCalls := 0), episode := s.episode + 1)
  }

  /** After the timeout, a caller that sees Open gets as far as reading back the state it has set. */
  lemma OpensUp(cfg: Config, s: Sys)
    requires |s.pcs| >= 1 && s.pcs[0].Idle? && s.b.state.Open? && s.now - s.b.lastStateChange > cfg.timeout
    ensures var go := Advance(0, true);
      Step(cfg, Step(cfg, Step(cfg, s, go), go), go) == Move(Reopened(s, s.now), 0, ReadBack)
  {
    var go := Advance(0, true);
    assert Step(cfg, s, go) == Move(s, 0, SawOpen);
    assert Step(cfg, Move(s, 0, SawOpen), go) == Move(s, 0, SawExpired) by {
      assert s.pcs[0 := SawOpen][0 := SawExpired] == s.pcs[0 := SawExpired];
    }
    assert s.pcs[0 := SawExpired][0 := ReadBack] == s.pcs[0 := ReadBack];
  }

  /** Caller 0 waits for the timeout and then opens the breaker half. */
  lemma WaitsAndOpens(cfg: Config, s: Sys) returns (acts: seq<Action>, now: int)
    requires |s.pcs| >= 1 && s.pcs[0].Idle? && s.b.state.Open?
    ensures RunFrom(cfg, s, acts) == Move(Reopened(s, now), 0, ReadBack)
  {
    var go := Advance(0, true);
    var due := s.b.lastStateChange + cfg.timeout + 1;
    var wait := Pass(if due >= s.now then due - s.now else 0);
    now := s.now + wait.time;
    WaitStep(cfg, s, wait.time);
    OpensUp(cfg, s.(now := now));
    assert RunFrom(cfg, s, []) == s;
    hide Step, RunFrom;
    acts := [] + [wait] + [go] + [go] + [go];
    RunOne(cfg, s, [], wait);
    RunOne(cfg, s, [] + [wait], go);
    RunOne(cfg, s, [] + [wait] + [go], go);
    RunOne(cfg, s, [] + [wait] + [go] + [go], go);
  }

  lemma Reopens(cfg: Config, s: Sys) returns (acts: seq<Action>)
    requires |s.pcs| >= 1 && s.pcs[0].Idle? && s.b.state.Open?
    ensures |RunFrom(cfg, s, acts).log| > |s.log|
  {
    var go := Advance(0, true);
    var open, now := WaitsAndOpens(cfg, s);
    RunOne(cfg, s, open, go);
    acts := open + [go];
    var t := Move(Reopened(s, now), 0, ReadBack);
    assert |Step(cfg, t, go).log| == |s.log| + 1;
  }

  lemma StepLogs(cfg: Config, s: Sys, a: Action)
    ensures s.log <= Step(cfg, s, a).log
  {}

  lemma {:induction false} RunLogs(cfg: Config, s: Sys, acts: seq<Action>)
    ensures s.log <= RunFrom(cfg, s, acts).log
  {
    hide Step;
    if acts != [] {
      RunLogs(cfg, s, acts[..|acts| - 1]);
      StepLogs(cfg, RunFrom(cfg, s, acts[..|acts| - 1]), acts[|acts| - 1]);
    }
  }

  lemma NeverDeadlocks(cfg: Config, n: nat, acts: seq<Action>)
    requires n >= 1 && cfg.successThreshold <= Limit(cfg) + 1
    ensures !Deadlocked(cfg, Run(cfg, n, acts))
  {
    hide Step, RunFrom;
    var s := Run(cfg, n, acts);
    RunKeeps(cfg, n, acts, 0, 0);
    var back := AllComeBack(cfg, s, n);
    RunAppend(cfg, Init(n), acts, back);
    RunRecoverable(cfg, n, acts + back);
    RunKeeps(cfg, n, acts + back, 0, 0);
    var t := RunFrom(cfg, s, back);
    var next := NextIsAdmitted(cfg, t);
    RunLogs(cfg, s, back);
    RunAppend(cfg, s, back, next);
    assert RunFrom(cfg, s, back + next).log != s.log;
  }

  // ----- A schedule that ends in deadlock -----

  /** Half-open, with no call to count in left, and nobody on the way to a report. */
  predicate Exhausted(cfg: Config, s: Sys) {
    && s.b.state.HalfOpen? && s.b.halfOpenCalls >= cfg.halfOpenMaxCalls
    && forall i | 0 <= i < |s.pcs| :: s.pcs[i].Idle? || s.pcs[i].SawHalfOpen?
  }

  lemma {:induction false} ExhaustedStays(cfg: Config, s: Sys, acts: seq<Action>)
    requires Exhausted(cfg, s)
    ensures Exhausted(cfg, RunFrom(cfg, s, acts)) && RunFrom(cfg, s, acts).log == s.log
  {
    if acts != [] {
      ExhaustedStays(cfg, s, acts[..|acts| - 1]);
    }
  }

  /** Half-open with k calls counted in, all of which have reported success, as has the first. */
  predicate Halfway(cfg: Config, s: Sys, k: nat) {
    && s.b.state.HalfOpen? && s.b.halfOpenCalls == k && s.b.successCount == k + 1
    && |s.pcs| >= 1 && forall i | 0 <= i < |s.pcs| :: s.pcs[i].Idle?
  }

  /** Caller 0 gets through as the first call of an episode, and reports success. */
  lemma ProbeSucceeds(cfg: Config, s: Sys)
    requires |s.pcs| >= 1 && s.pcs[0].ReadBack? && s.b.state.HalfOpen? && s.b.successCount + 1 < cfg.successThreshold
    ensures var go := Advance(0, true); var t := Step(cfg, Step(cfg, s, go), go);
      t.pcs == s.pcs[0 := Idle] && t.b == s.b.(successCount := s.b.successCount + 1)
  {
    assert s.pcs[0 := Running][0 := Idle] == s.pcs[0 := Idle];
  }

  lemma Probes(cfg: Config, s: Sys) returns (acts: seq<Action>)
    requires s.b.state.Open? && s.b.successCount == 0 && cfg.successThreshold > 1
    requires |s.pcs| >= 1 && forall i | 0 <= i < |s.pcs| :: s.pcs[i].Idle?
    ensures Halfway(cfg, RunFrom(cfg, s, acts), 0)
  {
    hide Step, RunFrom;
    var go := Advance(0, true);
    var open, now := WaitsAndOpens(cfg, s);
    var t := RunFrom(cfg, s, open);
    ProbeSucceeds(cfg, t);
    RunOne(cfg, s, open, go);
    RunOne(cfg, s, open + [go], go);
    acts := open + [go] + [go];
    assert t.pcs[0 := Idle] == s.pcs;
  }

  lemma {:induction false} CountsIn(cfg: Config, s: Sys, k: nat) returns (acts: seq<Action>)
    requires Halfway(cfg, s, 0) && k <= Limit(cfg) && cfg.successThreshold > Limit(cfg) + 1
    ensures Halfway(cfg, RunFrom(cfg, s, acts), k)
  {
    if k == 0 {
      acts := [];
    } else {
      var before := CountsIn(cfg, s, k - 1);
      var go := Advance(0, true);
      var s0 := RunFrom(cfg, s, before);
      var s1 := Step(cfg, s0, go);
      assert s1 == s0.(pcs := s0.pcs[0 := SawHalfOpen]);
      var s2 := Step(cfg, s1, go);
      assert s2.pcs == s0.pcs[0 := Running] && s2.b == s0.b.(halfOpenCalls := k);
      var s3 := Step(cfg, s2, go);
      assert s3.pcs == s0.pcs && s3.b == s2.b.(successCount := k + 1);
      hide Step;
      acts := before + [go] + [go] + [go];
      RunOne(cfg, s, before, go);
      RunOne(cfg, s, before + [go], go);
      RunOne(cfg, s, before + [go] + [go], go);
    }
  }

  lemma Deadlocks(cfg: Config, n: nat) returns (acts: seq<Action>)
    requires n >= 1 && cfg.successThreshold > Limit(cfg) + 1
    ensures Deadlocked(cfg, Run(cfg, n, acts))
  {
    var k: nat := if cfg.failureThreshold >= 1 then cfg.failureThreshold else 1;
    var trip := FailuresOfZero(k);
    FailuresTrip(cfg, n, k);
    hide Step, RunFrom, FailuresOfZero;
    var probe := Probes(cfg, Run(cfg, n, trip));
    RunAppend(cfg, Init(n), trip, probe);
    var count := CountsIn(cfg, Run(cfg, n, trip + probe), Limit(cfg));
    RunAppend(cfg, Init(n), trip + probe, count);
    acts := trip + probe + count;
    var s := Run(cfg, n, acts);
    forall more ensures RunFrom(cfg, s, more).log == s.log {
      ExhaustedStays(cfg, s, more);
    }
  }

  /** N interleaved callers can drive the breaker into admitting nobody any more exactly when it asks for
      more successes than one half-open episode lets through.  Otherwise every reachable state, with calls
      in any stage, leads on to another admission. */
  lemma DeadlockIff(cfg: Config, n: nat)
    requires n >= 1
    ensures (exists acts :: Deadlocked(cfg, Run(cfg, n, acts))) <==> cfg.successThreshold > Limit(cfg) + 1
  {
    if cfg.successThreshold > Limit(cfg) + 1 {
      var acts := Deadlocks(cfg, n);
    } else {
      forall acts ensures !Deadlocked(cfg, Run(cfg, n, acts)) {
        NeverDeadlocks(cfg, n, acts);
      }
    }
  }
}
