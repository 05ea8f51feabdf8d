/**
 The breaker's state in every schedule of N callers, said of what the callers reported and when; and a caller that
 nobody interrupts, against the atomic call.
 */
module CircuitHistory {
  import opened Storage
  import opened CircuitBreaker
  import opened CircuitInterleaving

  /** What a caller reports in this step, if one does. */
  function Reported(s: Sys, a: CircuitInterleaving.Action): Option<bool> {
    if a.Advance? && a.i < |s.pcs| && s.pcs[a.i].Running? then Some(a.ok) else None
  }

  /** How many failures were reported since the last reported success. */
  function FailuresInARow(cfg: Config, n: nat, acts: seq<CircuitInterleaving.Action>): nat {
    if acts == [] then 0
    else
      var before := acts[..|acts| - 1];
      match Reported(Run(cfg, n, before), acts[|acts| - 1])
      case None => FailuresInARow(cfg, n, before)
      case Some(true) => 0
      case Some(false) => FailuresInARow(cfg, n, before) + 1
  }

  /** The last step changed the state. */
  predicate Changes(cfg: Config, n: nat, acts: seq<CircuitInterleaving.Action>) {
    acts != [] && Run(cfg, n, acts).b.state != Run(cfg, n, acts[..|acts| - 1]).b.state
  }

  /** When the state last changed. */
  function ChangedAt(cfg: Config, n: nat, acts: seq<CircuitInterleaving.Action>): int {
    if acts == [] then 0
    else if Changes(cfg, n, acts) then Run(cfg, n, acts).now
    else ChangedAt(cfg, n, acts[..|acts| - 1])
  }

  /** How many successes were reported since the state last changed. */
  function SuccessesSince(cfg: Config, n: nat, acts: seq<CircuitInterleaving.Action>): nat {
    if acts == [] || Changes(cfg, n, acts) then 0
    else
      var before := acts[..|acts| - 1];
      SuccessesSince(cfg, n, before)
        + if Reported(Run(cfg, n, before), acts[|acts| - 1]) == Some(true) then 1 else 0
  }

  /** The fields of the breaker are what the reports make them. */
  predicate FieldsTell(cfg: Config, n: nat, acts: seq<CircuitInterleaving.Action>) {
    var b := Run(cfg, n, acts).b;
    && b.lastStateChange == ChangedAt(cfg, n, acts)
    && (b.state.Closed? ==> b.failureCount == FailuresInARow(cfg, n, acts))
    && b.successCount == (if b.state.HalfOpen? then SuccessesSince(cfg, n, acts) else 0)
  }

  lemma NextStep(cfg: Config, n: nat, acts: seq<CircuitInterleaving.Action>, a: CircuitInterleaving.Action)
    ensures var s, t := Run(cfg, n, acts), Run(cfg, n, acts + [a]);
      && t == Step(cfg, s, a)
      && ChangedAt(cfg, n, acts + [a]) == (if t.b.state != s.b.state then t.now else ChangedAt(cfg, n, acts))
      && FailuresInARow(cfg, n, acts + [a])
           == (match Reported(s, a)
               case None => FailuresInARow(cfg, n, acts)
               case Some(ok) => if ok then 0 else FailuresInARow(cfg, n, acts) + 1)
      && SuccessesSince(cfg, n, acts + [a])
           == (if t.b.state != s.b.state then 0
               else SuccessesSince(cfg, n, acts) + if Reported(s, a) == Some(true) then 1 else 0)
  {
    hide Step;
    var all := acts + [a];
    assert all[..|all| - 1] == acts && all[|all| - 1] == a;
    RunOne(cfg, Init(n), acts, a);
  }

  lemma StepTells(cfg: Config, n: nat, acts: seq<CircuitInterleaving.Action>, a: CircuitInterleaving.Action)
    requires FieldsTell(cfg, n, acts)
    ensures FieldsTell(cfg, n, acts + [a])
  {
    NextStep(cfg, n, acts, a);
    hide Run, ChangedAt, FailuresInARow, SuccessesSince;
  }

  lemma {:induction false} RunTells(cfg: Config, n: nat, acts: seq<CircuitInterleaving.Action>)
    ensures FieldsTell(cfg, n, acts)
  {
    if acts != [] {
      var before, last := acts[..|acts| - 1], acts[|acts| - 1];
      RunTells(cfg, n, before);
      StepTells(cfg, n, before, last);
      assert before + [last] == acts;
    }
  }

  /** In every schedule: a closed breaker opens at the failure that makes the threshold's number in a row; an open one
      becomes half-open when a caller that saw its timeout pass takes the lock and more than the timeout has passed
      since it opened; a half-open one opens at the first failure and closes at the threshold's number of
      successes.  Nothing else changes its state. */
  lemma StateMoves(cfg: Config, n: nat, acts: seq<CircuitInterleaving.Action>, a: CircuitInterleaving.Action)
    ensures var s, t := Run(cfg, n, acts), Run(cfg, n, acts + [a]);
      t.b.state ==
        match s.b.state
        case Closed =>
          if Reported(s, a) == Some(false) && FailuresInARow(cfg, n, acts) + 1 >= cfg.failureThreshold
          then Open else Closed
        case Open =>
          if a.Advance? && a.i < |s.pcs| && s.pcs[a.i] == SawExpired && s.now - ChangedAt(cfg, n, acts) > cfg.timeout
          then HalfOpen else Open
        case HalfOpen =>
          match Reported(s, a)
          case None => HalfOpen
          case Some(ok) =>
            if !ok then Open
            else if SuccessesSince(cfg, n, acts) + 1 >= cfg.successThreshold then Closed
            else HalfOpen
  {
    RunTells(cfg, n, acts);
    NextStep(cfg, n, acts, a);
    hide Run, ChangedAt, FailuresInARow, SuccessesSince;
  }

  // ----- A caller that nobody interrupts -----

  /** k steps of caller i. */
  function Go(cfg: Config, s: Sys, i: nat, k: nat): Sys {
    if k == 0 then s else Step(cfg, Go(cfg, s, i, k - 1), CircuitInterleaving.Advance(i, true))
  }

  lemma {:induction false} GoRuns(cfg: Config, s: Sys, i: nat, k: nat) returns (acts: seq<CircuitInterleaving.Action>)
    ensures (forall a | a in acts :: a.Advance? && a.i == i) && Go(cfg, s, i, k) == RunFrom(cfg, s, acts)
  {
    hide Step;
    acts := [];
    if k > 0 {
      acts := GoRuns(cfg, s, i, k - 1);
      RunOne(cfg, s, acts, CircuitInterleaving.Advance(i, true));
      acts := acts + [CircuitInterleaving.Advance(i, true)];
    }
  }

  /** The caller was answered as the atomic call is, and back where it started if it was turned away. */
  predicate AnsweredAsAtomic(cfg: Config, s: Sys, i: nat, t: Sys)
    requires i < |s.pcs|
  {
    var (b, admitted) := Allow(cfg, s.b, s.now);
    && t.b == b && t.now == s.now && t.pcs == s.pcs[i := if admitted then Running else Idle]
    && |t.log| == |s.log| + if admitted then 1 else 0
  }

  lemma AsksClosed(cfg: Config, s: Sys, i: nat)
    requires i < |s.pcs| && s.pcs[i].Idle? && s.b.state.Closed?
    ensures AnsweredAsAtomic(cfg, s, i, Go(cfg, s, i, 1))
  {
    assert Go(cfg, s, i, 0) == s;
  }

  lemma AsksHalfOpen(cfg: Config, s: Sys, i: nat)
    requires i < |s.pcs| && s.pcs[i].Idle? && s.b.state.HalfOpen?
    ensures AnsweredAsAtomic(cfg, s, i, Go(cfg, s, i, 2))
  {
    assert Go(cfg, s, i, 0) == s;
    var t := Go(cfg, s, i, 1);
    assert t == Move(s, i, SawHalfOpen);
  }

  lemma AsksOpen(cfg: Config, s: Sys, i: nat)
    requires i < |s.pcs| && s.pcs[i].Idle? && s.b.state.Open?
    ensures AnsweredAsAtomic(cfg, s, i, Go(cfg, s, i, if s.now - s.b.lastStateChange > cfg.timeout then 4 else 2))
  {
    assert Go(cfg, s, i, 0) == s;
    var t := Go(cfg, s, i, 1);
    assert t == Move(s, i, SawOpen);
    var u := Go(cfg, s, i, 2);
    if s.now - s.b.lastStateChange > cfg.timeout {
      assert u == Move(s, i, SawExpired) by { assert t.pcs[i := SawExpired] == s.pcs[i := SawExpired]; }
      var w := Go(cfg, s, i, 3);
      assert w.pcs == s.pcs[i := ReadBack] by { assert u.pcs[i := ReadBack] == s.pcs[i := ReadBack]; }
      assert w.pcs[i := Running] == s.pcs[i := Running];
    } else {
      assert u == Move(s, i, Idle) by { assert t.pcs[i := Idle] == s.pcs[i := Idle]; }
    }
  }

  /** An idle caller that takes all its steps of asking at once finds the breaker as the atomic call does, changes it
      alike, and is admitted alike. */
  lemma AsksAtOnce(cfg: Config, s: Sys, i: nat) returns (acts: seq<CircuitInterleaving.Action>, t: Sys)
    requires i < |s.pcs| && s.pcs[i].Idle?
    ensures (forall a | a in acts :: a.Advance? && a.i == i) && t == RunFrom(cfg, s, acts)
    ensures var (b, admitted) := Allow(cfg, s.b, s.now);
      && t.b == b && t.now == s.now && t.pcs == s.pcs[i := if admitted then Running else Idle]
      && |t.log| == |s.log| + if admitted then 1 else 0
  {
    var k := 4;
    match s.b.state {
      case Closed =>
        AsksClosed(cfg, s, i);
        k := 1;
      case HalfOpen =>
        AsksHalfOpen(cfg, s, i);
        k := 2;
      case Open =>
        AsksOpen(cfg, s, i);
        k := if s.now - s.b.lastStateChange > cfg.timeout then 4 else 2;
    }
    acts := GoRuns(cfg, s, i, k);
    t := Go(cfg, s, i, k);
    hide Go, RunFrom;
  }

  /** With its report it is one sequential call. */
  lemma CallsAtOnce(cfg: Config, s: Sys, i: nat, ok: bool)
    returns (acts: seq<CircuitInterleaving.Action>, t: Sys, admitted: bool)
    requires i < |s.pcs| && s.pcs[i].Idle?
    ensures (forall a | a in acts :: a.Advance? && a.i == i) && t == RunFrom(cfg, s, acts)
    ensures (t.b, admitted) == Execute(cfg, s.b, Call(s.now, s.now, ok))
    ensures t.now == s.now && t.pcs == s.pcs && |t.log| == |s.log| + if admitted then 1 else 0
  {
    acts, t := AsksAtOnce(cfg, s, i);
    admitted := t.pcs[i].Running?;
    hide RunFrom;
    if admitted {
      var report := CircuitInterleaving.Advance(i, ok);
      RunOne(cfg, s, acts, report);
      acts, t := acts + [report], Step(cfg, t, report);
      assert s.pcs[i := Running][i := Idle] == s.pcs;
    }
  }
}
