/**
 The write-behind pipeline inside the cache service: the service runs it as a pipeline of its own, and
 where nothing fails its write-behind Sets leave the backends as write-through Sets would.
 */
module ServiceOrder {
  import opened Storage
  import opened Routing
  import opened CacheService
  import opened ReadYourWrites
  import WB = WriteBehind
  import O = WriteBehindOrder

  // ----- The pipeline's share of a run -----

  /** What one step of the service makes the pipeline do. */
  ghost function PipeSteps(cfg: Config, s: Service, a: Action): seq<WB.Action> {
    match a
    case Worker(w) => if WorkerMay(s, w) then [w] else []
    case Advance(i, ch) =>
      if i < |s.tasks| && s.tasks[i].SetEnqueue? && WB.Enabled(s.pipe, WB.Enqueue(s.tasks[i].e))
      then [WB.Enqueue(s.tasks[i].e)] else []
    case _ => []
  }

  ghost function Projection(cfg: Config, s: Service, acts: seq<Action>): seq<WB.Action> {
    if acts == [] then []
    else
      var before := acts[..|acts| - 1];
      Projection(cfg, s, before) + PipeSteps(cfg, RunFrom(cfg, s, before), acts[|acts| - 1])
  }

  lemma PipeChange(cfg: Config, s: Service, a: Action)
    ensures var ws := PipeSteps(cfg, s, a);
      |ws| <= 1 && Step(cfg, s, a).pipe == if ws == [] then s.pipe else WB.Step(s.pipe, ws[0])
  {
    hide CanWrite, CanRead, WB.Step, WB.Enabled;
  }

  lemma ShortRun(p: WB.Pipe, ws: seq<WB.Action>)
    requires |ws| <= 1
    ensures WB.RunFrom(p, ws) == if ws == [] then p else WB.Step(p, ws[0])
  {
    hide WB.Step;
    if ws != [] {
      assert ws[..0] == [];
    }
  }

  lemma PipeStep(cfg: Config, s: Service, a: Action)
    ensures Step(cfg, s, a).pipe == WB.RunFrom(s.pipe, PipeSteps(cfg, s, a))
  {
    hide Step, PipeSteps, WB.RunFrom, WB.Step;
    PipeChange(cfg, s, a);
    ShortRun(s.pipe, PipeSteps(cfg, s, a));
  }

  lemma {:induction false} PipeIsARun(cfg: Config, s: Service, acts: seq<Action>)
    ensures RunFrom(cfg, s, acts).pipe == WB.RunFrom(s.pipe, Projection(cfg, s, acts))
  {
    if acts == [] {
    } else {
      hide Step, WB.Step, PipeSteps;
      var before, last := acts[..|acts| - 1], acts[|acts| - 1];
      PipeIsARun(cfg, s, before);
      var mid := RunFrom(cfg, s, before);
      PipeStep(cfg, mid, last);
      WB.RunAppend(s.pipe, Projection(cfg, s, before), PipeSteps(cfg, mid, last));
    }
  }

  lemma {:induction false} NothingBypasses(cfg: Config, s: Service, acts: seq<Action>)
    ensures O.NoBypass(Projection(cfg, s, acts), O.ALL)
  {
    if acts != [] {
      hide RunFrom;
      NothingBypasses(cfg, s, acts[..|acts| - 1]);
    }
  }

  /** In every interleaving of the service its pipeline is a run of the pipeline: each accepted write is in
      exactly one place, delivered by one attempt or given up after four, and a drain never blocks. */
  lemma ServicePipeline(cfg: Config, cells: Cells, view: View, acts: seq<Action>, id: nat)
    ensures var p := Run(cfg, cells, view, acts).pipe;
      && WB.Places(p, id) == (if id < |p.accepted| then 1 else 0)
      && (id < |p.accepted| ==>
            && (WB.Occ(p.delivered, id) == 1 <==> WB.Successes(p.log, id) == 1)
            && (WB.Occ(p.gaveUp, id) == 1 <==> WB.Failures(p.log, id) == 4))
      && |p.queue| <= WB.QUEUE_CAPACITY
      && (p.phase.DrainReceive? ==> p.queue != [])
  {
    hide RunFrom, WB.RunFrom;
    var pipe := Projection(cfg, Init(cells, view), acts);
    PipeIsARun(cfg, Init(cells, view), acts);
    WB.Conservation(pipe, id);
    WB.DrainNeverBlocks(pipe);
    if id < |WB.Run(pipe).accepted| {
      WB.FateOfAWrite(pipe, id);
    }
  }

  // ----- Runs of write-behind Sets -----

  /** The same cells outside the local cache. */
  ghost predicate SameBackends(cfg: Config, m: Cells, n: Cells) {
    forall b, k | !IsLocal(cfg, b) :: Lookup(m, b, k) == Lookup(n, b, k)
  }

  lemma SameAfterWrite(cfg: Config, m: Cells, n: Cells, b: string, e: Entry)
    requires SameBackends(cfg, m, n)
    ensures SameBackends(cfg, m[(b, e.key) := e.value], n[(b, e.key) := e.value])
  {
    var m', n' := m[(b, e.key) := e.value], n[(b, e.key) := e.value];
    forall c, k | !IsLocal(cfg, c) ensures Lookup(m', c, k) == Lookup(n', c, k) {
      assert Lookup(m, c, k) == Lookup(n, c, k);
    }
  }

  /** What happens to the local cache does not show. */
  lemma SameAfterLocal(cfg: Config, m: Cells, n: Cells, e: Entry, ok: bool, effect: Effect)
    requires cfg.hasLocal && SameBackends(cfg, m, n)
    ensures SameBackends(cfg, Put(m, cfg.localId, e, ok, effect), n)
    ensures SameBackends(cfg, m - {(cfg.localId, e.key)}, n)
  {
    var m' := Put(m, cfg.localId, e, ok, effect);
    var m'' := m - {(cfg.localId, e.key)};
    forall c, k | !IsLocal(cfg, c)
      ensures Lookup(m', c, k) == Lookup(n, c, k) && Lookup(m'', c, k) == Lookup(n, c, k)
    {
      assert Lookup(m, c, k) == Lookup(n, c, k);
    }
  }

  /** Where each key is written, and which hints make no difference to it. */
  datatype Plan = Plan(route: string -> string, hints: set<string>)

  /** Under this view each key is written to one backend, never the local cache, with any of the hints and
      without one, as the worker does. */
  ghost predicate FixedRoute(cfg: Config, v: View, plan: Plan) {
    && "" in plan.hints
    && forall k, hint | hint in plan.hints :: WritesTo(cfg, v, k, hint, plan.route(k)) && !CanWrite(v, k, hint, None)
  }

  /** Write-behind Sets, Gets, the worker and the local cache: no attempt fails, no Set finds the queue full,
      and the routing stays. */
  ghost predicate Behind(cfg: Config, s: Service, a: Action, plan: Plan) {
    match a
    case Issue(r) =>
      || r.GetRequest?
      || (&& r.SetRequest? && ModeOf(cfg, r.setOptions).WriteBehind? && r.setOptions.hint in plan.hints
          && |r.entry.value| <= MaxSize(cfg))
    case Advance(i, _) =>
      i < |s.tasks| && s.tasks[i].SetEnqueue? ==> WB.Enabled(s.pipe, WB.Enqueue(s.tasks[i].e))
    case Worker(w) => w.Process? ==> w.outcome.Stored?
    case Evict(b, _) => IsLocal(cfg, b)
    case Invalidate(_, _) => true
    case Reroute(v) => FixedRoute(cfg, v, plan)
  }

  ghost predicate AllBehind(cfg: Config, s: Service, acts: seq<Action>, plan: Plan) {
    acts == []
    || (var before := acts[..|acts| - 1];
        AllBehind(cfg, s, before, plan) && Behind(cfg, RunFrom(cfg, s, before), acts[|acts| - 1], plan))
  }

  predicate BehindTask(cfg: Config, t: Task) {
    match t
    case SetCheck(e, o) => ModeOf(cfg, o).WriteBehind? && |e.value| <= MaxSize(cfg)
    case SetLocal(e, _, behind) => behind && cfg.hasLocal && |e.value| <= MaxSize(cfg)
    case SetEnqueue(e, _) => |e.value| <= MaxSize(cfg)
    case GetLocal(_, _) => true
    case GetRoute(_, _) => true
    case GetStore(_, _, _, _) => true
    case Backfill(_) => cfg.hasLocal
    case Done(_) => true
    case _ => false
  }

  /** The backends hold what the pipeline has written, and all of it went where it is routed. */
  ghost predicate OnlyPipeWrites(cfg: Config, init: Cells, s: Service, plan: Plan) {
    && (forall i | 0 <= i < |s.tasks| :: BehindTask(cfg, s.tasks[i]))
    && SameBackends(cfg, s.cells, Replay(init, s.pipe.writes))
    && O.Clean(s.pipe.log, O.ALL, plan.route)
    && (forall e | e in s.pipe.accepted :: |e.value| <= MaxSize(cfg))
    && FixedRoute(cfg, s.view, plan)
  }

  lemma ProceedBehind(cfg: Config, s: Service, t: Task, ch: Choice)
    requires BehindTask(cfg, t)
    requires t.SetEnqueue? ==> WB.Enabled(s.pipe, WB.Enqueue(t.e))
    ensures var p := Proceed(cfg, s, t, ch);
      && BehindTask(cfg, p.next) && (forall i | 0 <= i < |p.spawned| :: BehindTask(cfg, p.spawned[i]))
      && SameBackends(cfg, p.cells, s.cells)
      && p.pipe.writes == s.pipe.writes && p.pipe.log == s.pipe.log
      && (forall e | e in p.pipe.accepted :: e in s.pipe.accepted || |e.value| <= MaxSize(cfg))
  {
    hide CanWrite, CanRead;
  }

  /** A stored attempt of the worker, in the cells as in the pipeline's writes. */
  lemma WorkerBehind(cfg: Config, init: Cells, s: Service, w: WB.Action, plan: Plan)
    requires OnlyPipeWrites(cfg, init, s, plan) && WorkerMay(s, w) && (w.Process? ==> w.outcome.Stored?)
    ensures OnlyPipeWrites(cfg, init, Step(cfg, s, Worker(w)), plan)
  {
    hide CanWrite, Replay, BehindTask;
    var t := WB.Step(s.pipe, w);
    NothingAccepted(s.pipe, w);
    if w.Process? && WB.Enabled(s.pipe, w) {
      var item, b := s.pipe.batch[0], w.outcome.backend;
      assert t.writes == s.pipe.writes + [Write(b, item.entry)];
      ReplayAppend(init, s.pipe.writes, Write(b, item.entry));
      assert t.log == s.pipe.log + [WB.Attempt(item, w.outcome)];
      assert CanWrite(s.view, item.entry.key, "", Some(b));
      assert WritesTo(cfg, s.view, item.entry.key, "", plan.route(item.entry.key));
      assert b == plan.route(item.entry.key);
      SameAfterWrite(cfg, s.cells, Replay(init, s.pipe.writes), b, item.entry);
    } else {
      NoAttempt(s.pipe, w);
    }
  }

  lemma NothingAccepted(p: WB.Pipe, w: WB.Action)
    requires !w.Enqueue?
    ensures WB.Step(p, w).accepted == p.accepted
  {}

  lemma NoAttempt(p: WB.Pipe, w: WB.Action)
    requires !(w.Process? && WB.Enabled(p, w)) && !w.DirectWrite?
    ensures WB.Step(p, w).writes == p.writes && WB.Step(p, w).log == p.log
  {}

  lemma StepBehind(cfg: Config, init: Cells, s: Service, a: Action, plan: Plan)
    requires OnlyPipeWrites(cfg, init, s, plan) && Behind(cfg, s, a, plan)
    ensures OnlyPipeWrites(cfg, init, Step(cfg, s, a), plan)
  {
    hide CanWrite, Replay, WB.Step, WB.Enabled, Proceed, FixedRoute, O.Clean;
    match a
    case Advance(i, ch) =>
      if i < |s.tasks| {
        ProceedBehind(cfg, s, s.tasks[i], ch);
      }
    case Worker(w) =>
      if WorkerMay(s, w) {
        WorkerBehind(cfg, init, s, w, plan);
      }
    case _ =>
  }

  lemma {:induction false} RunBehind(
    cfg: Config, cells: Cells, view: View, acts: seq<Action>, plan: Plan)
    requires FixedRoute(cfg, view, plan) && AllBehind(cfg, Init(cells, view), acts, plan)
    ensures OnlyPipeWrites(cfg, cells, Run(cfg, cells, view, acts), plan)
  {
    if acts == [] {
    } else {
      hide Step, OnlyPipeWrites, Behind;
      RunBehind(cfg, cells, view, acts[..|acts| - 1], plan);
      StepBehind(cfg, cells, Run(cfg, cells, view, acts[..|acts| - 1]), acts[|acts| - 1], plan);
    }
  }

  // ----- The same Sets in write-through mode -----

  /** From s, write-through Sets of these entries ran to success one after the other, ending in t. */
  ghost predicate ThroughRan(cfg: Config, s: Service, es: seq<Entry>, t: Service, plan: Plan)
    decreases |es|
  {
    if es == [] then t == s
    else
      exists m: Service, e: Entry, o: SetOptions, acts ::
        && ThroughRan(cfg, s, es[..|es| - 1], m, plan) && SetRan(cfg, m, e, o, acts, t)
        && SameWrite(e, es[|es| - 1]) && ModeOf(cfg, o).WriteThrough? && o.hint in plan.hints
  }

  /** What a Set has done to the backends so far. */
  ghost predicate Written(cfg: Config, s: Service, i: nat, e: Entry, base: Cells, r: string) {
    && i < |s.tasks|
    && (match s.tasks[i]
        case Done(Completed) => SameBackends(cfg, s.cells, base[(r, e.key) := e.value])
        case Done(Refused(_)) => true
        case _ => SameBackends(cfg, s.cells, base))
  }

  lemma StepWritten(cfg: Config, s: Service, a: Action, i: nat, e: Entry, o: SetOptions, base: Cells, r: string)
    requires Setting(cfg, s, i, e, o, r) && SyncMode(cfg, o) && CalmAction(cfg, a)
    requires WritesTo(cfg, s.view, e.key, o.hint, r) && Written(cfg, s, i, e, base, r)
    ensures Written(cfg, Step(cfg, s, a), i, e, base, r)
  {
    hide CanWrite, CanRead, WB.Step, WB.Enabled, SameBackends, Put;
    match a
    case Advance(j, ch) =>
      if j == i {
        AdvanceWritten(cfg, s, ch, i, e, o, base, r);
      } else if j == i + 1 < |s.tasks| && s.tasks[j].Backfill? {
        SameAfterLocalWrite(cfg, s, i, e, base, r, s.tasks[j].e, ch);
      }
    case Evict(_, k) => SameAfterLocalWrite(cfg, s, i, e, base, r, Entry(k, [], 0, 0), NO_LOCAL);
  }

  /** The state the backends should be in at this point of the Set. */
  function Due(s: Service, i: nat, e: Entry, base: Cells, r: string): Cells
    requires i < |s.tasks|
  {
    if s.tasks[i] == Done(Completed) then base[(r, e.key) := e.value] else base
  }

  lemma SameAfterLocalWrite(
    cfg: Config, s: Service, i: nat, e: Entry, base: Cells, r: string, f: Entry, ch: Choice)
    requires cfg.hasLocal && Written(cfg, s, i, e, base, r)
    ensures !(s.tasks[i].Done? && s.tasks[i].answer.Refused?) ==>
              && SameBackends(cfg, Put(s.cells, cfg.localId, f, ch.localOk, ch.localEffect), Due(s, i, e, base, r))
              && SameBackends(cfg, s.cells - {(cfg.localId, f.key)}, Due(s, i, e, base, r))
  {
    hide SameBackends, Put;
    if !(s.tasks[i].Done? && s.tasks[i].answer.Refused?) {
      SameAfterLocal(cfg, s.cells, Due(s, i, e, base, r), f, ch.localOk, ch.localEffect);
    }
  }

  lemma AdvanceWritten(
    cfg: Config, s: Service, ch: Choice, i: nat, e: Entry, o: SetOptions, base: Cells, r: string)
    requires Setting(cfg, s, i, e, o, r) && SyncMode(cfg, o) && CalmAction(cfg, Advance(i, ch))
    requires Written(cfg, s, i, e, base, r)
    ensures Written(cfg, Step(cfg, s, Advance(i, ch)), i, e, base, r)
  {
    hide CanWrite, CanRead, WB.Step, WB.Enabled, SameBackends;
    match s.tasks[i]
    case SetLocal(f, _, _) => SameAfterLocal(cfg, s.cells, base, f, ch.localOk, ch.localEffect);
    case SetStore(f, b, _) => SameAfterWrite(cfg, s.cells, base, b, f);
    case _ =>
  }

  lemma {:induction false} RunWritten(
    cfg: Config, s: Service, acts: seq<Action>, i: nat, e: Entry, o: SetOptions, base: Cells, r: string)
    requires Setting(cfg, s, i, e, o, r) && SyncMode(cfg, o) && Calm(cfg, acts)
    requires WritesTo(cfg, s.view, e.key, o.hint, r) && Written(cfg, s, i, e, base, r)
    ensures Written(cfg, RunFrom(cfg, s, acts), i, e, base, r)
  {
    if acts == [] {
    } else {
      hide Step, Written, Setting, WritesTo;
      var before, last := acts[..|acts| - 1], acts[|acts| - 1];
      RunWritten(cfg, s, before, i, e, o, base, r);
      RunSetting(cfg, s, before, i, e, o, r);
      StepWritten(cfg, RunFrom(cfg, s, before), last, i, e, o, base, r);
    }
  }

  /** A completed synchronous Set changes the backends by its one write, and leaves the routing alone. */
  lemma SetWrites(
    cfg: Config, s0: Service, e: Entry, o: SetOptions, acts: seq<Action>, s1: Service, r: string)
    requires SetRan(cfg, s0, e, o, acts, s1) && WritesTo(cfg, s0.view, e.key, o.hint, r)
    ensures SameBackends(cfg, s1.cells, s0.cells[(r, e.key) := e.value]) && s1.view == s0.view
  {
    hide CanWrite, CanRead, Proceed, WB.Step, RunFrom, WritesTo;
    var i := |s0.tasks|;
    var t0 := Step(cfg, s0, Issue(SetRequest(e, o)));
    assert t0.tasks == s0.tasks + [SetCheck(e, o)] && t0.view == s0.view && t0.cells == s0.cells;
    assert Setting(cfg, t0, i, e, o, r);
    RunSetting(cfg, t0, acts, i, e, o, r);
    RunWritten(cfg, t0, acts, i, e, o, s0.cells, r);
  }

  lemma {:induction false} ThroughWrites(
    cfg: Config, s: Service, es: seq<Entry>, t: Service, plan: Plan)
    requires ThroughRan(cfg, s, es, t, plan) && FixedRoute(cfg, s.view, plan)
    ensures SameBackends(cfg, t.cells, O.WriteThrough(s.cells, es, plan.route)) && t.view == s.view
    decreases |es|
  {
    hide SetRan, FixedRoute, WritesTo;
    if es == [] {
    } else {
      var before, last := es[..|es| - 1], es[|es| - 1];
      var m, e, o, acts :| ThroughRan(cfg, s, before, m, plan) && SetRan(cfg, m, e, o, acts, t)
                           && SameWrite(e, last) && ModeOf(cfg, o).WriteThrough? && o.hint in plan.hints;
      ThroughWrites(cfg, s, before, m, plan);
      FixedWrites(cfg, s.view, plan, e.key, o.hint);
      SetWrites(cfg, m, e, o, acts, t, plan.route(e.key));
      SameAfterWrite(cfg, m.cells, O.WriteThrough(s.cells, before, plan.route), plan.route(e.key), e);
    }
  }

  lemma FixedWrites(cfg: Config, v: View, plan: Plan, k: string, hint: string)
    requires FixedRoute(cfg, v, plan) && hint in plan.hints
    ensures WritesTo(cfg, v, k, hint, plan.route(k))
  {}

  // ----- Such a chain of Sets exists -----

  const THROUGH := SetOptions(0, "", 0, Some(Mode.WriteThrough), false)

  /** From its request to the backend's answer. */
  lemma ThroughStored(cfg: Config, s: Service, e: Entry, b: string) returns (acts: seq<Action>, t: Service)
    requires |e.value| <= MaxSize(cfg) && CanWrite(s.view, e.key, "", Some(b))
    ensures Calm(cfg, acts) && t == RunFrom(cfg, Step(cfg, s, Issue(SetRequest(e, THROUGH))), acts)
    ensures t.view == s.view
    ensures var f := e.(ttl := GetTtl(cfg, e.ttl, 0));
      t.tasks == s.tasks + [Done(Completed)] + if cfg.hasLocal then [Backfill(f)] else []
  {
    hide CanWrite, CanRead;
    var i := |s.tasks|;
    var f := e.(ttl := GetTtl(cfg, e.ttl, 0));
    var go := Advance(i, YES.(route := Some(b)));
    var t0 := Step(cfg, s, Issue(SetRequest(e, THROUGH)));
    assert t0 == s.(tasks := s.tasks + [SetCheck(e, THROUGH)]);
    var t1 := Step(cfg, t0, go);
    assert t1 == s.(tasks := s.tasks + [SetRoute(f, "", Through)]);
    var t2 := Step(cfg, t1, go);
    assert t2 == s.(tasks := s.tasks + [SetStore(f, b, Through)]);
    t := Step(cfg, t2, go);
    assert t.tasks == s.tasks + [Done(Completed)] + if cfg.hasLocal then [Backfill(f)] else [];
    hide Step, RunFrom;
    RunTwo(cfg, t0, go, go);
    RunOne(cfg, t0, [go, go], go);
    acts := [go, go] + [go];
  }

  /** With nothing going on, a write-through Set can run to success and leave nothing going on. */
  lemma ThroughOnce(cfg: Config, s: Service, e: Entry, plan: Plan) returns (acts: seq<Action>, t: Service)
    requires AllDone(s) && |e.value| <= MaxSize(cfg) && FixedRoute(cfg, s.view, plan)
    ensures SetRan(cfg, s, e, THROUGH, acts, t)
  {
    var b := SomeWrite(s.view, e.key, "") by {
      assert !CanWrite(s.view, e.key, "", None);
      ResolvedIsHealthy(s.view, e.key, "");
    }
    hide CanWrite, FixedRoute;
    var i := |s.tasks|;
    acts, t := ThroughStored(cfg, s, e, b.value);
    var t0 := Step(cfg, s, Issue(SetRequest(e, THROUGH)));
    if cfg.hasLocal {
      var u, fill := t, Advance(i + 1, YES);
      t := Step(cfg, u, fill);
      assert t.tasks == s.tasks + [Done(Completed)] + [Done(Completed)];
      hide Step, RunFrom;
      RunOne(cfg, t0, acts, fill);
      acts := acts + [fill];
    }
  }

  lemma {:induction false} ThroughExists(cfg: Config, s: Service, es: seq<Entry>, plan: Plan) returns (t: Service)
    requires AllDone(s) && FixedRoute(cfg, s.view, plan) && forall e | e in es :: |e.value| <= MaxSize(cfg)
    ensures ThroughRan(cfg, s, es, t, plan) && AllDone(t)
    decreases |es|
  {
    hide FixedRoute;
    if es == [] {
      t := s;
    } else {
      var before, e := es[..|es| - 1], es[|es| - 1];
      var m := ThroughExists(cfg, s, before, plan);
      ThroughWrites(cfg, s, before, m, plan);
      var acts;
      acts, t := ThroughOnce(cfg, m, e, plan);
      NoHintPlanned(cfg, s.view, plan);
      hide Step, RunFrom;
      assert SetRan(cfg, m, e, THROUGH, acts, t);
    }
  }

  lemma NoHintPlanned(cfg: Config, v: View, plan: Plan)
    requires FixedRoute(cfg, v, plan)
    ensures "" in plan.hints
  {}

  // ----- The refinement -----

  /** However write-behind Sets, Gets, the worker and the local cache interleave: where no attempt fails, no
      Set finds the queue full and no hint or change of the routing moves a key, a drained service leaves in
      its backends exactly what write-through Sets of the accepted entries leave, with any of the same hints,
      made one after the other in the order of acceptance; and such Sets can be made. */
  lemma BehindRefinesThrough(cfg: Config, cells: Cells, view: View, acts: seq<Action>, plan: Plan)
    requires FixedRoute(cfg, view, plan) && AllBehind(cfg, Init(cells, view), acts, plan)
    requires var p := Run(cfg, cells, view, acts).pipe; p.queue == [] && p.batch == []
    ensures var s := Run(cfg, cells, view, acts);
      && (exists t :: ThroughRan(cfg, Init(cells, view), s.pipe.accepted, t, plan))
      && (forall t | ThroughRan(cfg, Init(cells, view), s.pipe.accepted, t, plan) ::
            SameBackends(cfg, s.cells, t.cells))
  {
    hide RunFrom, WB.RunFrom, Replay, O.WriteThrough, ThroughRan, FixedRoute, AllBehind;
    var s := Run(cfg, cells, view, acts);
    var pipe := Projection(cfg, Init(cells, view), acts);
    RunBehind(cfg, cells, view, acts, plan);
    PipeIsARun(cfg, Init(cells, view), acts);
    NothingBypasses(cfg, Init(cells, view), acts);
    O.RunRefinesWriteThrough(pipe, cells, plan.route);
    var u := ThroughExists(cfg, Init(cells, view), s.pipe.accepted, plan);
    forall t | ThroughRan(cfg, Init(cells, view), s.pipe.accepted, t, plan)
      ensures SameBackends(cfg, s.cells, t.cells)
    {
      ThroughWrites(cfg, Init(cells, view), s.pipe.accepted, t, plan);
    }
  }
}
