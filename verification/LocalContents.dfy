/** What the local cache can hold: write-through runs, and the size limit. */
module LocalContents {
  import opened Storage
  import opened Routing
  import opened CacheService
  import WB = WriteBehind

  // ----- Write-through only -----

  ghost predicate ThroughOnly(cfg: Config, acts: seq<Action>) {
    forall a | a in acts :: a.Issue? && a.request.SetRequest? ==> ModeOf(cfg, a.request.setOptions).WriteThrough?
  }

  /** No task is on the way to writing the local cache before a backend has taken the value. */
  predicate ThroughTask(cfg: Config, t: Task, taken: set<(string, Bytes)>) {
    match t
    case SetCheck(_, o) => ModeOf(cfg, o).WriteThrough?
    case SetLocal(_, _, _) => false
    case SetEnqueue(_, _) => false
    case SetRoute(_, _, path) => !path.Aside?
    case SetStore(_, _, path) => !path.Aside?
    case Backfill(e) => (e.key, e.value) in taken
    case _ => true
  }

  ghost predicate LocalConfirmed(cfg: Config, init: Cells, s: Service) {
    && s.pipe.queue == [] && s.pipe.batch == [] && s.pipe.sleeping == []
    && (forall t | t in s.tasks :: ThroughTask(cfg, t, s.taken))
    && (forall k | (cfg.localId, k) in s.cells ::
          (k, s.cells[(cfg.localId, k)]) in s.taken
          || Lookup(init, cfg.localId, k) == Some(s.cells[(cfg.localId, k)]))
  }

  lemma ProceedConfirmed(cfg: Config, init: Cells, s: Service, t: Task, ch: Choice)
    requires LocalConfirmed(cfg, init, s) && t in s.tasks
    ensures var p := Proceed(cfg, s, t, ch);
      && s.taken <= p.taken && p.pipe == s.pipe
      && ThroughTask(cfg, p.next, p.taken)
      && (forall u | u in p.spawned :: ThroughTask(cfg, u, p.taken))
      && (forall k | (cfg.localId, k) in p.cells ::
            (k, p.cells[(cfg.localId, k)]) in p.taken
            || Lookup(init, cfg.localId, k) == Some(p.cells[(cfg.localId, k)]))
  {
    hide CanWrite, CanRead, WB.Step, Lookup;
    assert ThroughTask(cfg, t, s.taken);
  }

  lemma WorkerIdle(pipe: WB.Pipe, w: WB.Action)
    requires pipe.queue == [] && pipe.batch == [] && pipe.sleeping == [] && !w.Enqueue?
    ensures var t := WB.Step(pipe, w); t.queue == [] && t.batch == [] && t.sleeping == []
    ensures !(w.Process? && WB.Enabled(pipe, w))
  {}

  lemma StepConfirmed(cfg: Config, init: Cells, s: Service, a: Action)
    requires LocalConfirmed(cfg, init, s) && ThroughOnly(cfg, [a])
    ensures LocalConfirmed(cfg, init, Step(cfg, s, a))
  {
    hide CanWrite, CanRead, WB.Step, Proceed, Lookup;
    assert a in [a];
    match a
    case Advance(i, ch) =>
      if i < |s.tasks| {
        ProceedConfirmed(cfg, init, s, s.tasks[i], ch);
        var t := Step(cfg, s, a);
        forall u | u in t.tasks ensures ThroughTask(cfg, u, t.taken) {
          var p := Proceed(cfg, s, s.tasks[i], ch);
          assert u == p.next || u in p.spawned || u in s.tasks;
        }
      }
    case Worker(w) =>
      if WorkerMay(s, w) {
        WorkerIdle(s.pipe, w);
      }
    case _ =>
  }

  lemma {:induction false} RunConfirmed(cfg: Config, init: Cells, view: View, acts: seq<Action>)
    requires ThroughOnly(cfg, acts)
    ensures LocalConfirmed(cfg, init, Run(cfg, init, view, acts))
  {
    if acts == [] {
    } else {
      hide Step, LocalConfirmed;
      RunConfirmed(cfg, init, view, acts[..|acts| - 1]);
      assert acts[|acts| - 1] in acts;
      StepConfirmed(cfg, init, Run(cfg, init, view, acts[..|acts| - 1]), acts[|acts| - 1]);
    }
  }

  /** When every Set is write-through, a value in the local cache was first taken by a backend's Set or
      read from a backend, unless it was there from the start. */
  lemma WriteThroughConfirmsFirst(cfg: Config, init: Cells, view: View, acts: seq<Action>, k: string)
    requires ThroughOnly(cfg, acts)
    requires (cfg.localId, k) in Run(cfg, init, view, acts).cells
    ensures var s := Run(cfg, init, view, acts); var v := s.cells[(cfg.localId, k)];
      (k, v) in s.taken || Lookup(init, cfg.localId, k) == Some(v)
  {
    hide Run;
    RunConfirmed(cfg, init, view, acts);
  }

  // ----- The size limit -----

  predicate SmallLocal(cfg: Config, cells: Cells) {
    forall c | c in cells && c.0 == cfg.localId :: |cells[c]| <= MaxSize(cfg)
  }

  /** Under this view the router may answer the local cache for some key. */
  ghost predicate RoutesLocally(cfg: Config, v: View) {
    exists key, hint :: CanWrite(v, key, hint, Some(cfg.localId))
  }

  predicate SmallTask(cfg: Config, t: Task) {
    match t
    case SetCheck(e, _) => |e.value| <= MaxSize(cfg)
    case SetLocal(e, _, _) => |e.value| <= MaxSize(cfg)
    case SetEnqueue(e, _) => |e.value| <= MaxSize(cfg)
    case Backfill(e) => |e.value| <= MaxSize(cfg)
    case SetRoute(e, _, path) => !path.Pass? ==> |e.value| <= MaxSize(cfg)
    case SetStore(e, b, path) => b != cfg.localId && (!path.Pass? ==> |e.value| <= MaxSize(cfg))
    case _ => true
  }

  ghost predicate AllSmall(cfg: Config, s: Service) {
    && SmallLocal(cfg, s.cells)
    && !RoutesLocally(cfg, s.view)
    && forall t | t in s.tasks :: SmallTask(cfg, t)
  }

  lemma PutSmall(cfg: Config, cells: Cells, b: string, e: Entry, ok: bool, effect: Effect)
    requires SmallLocal(cfg, cells) && (b == cfg.localId ==> |e.value| <= MaxSize(cfg))
    ensures SmallLocal(cfg, Put(cells, b, e, ok, effect))
  {}

  lemma ProceedSmall(cfg: Config, s: Service, t: Task, ch: Choice)
    requires AllSmall(cfg, s) && SmallTask(cfg, t)
    ensures var p := Proceed(cfg, s, t, ch);
      SmallLocal(cfg, p.cells) && SmallTask(cfg, p.next) && forall u | u in p.spawned :: SmallTask(cfg, u)
  {
    hide CanWrite, CanRead, WB.Step, WB.Enabled, Put, MaxSize;
    match t
    case SetLocal(e, _, _) => PutSmall(cfg, s.cells, cfg.localId, e, ch.localOk, ch.localEffect);
    case SetStore(e, b, _) => PutSmall(cfg, s.cells, b, e, ch.backendOk, ch.backendEffect);
    case Backfill(e) => PutSmall(cfg, s.cells, cfg.localId, e, ch.localOk, ch.localEffect);
    case SetRoute(e, hint, _) =>
      if CanWrite(s.view, e.key, hint, ch.route) {
        assert ch.route != Some(cfg.localId);
      }
    case _ =>
  }

  lemma WorkerSmall(cfg: Config, s: Service, w: WB.Action)
    requires AllSmall(cfg, s) && WorkerMay(s, w)
    ensures SmallLocal(cfg, WorkerCells(s, w))
  {
    hide CanWrite, WB.Step;
    if w.Process? && WB.Enabled(s.pipe, w) && !w.outcome.NoBackend? {
      var key := s.pipe.batch[0].entry.key;
      assert CanWrite(s.view, key, "", Some(w.outcome.backend));
      assert w.outcome.backend != cfg.localId;
    }
  }

  lemma StepSmall(cfg: Config, s: Service, a: Action)
    requires AllSmall(cfg, s)
    requires a.Reroute? ==> !RoutesLocally(cfg, a.newView)
    ensures AllSmall(cfg, Step(cfg, s, a))
  {
    hide CanWrite, CanRead, WB.Step, Proceed, RoutesLocally, WorkerCells;
    match a
    case Advance(i, ch) =>
      if i < |s.tasks| {
        assert s.tasks[i] in s.tasks;
        ProceedSmall(cfg, s, s.tasks[i], ch);
        var p := Proceed(cfg, s, s.tasks[i], ch);
        forall u | u in Step(cfg, s, a).tasks ensures SmallTask(cfg, u) {
          assert u == p.next || u in p.spawned || u in s.tasks;
        }
      }
    case Worker(w) =>
      if WorkerMay(s, w) {
        WorkerSmall(cfg, s, w);
      }
    case _ =>
  }

  /** Every view the run starts with or switches to passes the test. */
  ghost predicate Views(allowed: View -> bool, view: View, acts: seq<Action>) {
    allowed(view) && forall a | a in acts :: a.Reroute? ==> allowed(a.newView)
  }

  lemma {:induction false} RunSmall(
    cfg: Config, init: Cells, view: View, acts: seq<Action>, allowed: View -> bool)
    requires SmallLocal(cfg, init) && Views(allowed, view, acts)
    requires forall v | allowed(v) :: !RoutesLocally(cfg, v)
    ensures AllSmall(cfg, Run(cfg, init, view, acts))
  {
    if acts == [] {
    } else {
      hide Step, AllSmall, RoutesLocally;
      RunSmall(cfg, init, view, acts[..|acts| - 1], allowed);
      assert acts[|acts| - 1] in acts;
      StepSmall(cfg, Run(cfg, init, view, acts[..|acts| - 1]), acts[|acts| - 1]);
    }
  }

  ghost predicate LimitHolds(cfg: Config, allowed: View -> bool) {
    forall init, view, acts | SmallLocal(cfg, init) && Views(allowed, view, acts) ::
      SmallLocal(cfg, Run(cfg, init, view, acts).cells)
  }

  /** An oversized Set passes the local cache by, and reaches it all the same if it is the routed backend. */
  lemma OversizedReachesLocal(cfg: Config, view: View, key: string, hint: string) returns (acts: seq<Action>)
    requires CanWrite(view, key, hint, Some(cfg.localId))
    ensures (forall a | a in acts :: !a.Reroute?) && !SmallLocal(cfg, Run(cfg, map[], view, acts).cells)
  {
    var size: nat := if MaxSize(cfg) >= 0 then MaxSize(cfg) + 1 else 0;
    var big: Bytes := seq(size, _ => 0);
    var e := Entry(key, big, 0, 0);
    var o := SetOptions(0, hint, 0, None, false);
    var ch := Choice(Some(cfg.localId), [], true, Kept, true, Kept, Failed, 0);
    var issue, advance := Issue(SetRequest(e, o)), Advance(0, ch);
    acts := [] + [issue] + [advance] + [advance];
    var s0 := Init(map[], view);
    hide CanWrite, CanRead;
    var s1 := Step(cfg, s0, issue);
    assert s1.tasks == [SetRoute(e, hint, Pass)] && s1.view == view;
    var s2 := Step(cfg, s1, advance);
    assert s2.tasks == [SetStore(e, cfg.localId, Pass)];
    var s3 := Step(cfg, s2, advance);
    assert s3.cells[(cfg.localId, key)] == big;
    assert RunFrom(cfg, s0, []) == s0;
    hide Step, RunFrom;
    RunOne(cfg, s0, [], issue);
    RunOne(cfg, s0, [] + [issue], advance);
    RunOne(cfg, s0, [] + [issue] + [advance], advance);
  }

  /** The local cache stays within the size limit in every run exactly when no view the run may use lets
      the router answer the local cache. */
  lemma LimitHoldsIff(cfg: Config, allowed: View -> bool)
    ensures LimitHolds(cfg, allowed) <==> forall v | allowed(v) :: !RoutesLocally(cfg, v)
  {
    if forall v | allowed(v) :: !RoutesLocally(cfg, v) {
      forall init, view, acts | SmallLocal(cfg, init) && Views(allowed, view, acts)
        ensures SmallLocal(cfg, Run(cfg, init, view, acts).cells)
      {
        RunSmall(cfg, init, view, acts, allowed);
      }
    } else {
      var v :| allowed(v) && RoutesLocally(cfg, v);
      var key, hint :| CanWrite(v, key, hint, Some(cfg.localId));
      var acts := OversizedReachesLocal(cfg, v, key, hint);
      assert SmallLocal(cfg, map[]) && Views(allowed, v, acts);
    }
  }
}
