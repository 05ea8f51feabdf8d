/** When a deleted key stays deleted. */
module DeletedKeys {
  import opened Storage
  import opened Routing
  import opened CacheService
  import opened SequentialReads
  import opened ServiceOrder
  import WB = WriteBehind
  import P = WriteBehindProgress

  /** No store holds the key. */
  predicate Gone(s: Service, k: string) {
    forall c | c in s.cells :: c.1 != k
  }

  /** A task that may still write the key. */
  predicate Writes(t: Task, k: string) {
    match t
    case SetCheck(e, _) => e.key == k
    case SetLocal(e, _, _) => e.key == k
    case SetRoute(e, _, _) => e.key == k
    case SetStore(e, _, _) => e.key == k
    case SetEnqueue(e, _) => e.key == k
    case Backfill(e) => e.key == k
    case _ => false
  }

  predicate NoWriter(tasks: seq<Task>, k: string) {
    forall i | 0 <= i < |tasks| :: !Writes(tasks[i], k)
  }

  /** No write of the key is under way: in no request, no backfill, not in the queue, the batch or a retry. */
  ghost predicate Quiet(s: Service, k: string) {
    NoItem(s.pipe, k) && NoWriter(s.tasks, k)
  }

  predicate NoSetOf(a: Action, k: string) {
    a.Issue? && a.request.SetRequest? ==> a.request.entry.key != k
  }

  /** Whatever happens but a new Set of the key, no store comes to hold it. */
  ghost predicate StaysGone(cfg: Config, s: Service, k: string) {
    forall acts | (forall i | 0 <= i < |acts| :: NoSetOf(acts[i], k)) :: Gone(RunFrom(cfg, s, acts), k)
  }

  // ----- A quiet key stays gone -----

  lemma GetQuiet(cfg: Config, s: Service, t: Task, ch: Choice, k: string)
    requires Gone(s, k) && (t.GetLocal? || t.GetRoute? || t.GetStore?)
    ensures var p := ProceedGet(cfg, s, t, ch);
      p.cells == s.cells && p.pipe == s.pipe && !Writes(p.next, k) && NoWriter(p.spawned, k)
  {
    hide CanWrite, CanRead, MaxSize;
  }

  lemma SetQuiet(cfg: Config, s: Service, t: Task, ch: Choice, k: string)
    requires Gone(s, k) && NoItem(s.pipe, k) && !Writes(t, k)
    requires t.SetCheck? || t.SetLocal? || t.SetRoute? || t.SetStore? || t.SetEnqueue? || t.Backfill?
    ensures var p := ProceedSet(cfg, s, t, ch);
      && (forall c | c in p.cells :: c.1 != k) && NoItem(p.pipe, k)
      && !Writes(p.next, k) && NoWriter(p.spawned, k)
  {
    hide CanWrite, CanRead, WB.Step, WB.Enabled, NoItem;
    if t.SetEnqueue? {
      StepKeepsNoItem(s.pipe, WB.Enqueue(t.e), k);
    }
  }

  lemma DeleteQuiet(cfg: Config, s: Service, t: Task, ch: Choice, k: string)
    requires Gone(s, k) && (t.DelLocal? || t.DelRoute? || t.DelStore?)
    ensures var p := ProceedDelete(cfg, s, t, ch);
      (forall c | c in p.cells :: c.1 != k) && p.pipe == s.pipe && !Writes(p.next, k) && NoWriter(p.spawned, k)
  {
    hide CanWrite, CanRead;
  }

  lemma ProceedQuiet(cfg: Config, s: Service, t: Task, ch: Choice, k: string)
    requires Gone(s, k) && NoItem(s.pipe, k) && !Writes(t, k)
    ensures var p := Proceed(cfg, s, t, ch);
      && (forall c | c in p.cells :: c.1 != k) && NoItem(p.pipe, k)
      && !Writes(p.next, k) && NoWriter(p.spawned, k)
  {
    hide ProceedGet, ProceedSet, ProceedDelete, NoItem;
    if t.GetLocal? || t.GetRoute? || t.GetStore? {
      GetQuiet(cfg, s, t, ch, k);
    } else if t.DelLocal? || t.DelRoute? || t.DelStore? {
      DeleteQuiet(cfg, s, t, ch, k);
    } else if !t.Done? {
      SetQuiet(cfg, s, t, ch, k);
    }
  }

  lemma StepQuiet(cfg: Config, s: Service, a: Action, k: string)
    requires Gone(s, k) && Quiet(s, k) && NoSetOf(a, k)
    ensures Gone(Step(cfg, s, a), k) && Quiet(Step(cfg, s, a), k)
  {
    hide CanWrite, CanRead, WB.Step, WB.Enabled, Proceed, NoItem, WorkerCells;
    match a
    case Advance(i, ch) =>
      if i < |s.tasks| {
        ProceedQuiet(cfg, s, s.tasks[i], ch, k);
      }
    case Worker(w) =>
      if WorkerMay(s, w) {
        StepKeepsNoItem(s.pipe, w, k);
        forall c | c in WorkerCells(s, w) ensures c.1 != k {
          WorkerSpares(s, w, c.0, k);
        }
      }
    case _ =>
  }

  lemma {:induction false} RunQuiet(cfg: Config, s: Service, acts: seq<Action>, k: string)
    requires Gone(s, k) && Quiet(s, k) && forall i | 0 <= i < |acts| :: NoSetOf(acts[i], k)
    ensures Gone(RunFrom(cfg, s, acts), k) && Quiet(RunFrom(cfg, s, acts), k)
  {
    if acts == [] {
    } else {
      hide Step, Gone, Quiet;
      RunQuiet(cfg, s, acts[..|acts| - 1], k);
      StepQuiet(cfg, RunFrom(cfg, s, acts[..|acts| - 1]), acts[|acts| - 1], k);
    }
  }

  // ----- A write under way can arrive -----

  const HOME := "b"

  /** One healthy backend, no rules, no hints. */
  function OneBackend(m: Matcher): View {
    View(map[HOME := 1], [], map[], m)
  }

  lemma OneBackendTakes(m: Matcher, key: string, hint: string)
    ensures CanWrite(OneBackend(m), key, hint, Some(HOME))
  {}

  /** Steps that ask for nothing new. */
  predicate Silent(acts: seq<Action>) {
    forall i | 0 <= i < |acts| :: !acts[i].Issue?
  }

  ghost predicate CanReturn(cfg: Config, s: Service, k: string) {
    exists acts :: Silent(acts) && !Gone(RunFrom(cfg, s, acts), k)
  }

  lemma ReturnsAfter(cfg: Config, s: Service, a: Action, k: string)
    requires !a.Issue? && CanReturn(cfg, Step(cfg, s, a), k)
    ensures CanReturn(cfg, s, k)
  {
    var more :| Silent(more) && !Gone(RunFrom(cfg, Step(cfg, s, a), more), k);
    hide Step, Gone;
    RunAppend(cfg, s, [a], more);
    RunTwo(cfg, s, a, a);
    assert Silent([a] + more);
  }

  lemma ReturnsNow(cfg: Config, s: Service, c: (string, string), k: string)
    requires c in s.cells && c.1 == k
    ensures CanReturn(cfg, s, k)
  {
    assert Silent([]) && RunFrom(cfg, s, []) == s;
  }

  /** An item moves on with every step of the pipeline but the attempt on it. */
  lemma PendingMoves(p: WB.Pipe, w: WB.Action, x: WB.Item)
    requires WB.Pending(p, x) && WB.Enabled(p, w) && P.Internal(w)
    requires w.Process? ==> p.batch[0] != x
    ensures WB.Pending(WB.Step(p, w), x)
  {
    var t := WB.Step(p, w);
    if w.Wake? && x in p.sleeping {
      var j :| 0 <= j < |p.sleeping| && p.sleeping[j] == x;
      if j == w.j {
        assert x == t.queue[|p.queue|];
      } else {
        assert x == t.sleeping[if j < w.j then j else j - 1];
      }
    } else if (w.Receive? || w.DrainOne?) && x in p.queue {
      assert x == p.queue[0] || x in p.queue[1..];
    } else if w.Process? && x in p.batch {
      assert x in p.batch[1..];
    }
  }

  lemma StepOfWorker(cfg: Config, s: Service, w: WB.Action)
    requires s.view == OneBackend(s.view.matcher) && P.Internal(w) && (w.Process? ==> w.outcome == WB.Stored(HOME))
    ensures var t := Step(cfg, s, Worker(w));
      && t.pipe == WB.Step(s.pipe, w) && t.view == s.view
      && (w.Process? && WB.Enabled(s.pipe, w) ==> (HOME, s.pipe.batch[0].entry.key) in t.cells)
  {
    hide CanWrite, WB.Step, WB.Enabled;
    if w.Process? && s.pipe.batch != [] {
      OneBackendTakes(s.view.matcher, s.pipe.batch[0].entry.key, "");
    }
  }

  lemma SomeStepLeft(p: WB.Pipe, x: WB.Item) returns (w: WB.Action)
    requires WB.Pending(p, x) && !p.closed && WB.Bounded(p)
    ensures P.Internal(w) && WB.Enabled(p, w) && (w.Process? ==> w.outcome == WB.Stored(HOME))
  {
    if forall a | P.Internal(a) :: !WB.Enabled(p, a) {
      P.StuckMeansFinished(p);
      assert false;
    }
    var a :| P.Internal(a) && WB.Enabled(p, a);
    w := if a.Process? then WB.Process(WB.Stored(HOME)) else a;
  }

  /** What the pipeline needs to run on. */
  ghost predicate Running(p: WB.Pipe) {
    !p.closed && WB.Bounded(p) && P.RetriesInRange(p)
  }

  lemma StepRuns(p: WB.Pipe, w: WB.Action)
    requires Running(p) && P.Internal(w) && WB.Enabled(p, w)
    ensures Running(WB.Step(p, w)) && 0 <= P.Measure(WB.Step(p, w)) < P.Measure(p)
  {
    WB.StepBounded(p, w);
    P.StepKeepsRange(p, w);
    P.InternalStepFalls(p, w);
    P.MeasureBounds(WB.Step(p, w));
    hide P.Measure, P.RetriesInRange, WB.Bounded;
    StaysOpen(p, w);
  }

  lemma StaysOpen(p: WB.Pipe, w: WB.Action)
    requires P.Internal(w)
    ensures WB.Step(p, w).closed == p.closed
  {}

  /** The worker of a running pipeline gets to every pending item. */
  lemma {:induction false} ItemArrives(cfg: Config, s: Service, x: WB.Item)
    requires WB.Pending(s.pipe, x) && Running(s.pipe) && s.view == OneBackend(s.view.matcher)
    ensures CanReturn(cfg, s, x.entry.key)
    decreases P.Measure(s.pipe)
  {
    var w := SomeStepLeft(s.pipe, x);
    StepOfWorker(cfg, s, w);
    StepRuns(s.pipe, w);
    var t := Step(cfg, s, Worker(w));
    hide Step, WB.Step, Running, P.Measure, P.Internal, CanReturn;
    if w.Process? && s.pipe.batch[0].entry.key == x.entry.key {
      ReturnsNow(cfg, t, (HOME, x.entry.key), x.entry.key);
    } else {
      PendingMoves(s.pipe, w, x);
      ItemArrives(cfg, t, x);
    }
    ReturnsAfter(cfg, s, Worker(w), x.entry.key);
  }

  /** A write on its way to a backend gets there. */
  lemma StoreArrives(cfg: Config, s: Service, i: nat)
    requires i < |s.tasks| && (s.tasks[i].SetLocal? || s.tasks[i].SetStore? || s.tasks[i].Backfill?)
    ensures CanReturn(cfg, s, s.tasks[i].e.key)
  {
    hide CanWrite, CanRead, CanReturn;
    var k, go := s.tasks[i].e.key, Advance(i, YES);
    var t := Step(cfg, s, go);
    var b := if s.tasks[i].SetStore? then s.tasks[i].backend else cfg.localId;
    assert (b, k) in t.cells;
    hide Step;
    ReturnsNow(cfg, t, (b, k), k);
    ReturnsAfter(cfg, s, go, k);
  }

  lemma RouteArrives(cfg: Config, s: Service, i: nat)
    requires i < |s.tasks| && s.tasks[i].SetRoute? && s.view == OneBackend(s.view.matcher)
    ensures CanReturn(cfg, s, s.tasks[i].e.key)
  {
    var task, go := s.tasks[i], Advance(i, YES.(route := Some(HOME)));
    OneBackendTakes(s.view.matcher, task.e.key, task.hint);
    hide CanWrite, CanRead, CanReturn, OneBackend;
    var t := Step(cfg, s, go);
    assert t.tasks[i] == SetStore(task.e, HOME, task.path);
    hide Step;
    StoreArrives(cfg, t, i);
    ReturnsAfter(cfg, s, go, task.e.key);
  }

  lemma EnqueueArrives(cfg: Config, s: Service, i: nat)
    requires i < |s.tasks| && s.tasks[i].SetEnqueue? && s.view == OneBackend(s.view.matcher) && Running(s.pipe)
    ensures CanReturn(cfg, s, s.tasks[i].e.key)
  {
    hide CanWrite, CanRead, CanReturn, OneBackend, Running;
    var e, go := s.tasks[i].e, Advance(i, YES);
    var t := Step(cfg, s, go);
    if WB.Enabled(s.pipe, WB.Enqueue(e)) {
      assert t.pipe == WB.Step(s.pipe, WB.Enqueue(e)) && t.view == s.view;
      EnqueueRuns(s.pipe, e);
      hide Step, WB.Step, WB.Enabled;
      ItemArrives(cfg, t, WB.Item(|s.pipe.accepted|, e, 0));
    } else {
      assert t.tasks[i] == SetRoute(e, s.tasks[i].hint, Through) && t.view == s.view;
      hide Step;
      RouteArrives(cfg, t, i);
    }
    ReturnsAfter(cfg, s, go, e.key);
  }

  lemma EnqueueRuns(p: WB.Pipe, e: Entry)
    requires Running(p) && WB.Enabled(p, WB.Enqueue(e))
    ensures Running(WB.Step(p, WB.Enqueue(e)))
    ensures WB.Pending(WB.Step(p, WB.Enqueue(e)), WB.Item(|p.accepted|, e, 0))
  {
    WB.StepBounded(p, WB.Enqueue(e));
    P.StepKeepsRange(p, WB.Enqueue(e));
    var t := WB.Step(p, WB.Enqueue(e));
    assert t.queue[|p.queue|] == WB.Item(|p.accepted|, e, 0);
  }

  lemma CheckArrives(cfg: Config, s: Service, i: nat)
    requires i < |s.tasks| && s.tasks[i].SetCheck? && s.view == OneBackend(s.view.matcher) && Running(s.pipe)
    ensures CanReturn(cfg, s, s.tasks[i].e.key)
  {
    hide CanWrite, CanRead, CanReturn, OneBackend, Running, WB.Step, WB.Enabled;
    var e, o, go := s.tasks[i].e, s.tasks[i].o, Advance(i, YES.(localOk := false));
    var t := Step(cfg, s, go);
    assert t.tasks[i] == Dispatch(cfg, e.(ttl := GetTtl(cfg, e.ttl, o.ttl)), o);
    assert t.view == s.view && t.pipe == s.pipe;
    hide Step;
    if t.tasks[i].SetLocal? {
      StoreArrives(cfg, t, i);
    } else if t.tasks[i].SetRoute? {
      RouteArrives(cfg, t, i);
    } else {
      EnqueueArrives(cfg, t, i);
    }
    ReturnsAfter(cfg, s, go, e.key);
  }

  lemma WriterArrives(cfg: Config, s: Service, i: nat, k: string)
    requires i < |s.tasks| && Writes(s.tasks[i], k) && s.view == OneBackend(s.view.matcher) && Running(s.pipe)
    ensures CanReturn(cfg, s, k)
  {
    hide CanReturn, OneBackend, Running;
    match s.tasks[i]
    case SetCheck(_, _) => CheckArrives(cfg, s, i);
    case SetRoute(_, _, _) => RouteArrives(cfg, s, i);
    case SetEnqueue(_, _) => EnqueueArrives(cfg, s, i);
    case _ => StoreArrives(cfg, s, i);
  }

  lemma PipeRuns(cfg: Config, cells: Cells, view: View, acts: seq<Action>)
    requires !Run(cfg, cells, view, acts).pipe.closed
    ensures Running(Run(cfg, cells, view, acts).pipe)
  {
    hide RunFrom, WB.RunFrom;
    var pipe := Projection(cfg, Init(cells, view), acts);
    PipeIsARun(cfg, Init(cells, view), acts);
    WB.DrainNeverBlocks(pipe);
    forall x | WB.Pending(WB.Run(pipe), x) ensures 0 <= x.retry <= WB.MAX_RETRY {
      WB.PendingIsGenuine(pipe, x);
    }
  }

  /** In every reachable state of a running service in which no store holds a key, as after its Deletes: it
      stays deleted, whatever Gets, other Sets, the worker and changes of routing do, exactly when no request,
      backfill, queued write or retry is still on its way to write it. */
  lemma StaysGoneIff(cfg: Config, cells: Cells, view: View, acts: seq<Action>, k: string)
    requires var s := Run(cfg, cells, view, acts); Gone(s, k) && !s.pipe.closed
    ensures var s := Run(cfg, cells, view, acts); StaysGone(cfg, s, k) <==> Quiet(s, k)
  {
    var s := Run(cfg, cells, view, acts);
    PipeRuns(cfg, cells, view, acts);
    hide RunFrom, Step, Running;
    if Quiet(s, k) {
      forall more | (forall i | 0 <= i < |more| :: NoSetOf(more[i], k)) ensures Gone(RunFrom(cfg, s, more), k) {
        RunQuiet(cfg, s, more, k);
      }
    } else {
      var home := Reroute(OneBackend(s.view.matcher));
      var t := Step(cfg, s, home);
      Reroutes(cfg, s, home.newView);
      if x :| WB.Pending(s.pipe, x) && x.entry.key == k {
        ItemArrives(cfg, t, x);
      } else {
        var i :| 0 <= i < |s.tasks| && Writes(s.tasks[i], k);
        WriterArrives(cfg, t, i, k);
      }
      ReturnsAfter(cfg, s, home, k);
      var more :| Silent(more) && !Gone(RunFrom(cfg, s, more), k);
      assert forall i | 0 <= i < |more| :: NoSetOf(more[i], k);
    }
  }

  lemma Reroutes(cfg: Config, s: Service, v: View)
    ensures Step(cfg, s, Reroute(v)) == s.(view := v)
  {}
}
