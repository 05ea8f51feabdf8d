/** Where values come from, over every interleaving of the cache service. */
module Provenance {
  import opened Storage
  import opened Routing
  import opened CacheService
  import WB = WriteBehind

  /** The entry a task carries, if it carries one. */
  function Carried(t: Task): Option<Entry> {
    match t
    case SetCheck(e, _) => Some(e)
    case SetLocal(e, _, _) => Some(e)
    case SetRoute(e, _, _) => Some(e)
    case SetStore(e, _, _) => Some(e)
    case SetEnqueue(e, _) => Some(e)
    case Backfill(e) => Some(e)
    case Done(Found(e)) => Some(e)
    case _ => None
  }

  /** A test of a key and a value. */
  type Origin = (string, Bytes) -> bool

  predicate CellsFrom(cells: Cells, known: Origin) {
    forall c | c in cells :: known(c.1, cells[c])
  }

  predicate TaskFrom(t: Task, known: Origin) {
    Carried(t).Some? ==> known(Carried(t).value.key, Carried(t).value.value)
  }

  predicate TasksFrom(tasks: seq<Task>, known: Origin) {
    forall i | 0 <= i < |tasks| :: TaskFrom(tasks[i], known)
  }

  ghost predicate PipeFrom(pipe: WB.Pipe, known: Origin) {
    forall x | WB.Pending(pipe, x) :: known(x.entry.key, x.entry.value)
  }

  /** Everything that is stored, carried, queued or answered is known. */
  ghost predicate AllFrom(s: Service, known: Origin) {
    CellsFrom(s.cells, known) && TasksFrom(s.tasks, known) && PipeFrom(s.pipe, known)
  }

  lemma PutFrom(cells: Cells, b: string, e: Entry, ok: bool, effect: Effect, known: Origin)
    requires CellsFrom(cells, known) && known(e.key, e.value)
    ensures CellsFrom(Put(cells, b, e, ok, effect), known)
  {}

  lemma EnqueueFrom(pipe: WB.Pipe, e: Entry, known: Origin)
    requires PipeFrom(pipe, known) && known(e.key, e.value)
    ensures PipeFrom(WB.Step(pipe, WB.Enqueue(e)), known)
  {
    var t := WB.Step(pipe, WB.Enqueue(e));
    forall x | WB.Pending(t, x) ensures known(x.entry.key, x.entry.value) {
      assert WB.Pending(pipe, x) || x == WB.Item(|pipe.accepted|, e, 0);
    }
  }

  lemma WorkerFrom(pipe: WB.Pipe, a: WB.Action, known: Origin)
    requires PipeFrom(pipe, known) && !a.Enqueue?
    ensures PipeFrom(WB.Step(pipe, a), known)
  {
    if WB.Enabled(pipe, a) {
      var t := WB.Step(pipe, a);
      if a.Process? {
        var item := pipe.batch[0];
        assert WB.Pending(pipe, item);
        forall x | WB.Pending(t, x) ensures known(x.entry.key, x.entry.value) {
          assert WB.Pending(pipe, x) || x == item.(retry := item.retry + 1);
        }
      } else {
        assert forall x | WB.Pending(t, x) :: WB.Pending(pipe, x);
      }
    }
  }

  lemma CellFrom(cells: Cells, b: string, k: string, known: Origin)
    requires CellsFrom(cells, known) && (b, k) in cells
    ensures known(k, cells[(b, k)])
  {
    assert known((b, k).1, cells[(b, k)]);
  }

  lemma ProceedGetFrom(cfg: Config, s: Service, t: Task, ch: Choice, known: Origin)
    requires CellsFrom(s.cells, known) && (t.GetLocal? || t.GetRoute? || t.GetStore?)
    ensures var p := ProceedGet(cfg, s, t, ch);
      p.cells == s.cells && p.pipe == s.pipe && TaskFrom(p.next, known) && TasksFrom(p.spawned, known)
  {
    hide CanWrite, CanRead, CellsFrom, MaxSize;
    if t.GetLocal? && (cfg.localId, t.k) in s.cells {
      CellFrom(s.cells, cfg.localId, t.k, known);
    }
    if t.GetStore? && t.rest != [] && (t.rest[0], t.k) in s.cells {
      CellFrom(s.cells, t.rest[0], t.k, known);
    }
  }

  lemma ProceedSetFrom(cfg: Config, s: Service, t: Task, ch: Choice, known: Origin)
    requires AllFrom(s, known) && TaskFrom(t, known)
    requires t.SetCheck? || t.SetLocal? || t.SetRoute? || t.SetStore? || t.SetEnqueue? || t.Backfill?
    ensures var p := ProceedSet(cfg, s, t, ch);
      && CellsFrom(p.cells, known) && PipeFrom(p.pipe, known)
      && TaskFrom(p.next, known) && TasksFrom(p.spawned, known)
  {
    hide CanWrite, CanRead, WB.Step, WB.Enabled, PipeFrom, Put, CellsFrom;
    match t
    case SetLocal(e, _, _) => PutFrom(s.cells, cfg.localId, e, ch.localOk, ch.localEffect, known);
    case SetStore(e, b, _) => PutFrom(s.cells, b, e, ch.backendOk, ch.backendEffect, known);
    case Backfill(e) => PutFrom(s.cells, cfg.localId, e, ch.localOk, ch.localEffect, known);
    case SetEnqueue(e, _) => EnqueueFrom(s.pipe, e, known);
    case _ =>
  }

  lemma ProceedDeleteFrom(cfg: Config, s: Service, t: Task, ch: Choice, known: Origin)
    requires CellsFrom(s.cells, known) && (t.DelLocal? || t.DelRoute? || t.DelStore?)
    ensures var p := ProceedDelete(cfg, s, t, ch);
      CellsFrom(p.cells, known) && p.pipe == s.pipe && TaskFrom(p.next, known) && p.spawned == []
  {
    hide CanWrite, CanRead;
  }

  lemma ProceedFrom(cfg: Config, s: Service, t: Task, ch: Choice, known: Origin)
    requires AllFrom(s, known) && TaskFrom(t, known)
    ensures var p := Proceed(cfg, s, t, ch);
      && CellsFrom(p.cells, known) && PipeFrom(p.pipe, known)
      && TaskFrom(p.next, known) && TasksFrom(p.spawned, known)
  {
    hide ProceedSet, ProceedGet, ProceedDelete, CellsFrom, PipeFrom;
    if t.GetLocal? || t.GetRoute? || t.GetStore? {
      ProceedGetFrom(cfg, s, t, ch, known);
    } else if t.DelLocal? || t.DelRoute? || t.DelStore? {
      ProceedDeleteFrom(cfg, s, t, ch, known);
    } else if !t.Done? {
      ProceedSetFrom(cfg, s, t, ch, known);
    }
  }

  /** One step only stores, carries, queues and answers what is known, once a new Set's value is. */
  lemma StepFrom(cfg: Config, s: Service, a: Action, known: Origin)
    requires AllFrom(s, known)
    requires a.Issue? && a.request.SetRequest? ==> known(a.request.entry.key, a.request.entry.value)
    ensures AllFrom(Step(cfg, s, a), known)
  {
    hide CanWrite, CanRead, WB.Step, PipeFrom, Proceed;
    match a
    case Advance(i, ch) =>
      if i < |s.tasks| {
        ProceedFrom(cfg, s, s.tasks[i], ch, known);
      }
    case Worker(w) =>
      if WorkerMay(s, w) {
        WorkerFrom(s.pipe, w, known);
        WorkerCellsFrom(s, w, known);
      }
    case _ =>
  }

  lemma WorkerCellsFrom(s: Service, w: WB.Action, known: Origin)
    requires CellsFrom(s.cells, known) && PipeFrom(s.pipe, known)
    ensures CellsFrom(WorkerCells(s, w), known)
  {
    if w.Process? && WB.Enabled(s.pipe, w) {
      assert WB.Pending(s.pipe, s.pipe.batch[0]);
    }
  }

  lemma {:induction false} RunFromKnown(cfg: Config, cells: Cells, view: View, acts: seq<Action>, known: Origin)
    requires CellsFrom(cells, known)
    requires forall a | a in acts && a.Issue? && a.request.SetRequest? ::
               known(a.request.entry.key, a.request.entry.value)
    ensures AllFrom(Run(cfg, cells, view, acts), known)
  {
    if acts == [] {
    } else {
      hide Step, AllFrom;
      var before := acts[..|acts| - 1];
      RunFromKnown(cfg, cells, view, before, known);
      assert acts[|acts| - 1] in acts;
      StepFrom(cfg, Run(cfg, cells, view, before), acts[|acts| - 1], known);
    }
  }

  /** A value of k is explained by a Set of k among the actions so far, or by what some store held for
      k at the start. */
  ghost predicate Explained(cells: Cells, acts: seq<Action>, k: string, v: Bytes) {
    || (exists a | a in acts :: a.Issue? && a.request.SetRequest?
                                && a.request.entry.key == k && a.request.entry.value == v)
    || (exists b :: Lookup(cells, b, k) == Some(v))
  }

  /** In every interleaving of requests, backfills, retries, evictions, invalidations and rerouting: any
      value for k in a store, in the queue, in the batch, asleep for a retry, carried by a request or
      answered by a Get came from an earlier Set of k or from the initial state of a store. */
  lemma EveryValueIsExplained(cfg: Config, cells: Cells, view: View, acts: seq<Action>)
    ensures var s := Run(cfg, cells, view, acts);
      && (forall b, k | (b, k) in s.cells :: Explained(cells, acts, k, s.cells[(b, k)]))
      && (forall x | WB.Pending(s.pipe, x) :: Explained(cells, acts, x.entry.key, x.entry.value))
      && (forall i | 0 <= i < |s.tasks| && Carried(s.tasks[i]).Some? ::
            var e := Carried(s.tasks[i]).value; Explained(cells, acts, e.key, e.value))
  {
    var sets := ExplainedSet(cells, acts);
    var known: Origin := (k, v) => (k, v) in sets;
    forall c | c in cells ensures known(c.1, cells[c]) {
      assert Lookup(cells, c.0, c.1) == Some(cells[c]);
    }
    RunFromKnown(cfg, cells, view, acts, known);
    var s := Run(cfg, cells, view, acts);
    forall b, k | (b, k) in s.cells ensures Explained(cells, acts, k, s.cells[(b, k)]) {
      assert known((b, k).1, s.cells[(b, k)]);
    }
  }

  ghost function ExplainedSet(cells: Cells, acts: seq<Action>): (r: iset<(string, Bytes)>)
    ensures forall k, v :: (k, v) in r <==> Explained(cells, acts, k, v)
  {
    iset k, v | Explained(cells, acts, k, v) :: (k, v)
  }
}
