/**
 The cache service as a step system: every Get, Set and Delete is a task that goes through the local
 cache, the router and one or more backends step by step, so requests interleave with each other, with
 the backfills they spawn, with the write-behind worker, and with evictions and invalidations.
 What stores and router answer is part of a step's choice; an impossible choice changes nothing.
 */
module CacheService {
  import opened Storage
  import opened Routing
  import WB = WriteBehind

  datatype Mode = CacheAside | WriteThrough | WriteBehind

  datatype Config = Config(
    hasLocal: bool, localId: string, maxValueSize: int, enableVersioning: bool,
    defaultMode: Mode, defaultTtl: int)

  const DEFAULT_MAX_VALUE_SIZE := 1024 * 1024

  function MaxSize(cfg: Config): int {
    if cfg.maxValueSize == 0 then DEFAULT_MAX_VALUE_SIZE else cfg.maxValueSize
  }

  datatype SetOptions = SetOptions(version: nat, hint: string, ttl: int, mode: Option<Mode>, checkVersion: bool)

  datatype GetOptions = GetOptions(version: nat, hint: string, skipCache: bool)

  datatype Request =
    | SetRequest(entry: Entry, setOptions: SetOptions)
    | GetRequest(key: string, getOptions: GetOptions)
    | DeleteRequest(deleted: string, hint: string)

  /** Which Set path a task is on when it reaches the router. */
  datatype Path = Aside | Through | Pass

  datatype Answer =
    | Completed
    | Found(entry: Entry)
    | Refused(error: Error)

  /** What a goroutine is about to do. */
  datatype Task =
    | SetCheck(e: Entry, o: SetOptions)                 // compare versions, choose the mode
    | SetLocal(e: Entry, hint: string, behind: bool)    // write the local cache first
    | SetRoute(e: Entry, hint: string, path: Path)      // ask the router
    | SetStore(e: Entry, backend: string, path: Path)   // write the backend
    | SetEnqueue(e: Entry, hint: string)                // offer the entry to the write-behind queue
    | GetLocal(k: string, g: GetOptions)
    | GetRoute(k: string, g: GetOptions)
    | GetStore(k: string, g: GetOptions, rest: seq<string>, lastErr: Option<Error>)
    | DelLocal(k: string, hint: string)
    | DelRoute(k: string, hint: string)
    | DelStore(k: string, backend: string)
    | Backfill(e: Entry)
    | Done(answer: Answer)

  /** What a refused write or delete did to the cell. */
  datatype Effect = Kept | Dropped | Applied

  /** The answers a step gets: the router's, the local cache's, a backend's. */
  datatype Choice = Choice(
    route: Option<string>, order: seq<string>,
    localOk: bool, localEffect: Effect,
    backendOk: bool, backendEffect: Effect, error: Error,
    version: nat)

  /** Every store answers; the router's answers are still to be filled in. */
  const YES := Choice(None, [], true, Kept, true, Kept, Failed, 0)

  datatype Service = Service(
    cells: Cells,
    pipe: WB.Pipe,
    tasks: seq<Task>,
    view: View,
    taken: set<(string, Bytes)>)   // key and value of every Set a backend took and of every backend hit

  datatype Action =
    | Issue(request: Request)
    | Advance(i: nat, choice: Choice)
    | Worker(step: WB.Action)
    | Evict(backend: string, key: string)     // a store evicts or expires a cell
    | Invalidate(invalidated: string, ok: bool)
    | Reroute(newView: View)                  // rules, registrations or health change

  function Init(cells: Cells, view: View): Service {
    Service(cells, WB.Init, [], view, {})
  }

  // ----- Stores -----

  function Put(cells: Cells, b: string, e: Entry, ok: bool, effect: Effect): Cells {
    if ok || effect.Applied? then cells[(b, e.key) := e.value]
    else if effect.Dropped? then cells - {(b, e.key)}
    else cells
  }

  function Remove(cells: Cells, b: string, k: string, ok: bool, effect: Effect): Cells {
    if ok || !effect.Kept? then cells - {(b, k)} else cells
  }

  function GetTtl(cfg: Config, first: int, second: int): int {
    if first > 0 then first else if second > 0 then second else cfg.defaultTtl
  }

  // ----- Tasks -----

  function Start(cfg: Config, r: Request): Task {
    match r
    case SetRequest(e, o) => if |e.value| > MaxSize(cfg) then SetRoute(e, o.hint, Pass) else SetCheck(e, o)
    case GetRequest(k, g) => if !g.skipCache && cfg.hasLocal then GetLocal(k, g) else GetRoute(k, g)
    case DeleteRequest(k, hint) => if cfg.hasLocal then DelLocal(k, hint) else DelRoute(k, hint)
  }

  function ModeOf(cfg: Config, o: SetOptions): Mode {
    if o.mode.Some? then o.mode.value else cfg.defaultMode
  }

  /** The switch of Set, after size and version checks. */
  function Dispatch(cfg: Config, e: Entry, o: SetOptions): Task {
    match ModeOf(cfg, o)
    case WriteThrough => SetRoute(e, o.hint, Through)
    case WriteBehind => if cfg.hasLocal then SetLocal(e, o.hint, true) else SetEnqueue(e, o.hint)
    case CacheAside => if cfg.hasLocal then SetLocal(e, o.hint, false) else SetRoute(e, o.hint, Aside)
  }

  /** What one step of a task does: its next step, a task it spawns, and its effect on the state. */
  datatype Progress = Progress(
    next: Task, spawned: seq<Task>, cells: Cells, pipe: WB.Pipe, taken: set<(string, Bytes)>)

  function Stay(s: Service, t: Task): Progress {
    Progress(t, [], s.cells, s.pipe, s.taken)
  }

  function Mismatch(cfg: Config, wanted: nat, version: nat): bool {
    cfg.enableVersioning && wanted > 0 && version != wanted
  }

  ghost function ProceedSet(cfg: Config, s: Service, t: Task, ch: Choice): Progress
    requires t.SetCheck? || t.SetLocal? || t.SetRoute? || t.SetStore? || t.SetEnqueue? || t.Backfill?
  {
    match t
    case SetCheck(e, o) =>
      if o.checkVersion && o.version > 0 && cfg.hasLocal && ch.localOk
         && (cfg.localId, e.key) in s.cells && ch.version != o.version
      then Stay(s, Done(Refused(VersionMismatch)))
      else Stay(s, Dispatch(cfg, e.(ttl := GetTtl(cfg, e.ttl, o.ttl)), o))
    case SetLocal(e, hint, behind) =>
      Stay(s, if behind then SetEnqueue(e, hint) else SetRoute(e, hint, Aside))
        .(cells := Put(s.cells, cfg.localId, e, ch.localOk, ch.localEffect))
    case SetRoute(e, hint, path) =>
      if !CanWrite(s.view, e.key, hint, ch.route) then Stay(s, t)
      else if ch.route.None? then Stay(s, Done(Refused(BackendUnhealthy)))
      else Stay(s, SetStore(e, ch.route.value, path))
    case SetStore(e, b, path) =>
      var cells := Put(s.cells, b, e, ch.backendOk, ch.backendEffect);
      var taken := if ch.backendOk || ch.backendEffect.Applied? then s.taken + {(e.key, e.value)} else s.taken;
      var spawned := if ch.backendOk && path.Through? && cfg.hasLocal then [Backfill(e)] else [];
      Progress(Done(if ch.backendOk then Completed else Refused(ch.error)), spawned, cells, s.pipe, taken)
    case SetEnqueue(e, hint) =>
      if WB.Enabled(s.pipe, WB.Enqueue(e))
      then Stay(s, Done(Completed)).(pipe := WB.Step(s.pipe, WB.Enqueue(e)))
      else Stay(s, SetRoute(e, hint, Through))
    case Backfill(e) =>
      Stay(s, Done(Completed)).(cells := Put(s.cells, cfg.localId, e, ch.localOk, ch.localEffect))
  }

  ghost function ProceedGet(cfg: Config, s: Service, t: Task, ch: Choice): Progress
    requires t.GetLocal? || t.GetRoute? || t.GetStore?
  {
    match t
    case GetLocal(k, g) =>
      if ch.localOk && (cfg.localId, k) in s.cells then
        var entry := Entry(k, s.cells[(cfg.localId, k)], ch.version, 0);
        Stay(s, Done(if Mismatch(cfg, g.version, ch.version) then Refused(VersionMismatch) else Found(entry)))
      else Stay(s, GetRoute(k, g))
    case GetRoute(k, g) =>
      if !CanRead(s.view, k, g.hint, ch.order) then Stay(s, t)
      else if ch.order == [] then Stay(s, Done(Refused(BackendUnhealthy)))
      else Stay(s, GetStore(k, g, ch.order, None))
    case GetStore(k, g, rest, lastErr) =>
      if rest == [] then Stay(s, Done(Refused(if lastErr.Some? then lastErr.value else KeyNotFound)))
      else if !ch.backendOk then
        Stay(s, GetStore(k, g, rest[1..], if ch.error.KeyNotFound? then lastErr else Some(ch.error)))
      else if (rest[0], k) !in s.cells then Stay(s, GetStore(k, g, rest[1..], lastErr))
      else
        var entry := Entry(k, s.cells[(rest[0], k)], ch.version, 0);
        var hit := Stay(s, t).(taken := s.taken + {(k, entry.value)});
        if Mismatch(cfg, g.version, ch.version) then hit.(next := Done(Refused(VersionMismatch)))
        else hit.(next := Done(Found(entry)),
                  spawned := if cfg.hasLocal && !g.skipCache && |entry.value| <= MaxSize(cfg)
                             then [Backfill(entry)] else [])
  }

  ghost function ProceedDelete(cfg: Config, s: Service, t: Task, ch: Choice): Progress
    requires t.DelLocal? || t.DelRoute? || t.DelStore?
  {
    match t
    case DelLocal(k, hint) =>
      Stay(s, DelRoute(k, hint)).(cells := Remove(s.cells, cfg.localId, k, ch.localOk, ch.localEffect))
    case DelRoute(k, hint) =>
      if !CanWrite(s.view, k, hint, ch.route) then Stay(s, t)
      else if ch.route.None? then Stay(s, Done(Refused(BackendUnhealthy)))
      else Stay(s, DelStore(k, ch.route.value))
    case DelStore(k, b) =>
      Stay(s, Done(if ch.backendOk then Completed else Refused(ch.error)))
        .(cells := Remove(s.cells, b, k, ch.backendOk, ch.backendEffect))
  }

  ghost function Proceed(cfg: Config, s: Service, t: Task, ch: Choice): Progress {
    match t
    case GetLocal(_, _) => ProceedGet(cfg, s, t, ch)
    case GetRoute(_, _) => ProceedGet(cfg, s, t, ch)
    case GetStore(_, _, _, _) => ProceedGet(cfg, s, t, ch)
    case DelLocal(_, _) => ProceedDelete(cfg, s, t, ch)
    case DelRoute(_, _) => ProceedDelete(cfg, s, t, ch)
    case DelStore(_, _) => ProceedDelete(cfg, s, t, ch)
    case Done(_) => Stay(s, t)
    case _ => ProceedSet(cfg, s, t, ch)
  }

  // ----- The write-behind worker inside the service -----

  /** The worker routes without a hint. */
  ghost predicate WorkerMay(s: Service, a: WB.Action) {
    && !a.Enqueue? && !a.DirectWrite?
    && (a.Process? && s.pipe.batch != [] ==>
          var key := s.pipe.batch[0].entry.key;
          match a.outcome
          case NoBackend => CanWrite(s.view, key, "", None)
          case Refused(b, _) => CanWrite(s.view, key, "", Some(b))
          case Stored(b) => CanWrite(s.view, key, "", Some(b)))
  }

  /** The step is an attempt whose write reaches a backend. */
  predicate Lands(s: Service, a: WB.Action) {
    a.Process? && WB.Enabled(s.pipe, a) && (a.outcome.Stored? || (a.outcome.Refused? && a.outcome.landed))
  }

  function WorkerCells(s: Service, a: WB.Action): Cells {
    if Lands(s, a)
    then s.cells[(a.outcome.backend, s.pipe.batch[0].entry.key) := s.pipe.batch[0].entry.value]
    else s.cells
  }

  function WorkerTaken(s: Service, a: WB.Action): set<(string, Bytes)> {
    if Lands(s, a)
    then s.taken + {(s.pipe.batch[0].entry.key, s.pipe.batch[0].entry.value)}
    else s.taken
  }

  // ----- Steps and runs -----

  ghost function Step(cfg: Config, s: Service, a: Action): Service {
    match a
    case Issue(r) =>
      s.(tasks := s.tasks + [Start(cfg, r)])
    case Advance(i, ch) =>
      if i >= |s.tasks| then s
      else
        var p := Proceed(cfg, s, s.tasks[i], ch);
        s.(tasks := s.tasks[i := p.next] + p.spawned, cells := p.cells, pipe := p.pipe, taken := p.taken)
    case Worker(w) =>
      if !WorkerMay(s, w) then s
      else s.(pipe := WB.Step(s.pipe, w), cells := WorkerCells(s, w), taken := WorkerTaken(s, w))
    case Evict(b, k) => s.(cells := s.cells - {(b, k)})
    case Invalidate(k, ok) =>
      if cfg.hasLocal && ok then s.(cells := s.cells - {(cfg.localId, k)}) else s
    case Reroute(v) => s.(view := v)
  }

  ghost function RunFrom(cfg: Config, s: Service, acts: seq<Action>): Service {
    if acts == [] then s else Step(cfg, RunFrom(cfg, s, acts[..|acts| - 1]), acts[|acts| - 1])
  }

  ghost function Run(cfg: Config, cells: Cells, view: View, acts: seq<Action>): Service {
    RunFrom(cfg, Init(cells, view), acts)
  }

  lemma RunOne(cfg: Config, s: Service, acts: seq<Action>, a: Action)
    ensures RunFrom(cfg, s, acts + [a]) == Step(cfg, RunFrom(cfg, s, acts), a)
  {
    hide Step;
    assert (acts + [a])[..|acts|] == acts;
  }

  lemma {:induction false} RunAppend(cfg: Config, s: Service, acts: seq<Action>, more: seq<Action>)
    ensures RunFrom(cfg, s, acts + more) == RunFrom(cfg, RunFrom(cfg, s, acts), more)
  {
    hide Step;
    if more == [] {
      assert acts + more == acts;
    } else {
      var all := acts + more;
      assert all[..|all| - 1] == acts + more[..|more| - 1];
      RunAppend(cfg, s, acts, more[..|more| - 1]);
    }
  }

  lemma RunTwo(cfg: Config, s: Service, a: Action, b: Action)
    ensures RunFrom(cfg, s, [a]) == Step(cfg, s, a)
    ensures RunFrom(cfg, s, [a, b]) == Step(cfg, Step(cfg, s, a), b)
  {
    hide Step;
    assert [a][..0] == [] && [a, b][..1] == [a];
  }

  lemma Issues(cfg: Config, s: Service, r: Request)
    ensures Step(cfg, s, Issue(r)) == s.(tasks := s.tasks + [Start(cfg, r)])
  {}
}
