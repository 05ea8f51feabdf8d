/**
 What a Set answers and leaves behind when it is left alone, for any answers of the stores, said of the state in
 which it starts.
 */
module SetOutcomes {
  import opened Storage
  import opened Routing
  import opened CacheService
  import opened OneGoroutine
  import WB = WriteBehind

  // ----- The outcome, from the starting state -----

  /** One cell may have changed: it holds the entry's value if the store took it or had applied it all the same,
      nothing if the store dropped it, and what it held before otherwise. */
  ghost predicate WrittenTo(before: Cells, after: Cells, b: string, e: Entry, ok: bool, effect: Effect) {
    forall c, k :: Lookup(after, c, k) ==
      if c != b || k != e.key then Lookup(before, c, k)
      else if ok || effect == Applied then Some(e.value)
      else if effect == Dropped then None
      else Lookup(before, c, k)
  }

  /** The entry with the lifetime it is stored for: its own, else the request's, else the default. */
  function WithLifetime(cfg: Config, e: Entry, o: SetOptions): Entry {
    e.(ttl := if e.ttl > 0 then e.ttl else if o.ttl > 0 then o.ttl else cfg.defaultTtl)
  }

  predicate Oversized(cfg: Config, e: Entry) {
    |e.value| > if cfg.maxValueSize == 0 then 1048576 else cfg.maxValueSize
  }

  function ChosenMode(cfg: Config, o: SetOptions): Mode {
    match o.mode case Some(m) => m case None => cfg.defaultMode
  }

  /** The local cache has the key under another version than the one to be replaced. */
  predicate Superseded(cfg: Config, s: Service, e: Entry, o: SetOptions, ch: Choice) {
    && o.checkVersion && o.version > 0 && cfg.hasLocal
    && ch.localOk && (cfg.localId, e.key) in s.cells && ch.version != o.version
  }

  /** The local cache, if there is one, was given the entry first. */
  ghost predicate LocalGiven(cfg: Config, before: Cells, after: Cells, e: Entry, ch: Choice) {
    if cfg.hasLocal then WrittenTo(before, after, cfg.localId, e, ch.localOk, ch.localEffect) else after == before
  }

  /** From these cells on: the router has no backend, or the backend it names is written, and a write-through
      that it takes also fills the local cache. */
  ghost predicate EndsAtBackend(
    cfg: Config, s: Service, cells: Cells, e: Entry, hint: string, fills: bool, ch: Choice,
    route: Option<string>, answer: CacheService.Answer, t: Service)
  {
    match route
    case None =>
      answer == Refused(BackendUnhealthy) && t == s.(tasks := s.tasks + [Done(answer)], cells := cells)
    case Some(b) =>
      && answer == (if ch.backendOk then Completed else Refused(ch.error))
      && WrittenTo(cells, t.cells, b, e, ch.backendOk, ch.backendEffect)
      && t == s.(
           tasks := s.tasks + [Done(answer)] + (if ch.backendOk && fills && cfg.hasLocal then [Backfill(e)] else []),
           cells := t.cells,
           taken := if ch.backendOk || ch.backendEffect == Applied then s.taken + {(e.key, e.value)} else s.taken)
  }

  /** A free slot of the queue is taken. */
  ghost predicate EndsQueued(s: Service, cells: Cells, e: Entry, answer: CacheService.Answer, t: Service) {
    && answer == Completed
    && t == s.(tasks := s.tasks + [Done(Completed)], cells := cells,
               pipe := s.pipe.(accepted := s.pipe.accepted + [e],
                               queue := s.pipe.queue + [WB.Item(|s.pipe.accepted|, e, 0)]))
  }

  ghost predicate SetEnds(
    cfg: Config, s: Service, e: Entry, o: SetOptions, ch: Choice, route: Option<string>,
    answer: CacheService.Answer, t: Service)
  {
    var f := WithLifetime(cfg, e, o);
    if Oversized(cfg, e) then EndsAtBackend(cfg, s, s.cells, e, o.hint, false, ch, route, answer, t)
    else if Superseded(cfg, s, e, o, ch) then
      answer == Refused(VersionMismatch) && t == s.(tasks := s.tasks + [Done(answer)])
    else
      match ChosenMode(cfg, o)
      case WriteThrough => EndsAtBackend(cfg, s, s.cells, f, o.hint, true, ch, route, answer, t)
      case CacheAside =>
        exists cells :: (LocalGiven(cfg, s.cells, cells, f, ch)
                         && EndsAtBackend(cfg, s, cells, f, o.hint, false, ch, route, answer, t))
      case WriteBehind =>
        exists cells :: (LocalGiven(cfg, s.cells, cells, f, ch)
                         && if |s.pipe.queue| < 10000 then EndsQueued(s, cells, f, answer, t)
                            else EndsAtBackend(cfg, s, cells, f, o.hint, true, ch, route, answer, t))
  }

  /** A Set started in s and, left alone, ended in t with this answer. */
  ghost predicate SetEnded(
    cfg: Config, s: Service, e: Entry, o: SetOptions, ch: Choice, acts: seq<Action>,
    answer: CacheService.Answer, t: Service)
  {
    var t0 := Step(cfg, s, Issue(SetRequest(e, o)));
    && Follows(acts, |s.tasks|, ch) && t == RunFrom(cfg, t0, acts)
    && |s.tasks| < |t.tasks| && t.tasks[|s.tasks|] == Done(answer)
  }

  // ----- Every run ends so -----

  lemma PutWrites(cells: Cells, b: string, e: Entry, ok: bool, effect: Effect)
    ensures WrittenTo(cells, Put(cells, b, e, ok, effect), b, e, ok, effect)
  {}

  /** A Set has come to the router on this path, with these cells. */
  ghost predicate OnPath(
    cfg: Config, s: Service, e: Entry, o: SetOptions, ch: Choice, x: Entry, path: Path, cells: Cells)
  {
    var f, mode := WithLifetime(cfg, e, o), ChosenMode(cfg, o);
    match path
    case Pass => Oversized(cfg, e) && x == e && cells == s.cells
    case Aside => Dispatched(cfg, s, e, o, ch) && mode.CacheAside? && x == f && LocalGiven(cfg, s.cells, cells, f, ch)
    case Through =>
      && Dispatched(cfg, s, e, o, ch) && x == f
      && (|| (mode.WriteThrough? && cells == s.cells)
          || (mode.WriteBehind? && |s.pipe.queue| >= 10000 && LocalGiven(cfg, s.cells, cells, f, ch)))
  }

  predicate Dispatched(cfg: Config, s: Service, e: Entry, o: SetOptions, ch: Choice) {
    !Oversized(cfg, e) && !Superseded(cfg, s, e, o, ch)
  }

  /** How far the Set has come. */
  ghost predicate Progress(
    cfg: Config, s: Service, t: Service, e: Entry, o: SetOptions, ch: Choice, route: Option<string>)
  {
    var i, f, mode := |s.tasks|, WithLifetime(cfg, e, o), ChosenMode(cfg, o);
    && i < |t.tasks|
    && (!t.tasks[i].Done? ==> t == s.(tasks := s.tasks + [t.tasks[i]], cells := t.cells))
    && (match t.tasks[i]
        case SetCheck(x, p) => x == e && p == o && t.cells == s.cells && !Oversized(cfg, e)
        case SetLocal(x, hint, behind) =>
          && Dispatched(cfg, s, e, o, ch) && cfg.hasLocal && x == f && hint == o.hint && t.cells == s.cells
          && mode == if behind then Mode.WriteBehind else CacheAside
        case SetEnqueue(x, hint) =>
          && Dispatched(cfg, s, e, o, ch) && mode.WriteBehind? && x == f && hint == o.hint
          && LocalGiven(cfg, s.cells, t.cells, f, ch)
        case SetRoute(x, hint, path) => hint == o.hint && OnPath(cfg, s, e, o, ch, x, path, t.cells)
        case SetStore(x, b, path) =>
          && OnPath(cfg, s, e, o, ch, x, path, t.cells)
          && route == Some(b) && CanWrite(s.view, e.key, o.hint, route)
        case Done(answer) =>
          SetEnds(cfg, s, e, o, ch, route, answer, t) && (route == None || CanWrite(s.view, e.key, o.hint, route))
        case _ => false)
  }

  lemma CheckProgress(
    cfg: Config, s: Service, t: Service, e: Entry, o: SetOptions, ch: Choice, route: Option<string>, c: Choice)
    requires Progress(cfg, s, t, e, o, ch, route) && t.tasks[|s.tasks|].SetCheck? && FromStores(c, ch)
    requires route == None || CanWrite(s.view, e.key, o.hint, route)
    ensures Progress(cfg, s, Step(cfg, t, Advance(|s.tasks|, c)), e, o, ch, route)
  {
    hide CanWrite, CanRead, WB.Step, WB.Enabled, WrittenTo, EndsAtBackend, EndsQueued;
    StoresSay(c, ch);
    var u := Step(cfg, t, Advance(|s.tasks|, c));
    Replaces(s, t, u, |s.tasks|);
  }

  lemma StoresSay(c: Choice, ch: Choice)
    requires FromStores(c, ch)
    ensures c.localOk == ch.localOk && c.localEffect == ch.localEffect && c.version == ch.version
    ensures c.backendOk == ch.backendOk && c.backendEffect == ch.backendEffect && c.error == ch.error
  {
    var x, y := c.(route := None, order := []), ch.(route := None, order := []);
    assert x.localOk == y.localOk && x.localEffect == y.localEffect && x.version == y.version;
    assert x.backendOk == y.backendOk && x.backendEffect == y.backendEffect && x.error == y.error;
  }

  /** A step that replaces the last task. */
  lemma Replaces(s: Service, t: Service, u: Service, i: nat)
    requires |t.tasks| == i + 1 && i == |s.tasks| && t.tasks == s.tasks + [t.tasks[i]]
    requires |u.tasks| > i && u.tasks == t.tasks[i := u.tasks[i]] + u.tasks[i + 1..]
    ensures u.tasks == s.tasks + [u.tasks[i]] + u.tasks[i + 1..]
    ensures |u.tasks| == i + 1 ==> u.tasks == s.tasks + [u.tasks[i]]
  {
    assert t.tasks[i := u.tasks[i]] == s.tasks + [u.tasks[i]];
  }

  lemma LocalProgress(
    cfg: Config, s: Service, t: Service, e: Entry, o: SetOptions, ch: Choice, route: Option<string>, c: Choice)
    requires Progress(cfg, s, t, e, o, ch, route) && t.tasks[|s.tasks|].SetLocal? && FromStores(c, ch)
    ensures Progress(cfg, s, Step(cfg, t, Advance(|s.tasks|, c)), e, o, ch, route)
  {
    hide CanWrite, CanRead, WB.Step, WB.Enabled, WrittenTo, Put, EndsAtBackend, EndsQueued;
    StoresSay(c, ch);
    PutWrites(t.cells, cfg.localId, t.tasks[|s.tasks|].e, c.localOk, c.localEffect);
    var u := Step(cfg, t, Advance(|s.tasks|, c));
    Replaces(s, t, u, |s.tasks|);
  }

  lemma QueueTakes(p: WB.Pipe, e: Entry)
    ensures WB.Enabled(p, WB.Enqueue(e)) <==> |p.queue| < 10000
    ensures |p.queue| < 10000 ==>
              WB.Step(p, WB.Enqueue(e))
                == p.(accepted := p.accepted + [e], queue := p.queue + [WB.Item(|p.accepted|, e, 0)])
  {}

  lemma EnqueueProgress(
    cfg: Config, s: Service, t: Service, e: Entry, o: SetOptions, ch: Choice, route: Option<string>, c: Choice)
    requires Progress(cfg, s, t, e, o, ch, route) && t.tasks[|s.tasks|].SetEnqueue?
    requires route == None || CanWrite(s.view, e.key, o.hint, route)
    ensures Progress(cfg, s, Step(cfg, t, Advance(|s.tasks|, c)), e, o, ch, route)
  {
    QueueTakes(t.pipe, t.tasks[|s.tasks|].e);
    hide CanWrite, CanRead, WrittenTo, EndsAtBackend, LocalGiven, WB.Step, WB.Enabled;
    var u := Step(cfg, t, Advance(|s.tasks|, c));
    Replaces(s, t, u, |s.tasks|);
    if |s.pipe.queue| < 10000 {
      assert EndsQueued(s, t.cells, WithLifetime(cfg, e, o), Completed, u);
    }
  }

  lemma RouteProgress(
    cfg: Config, s: Service, t: Service, e: Entry, o: SetOptions, ch: Choice, route: Option<string>, c: Choice)
    requires Progress(cfg, s, t, e, o, ch, route) && t.tasks[|s.tasks|].SetRoute?
    ensures var u := Step(cfg, t, Advance(|s.tasks|, c));
      if CanWrite(s.view, e.key, o.hint, c.route) then Progress(cfg, s, u, e, o, ch, c.route) else u == t
  {
    hide CanWrite, CanRead, WB.Step, WB.Enabled, WrittenTo, LocalGiven;
    var u := Step(cfg, t, Advance(|s.tasks|, c));
    assert t.tasks[|s.tasks|].e.key == e.key;
    Replaces(s, t, u, |s.tasks|);
    if CanWrite(s.view, e.key, o.hint, c.route) && c.route == None {
      var x := t.tasks[|s.tasks|].e;
      assert EndsAtBackend(cfg, s, t.cells, x, o.hint, t.tasks[|s.tasks|].path.Through?, ch, None,
                           Refused(BackendUnhealthy), u);
    } else if !CanWrite(s.view, e.key, o.hint, c.route) {
      assert t.tasks[|s.tasks| := t.tasks[|s.tasks|]] + [] == t.tasks;
    }
  }

  lemma StoreProgress(
    cfg: Config, s: Service, t: Service, e: Entry, o: SetOptions, ch: Choice, route: Option<string>, c: Choice)
    requires Progress(cfg, s, t, e, o, ch, route) && t.tasks[|s.tasks|].SetStore? && FromStores(c, ch)
    ensures Progress(cfg, s, Step(cfg, t, Advance(|s.tasks|, c)), e, o, ch, route)
  {
    hide CanWrite, CanRead, WB.Step, WB.Enabled, WrittenTo, LocalGiven, Put;
    StoresSay(c, ch);
    var i := |s.tasks|;
    var task := t.tasks[i];
    PutWrites(t.cells, task.backend, task.e, c.backendOk, c.backendEffect);
    var u := Step(cfg, t, Advance(i, c));
    Replaces(s, t, u, i);
    assert EndsAtBackend(cfg, s, t.cells, task.e, o.hint, task.path.Through?, ch, route, u.tasks[i].answer, u);
  }

  lemma DoneProgress(cfg: Config, t: Service, i: nat, c: Choice)
    requires i < |t.tasks| && t.tasks[i].Done?
    ensures Step(cfg, t, Advance(i, c)) == t
  {
    assert t.tasks[i := t.tasks[i]] + [] == t.tasks;
  }

  /** The stages of a Set; the router has answered before the backend is written. */
  lemma StageOf(
    cfg: Config, s: Service, t: Service, e: Entry, o: SetOptions, ch: Choice, route: Option<string>)
    requires Progress(cfg, s, t, e, o, ch, route)
    ensures |s.tasks| < |t.tasks|
    ensures var task := t.tasks[|s.tasks|];
      task.SetCheck? || task.SetLocal? || task.SetEnqueue? || task.SetRoute? || task.SetStore? || task.Done?
  {}

  lemma RouteUnused(
    cfg: Config, s: Service, t: Service, e: Entry, o: SetOptions, ch: Choice, route: Option<string>)
    requires Progress(cfg, s, t, e, o, ch, route) && !t.tasks[|s.tasks|].SetStore? && !t.tasks[|s.tasks|].Done?
    ensures Progress(cfg, s, t, e, o, ch, None)
  {}

  lemma OneProgress(
    cfg: Config, s: Service, t: Service, e: Entry, o: SetOptions, ch: Choice, route0: Option<string>, c: Choice)
    returns (route: Option<string>)
    requires Progress(cfg, s, t, e, o, ch, route0) && FromStores(c, ch)
    ensures Progress(cfg, s, Step(cfg, t, Advance(|s.tasks|, c)), e, o, ch, route)
  {
    StageOf(cfg, s, t, e, o, ch, route0);
    route := route0;
    var task := t.tasks[|s.tasks|];
    if !task.SetStore? && !task.Done? {
      RouteUnused(cfg, s, t, e, o, ch, route0);
      route := None;
    }
    hide Step, Progress, CanWrite, FromStores;
    match task
    case SetCheck(_, _) => CheckProgress(cfg, s, t, e, o, ch, None, c);
    case SetLocal(_, _, _) => LocalProgress(cfg, s, t, e, o, ch, None, c);
    case SetEnqueue(_, _) => EnqueueProgress(cfg, s, t, e, o, ch, None, c);
    case SetRoute(_, _, _) =>
      RouteProgress(cfg, s, t, e, o, ch, None, c);
      if CanWrite(s.view, e.key, o.hint, c.route) {
        route := c.route;
      }
    case SetStore(_, _, _) => StoreProgress(cfg, s, t, e, o, ch, route, c);
    case Done(_) => DoneProgress(cfg, t, |s.tasks|, c);
  }

  lemma {:induction false} RunProgress(
    cfg: Config, s: Service, t0: Service, e: Entry, o: SetOptions, ch: Choice, acts: seq<Action>)
    returns (route: Option<string>)
    requires Progress(cfg, s, t0, e, o, ch, None) && Follows(acts, |s.tasks|, ch)
    ensures Progress(cfg, s, RunFrom(cfg, t0, acts), e, o, ch, route)
  {
    route := None;
    if acts != [] {
      hide Step, Progress, FromStores;
      var before := acts[..|acts| - 1];
      route := RunProgress(cfg, s, t0, e, o, ch, before);
      route := OneProgress(cfg, s, RunFrom(cfg, t0, before), e, o, ch, route, acts[|acts| - 1].choice);
    }
  }

  lemma Starts(cfg: Config, s: Service, e: Entry, o: SetOptions, ch: Choice)
    ensures Progress(cfg, s, Step(cfg, s, Issue(SetRequest(e, o))), e, o, ch, None)
  {
    hide CanWrite;
    assert (s.tasks + [Start(cfg, SetRequest(e, o))])[|s.tasks|] == Start(cfg, SetRequest(e, o));
  }

  /** Every Set that is left alone and ends, ends as its size, its version, its mode and the queue say, at a
      backend the router may name. */
  lemma SetOutcome(
    cfg: Config, s: Service, e: Entry, o: SetOptions, ch: Choice, acts: seq<Action>,
    answer: CacheService.Answer, t: Service)
    returns (route: Option<string>)
    requires SetEnded(cfg, s, e, o, ch, acts, answer, t)
    ensures SetEnds(cfg, s, e, o, ch, route, answer, t)
    ensures route == None || CanWrite(s.view, e.key, o.hint, route)
  {
    hide Step, RunFrom, CanWrite, Follows, SetEnds;
    Starts(cfg, s, e, o, ch);
    route := RunProgress(cfg, s, Step(cfg, s, Issue(SetRequest(e, o))), e, o, ch, acts);
  }

  // ----- And every such end comes about -----

  function StepsLeft(t: Task): nat {
    match t
    case SetCheck(_, _) => 5
    case SetLocal(_, _, _) => 4
    case SetEnqueue(_, _) => 3
    case SetRoute(_, _, _) => 2
    case SetStore(_, _, _) => 1
    case _ => 0
  }

  lemma MovesOn(cfg: Config, t: Service, i: nat, c: Choice)
    requires i < |t.tasks| && StepsLeft(t.tasks[i]) > 0
    requires t.tasks[i].SetRoute? ==> CanWrite(t.view, t.tasks[i].e.key, t.tasks[i].hint, c.route)
    ensures var u := Step(cfg, t, Advance(i, c)); i < |u.tasks| && StepsLeft(u.tasks[i]) < StepsLeft(t.tasks[i])
  {
    hide CanWrite, CanRead, WB.Step, WB.Enabled;
  }

  lemma RouteAsked(
    cfg: Config, s: Service, t: Service, e: Entry, o: SetOptions, ch: Choice, route: Option<string>)
    requires Progress(cfg, s, t, e, o, ch, route) && t.tasks[|s.tasks|].SetRoute?
    ensures t.view == s.view && t.tasks[|s.tasks|].e.key == e.key && t.tasks[|s.tasks|].hint == o.hint
  {
    hide CanWrite;
  }

  lemma {:induction false} Finishes(
    cfg: Config, s: Service, t: Service, e: Entry, o: SetOptions, ch: Choice, route: Option<string>)
    returns (acts: seq<Action>, answer: CacheService.Answer)
    requires Progress(cfg, s, t, e, o, ch, route) && CanWrite(s.view, e.key, o.hint, route)
    ensures Follows(acts, |s.tasks|, ch)
    ensures var u := RunFrom(cfg, t, acts);
      |s.tasks| < |u.tasks| && u.tasks[|s.tasks|] == Done(answer) && SetEnds(cfg, s, e, o, ch, route, answer, u)
    decreases if |s.tasks| < |t.tasks| then StepsLeft(t.tasks[|s.tasks|]) else 0
  {
    StageOf(cfg, s, t, e, o, ch, route);
    var i := |s.tasks|;
    if t.tasks[i].Done? {
      NoSteps(cfg, t);
      return [], t.tasks[i].answer;
    }
    var c := ch.(route := route);
    SameStores(ch, route, ch.order);
    var u := Step(cfg, t, Advance(i, c));
    if t.tasks[i].SetRoute? {
      RouteAsked(cfg, s, t, e, o, ch, route);
    }
    MovesOn(cfg, t, i, c);
    FollowsOne(i, c, ch);
    hide Step, Progress, CanWrite, FromStores, RunFrom, Follows, SetEnds;
    match t.tasks[i] {
      case SetCheck(_, _) => CheckProgress(cfg, s, t, e, o, ch, route, c);
      case SetLocal(_, _, _) => LocalProgress(cfg, s, t, e, o, ch, route, c);
      case SetEnqueue(_, _) => EnqueueProgress(cfg, s, t, e, o, ch, route, c);
      case SetRoute(_, _, _) => RouteProgress(cfg, s, t, e, o, ch, route, c);
      case SetStore(_, _, _) => StoreProgress(cfg, s, t, e, o, ch, route, c);
    }
    var more;
    more, answer := Finishes(cfg, s, u, e, o, ch, route);
    acts := [Advance(i, c)] + more;
    OneStep(cfg, t, Advance(i, c));
    RunAppend(cfg, t, [Advance(i, c)], more);
    FollowsConcat([Advance(i, c)], more, i, ch);
  }

  /** A Set can end, whatever the router may name for it. */
  lemma SetHappens(cfg: Config, s: Service, e: Entry, o: SetOptions, ch: Choice, route: Option<string>)
    returns (acts: seq<Action>, answer: CacheService.Answer, t: Service)
    requires CanWrite(s.view, e.key, o.hint, route)
    ensures SetEnded(cfg, s, e, o, ch, acts, answer, t)
    ensures SetEnds(cfg, s, e, o, ch, route, answer, t)
  {
    hide Step, RunFrom, CanWrite, Follows, SetEnds;
    var t0 := Step(cfg, s, Issue(SetRequest(e, o)));
    Starts(cfg, s, e, o, ch);
    FreshProgress(cfg, s, t0, e, o, ch, route);
    acts, answer := Finishes(cfg, s, t0, e, o, ch, route);
    t := RunFrom(cfg, t0, acts);
  }

  lemma FreshProgress(
    cfg: Config, s: Service, t: Service, e: Entry, o: SetOptions, ch: Choice, route: Option<string>)
    requires Progress(cfg, s, t, e, o, ch, None) && t == Step(cfg, s, Issue(SetRequest(e, o)))
    ensures Progress(cfg, s, t, e, o, ch, route)
  {
    hide CanWrite;
  }

  // ----- When a Set is refused for its version -----

  /** A Set that is left alone is answered VersionMismatch exactly when it is within the size limit, asks for the
      check, names a version, and the local cache has the key under another one. */
  lemma RefusedIff(
    cfg: Config, s: Service, e: Entry, o: SetOptions, ch: Choice, acts: seq<Action>,
    answer: CacheService.Answer, t: Service)
    requires SetEnded(cfg, s, e, o, ch, acts, answer, t) && ch.error != VersionMismatch
    ensures answer == Refused(VersionMismatch)
       <==> && |e.value| <= (if cfg.maxValueSize == 0 then 1048576 else cfg.maxValueSize)
            && o.checkVersion && o.version > 0 && cfg.hasLocal && ch.localOk && (cfg.localId, e.key) in s.cells
            && ch.version != o.version
  {
    hide SetEnded, CanWrite, WrittenTo, LocalGiven;
    var route := SetOutcome(cfg, s, e, o, ch, acts, answer, t);
  }

  // ----- The goroutine that a Set or a Get leaves behind -----

  /** Whenever a backfill runs, it gives its entry to the local cache, changes nothing else, and is done. */
  lemma BackfillOutcome(cfg: Config, s: Service, i: nat, ch: Choice)
    requires i < |s.tasks| && s.tasks[i].Backfill?
    ensures var t := Step(cfg, s, Advance(i, ch));
      && t == s.(tasks := s.tasks[i := Done(Completed)], cells := t.cells)
      && WrittenTo(s.cells, t.cells, cfg.localId, s.tasks[i].e, ch.localOk, ch.localEffect)
  {
    hide CanWrite, CanRead, WB.Step, WB.Enabled, WrittenTo;
    PutWrites(s.cells, cfg.localId, s.tasks[i].e, ch.localOk, ch.localEffect);
    assert s.tasks[i := Done(Completed)] + [] == s.tasks[i := Done(Completed)];
  }
}
