/** Runs of a single Get, from whatever state it starts in, while every store answers. */
module StateReads {
  import opened Storage
  import opened Routing
  import opened CacheService
  import WB = WriteBehind

  /** The value of k in the first backend of the route that has one. */
  function FirstHeld(cells: Cells, route: seq<string>, k: string): Option<Bytes> {
    if route == [] then None
    else if (route[0], k) in cells then Some(cells[(route[0], k)])
    else FirstHeld(cells, route[1..], k)
  }

  lemma {:induction false} NothingHeld(route: seq<string>, k: string)
    ensures FirstHeld(map[], route, k) == None
  {
    if route != [] {
      NothingHeld(route[1..], k);
    }
  }

  /** The Get looks into the local cache and finds its key there. */
  predicate LocalHit(cfg: Config, s: Service, k: string, g: GetOptions) {
    cfg.hasLocal && !g.skipCache && (cfg.localId, k) in s.cells
  }

  /** Only goroutine i advances, and every store answers it. */
  predicate Alone(acts: seq<Action>, i: nat) {
    forall n | 0 <= n < |acts| ::
      acts[n].Advance? && acts[n].i == i && acts[n].choice.localOk && acts[n].choice.backendOk
  }

  /** A Get started in s and, left alone, ended with this answer. */
  ghost predicate Answers(
    cfg: Config, s: Service, k: string, g: GetOptions, acts: seq<Action>, answer: CacheService.Answer)
  {
    var t := RunFrom(cfg, Step(cfg, s, Issue(GetRequest(k, g))), acts);
    Alone(acts, |s.tasks|) && |s.tasks| < |t.tasks| && t.tasks[|s.tasks|] == Done(answer)
  }

  lemma AlwaysOk(acts: seq<Action>, i: nat, more: seq<Action>)
    requires Alone(acts, i) && Alone(more, i)
    ensures Alone(acts + more, i)
  {}

  /** A Get is given its route. */
  lemma GetsRoute(cfg: Config, s: Service, i: nat, route: seq<string>)
    requires i < |s.tasks| && s.tasks[i].GetRoute? && CanRead(s.view, s.tasks[i].k, s.tasks[i].g.hint, route)
    ensures var t := s.tasks[i];
      Step(cfg, s, Advance(i, YES.(order := route)))
        == s.(tasks := s.tasks[i := if route == [] then Done(Refused(BackendUnhealthy))
                                    else GetStore(t.k, t.g, route, None)])
  {
    hide CanWrite, CanRead;
  }

  /** One step through the rest of a route. */
  lemma StoreStep(cfg: Config, s: Service, i: nat)
    requires i < |s.tasks| && s.tasks[i].GetStore? && s.tasks[i].g.version == 0 && s.tasks[i].lastErr == None
    ensures var t := s.tasks[i]; var u := Step(cfg, s, Advance(i, YES));
      && i < |u.tasks| && u.cells == s.cells
      && (if t.rest == [] then u.tasks[i] == Done(Refused(KeyNotFound))
          else if (t.rest[0], t.k) in s.cells
          then u.tasks[i].Done? && u.tasks[i].answer.Found?
               && u.tasks[i].answer.entry.value == s.cells[(t.rest[0], t.k)]
          else u.tasks[i] == t.(rest := t.rest[1..]))
  {
    hide CanWrite, CanRead, WB.Step;
  }

  predicate Tells(answer: CacheService.Answer, held: Option<Bytes>) {
    match held
    case None => answer.Refused?
    case Some(v) => answer.Found? && answer.entry.value == v
  }

  lemma {:induction false} WalkAlong(cfg: Config, s: Service, i: nat)
    returns (acts: seq<Action>, answer: CacheService.Answer)
    requires i < |s.tasks| && s.tasks[i].GetStore? && s.tasks[i].g.version == 0 && s.tasks[i].lastErr == None
    ensures Alone(acts, i) && Tells(answer, FirstHeld(s.cells, s.tasks[i].rest, s.tasks[i].k))
    ensures var t := RunFrom(cfg, s, acts); i < |t.tasks| && t.tasks[i] == Done(answer)
    decreases |s.tasks[i].rest|
  {
    var go, task := Advance(i, YES), s.tasks[i];
    var u := Step(cfg, s, go);
    StoreStep(cfg, s, i);
    hide Step;
    RunTwo(cfg, s, go, go);
    if task.rest == [] || (task.rest[0], task.k) in s.cells {
      acts, answer := [go], u.tasks[i].answer;
    } else {
      var more;
      more, answer := WalkAlong(cfg, u, i);
      RunAppend(cfg, s, [go], more);
      acts := [go] + more;
    }
  }

  /** The local step of a Get, taken or passed by. */
  lemma LooksLocally(cfg: Config, s: Service, k: string, g: GetOptions) returns (acts: seq<Action>, t: Service)
    requires g.version == 0
    ensures Alone(acts, |s.tasks|) && t == RunFrom(cfg, Step(cfg, s, Issue(GetRequest(k, g))), acts)
    ensures if LocalHit(cfg, s, k, g)
            then |s.tasks| < |t.tasks|
                 && t.tasks[|s.tasks|] == Done(Found(Entry(k, s.cells[(cfg.localId, k)], 0, 0)))
            else t == s.(tasks := s.tasks + [GetRoute(k, g)])
  {
    hide CanWrite, CanRead, WB.Step;
    var look := Advance(|s.tasks|, YES);
    var t0 := Step(cfg, s, Issue(GetRequest(k, g)));
    if cfg.hasLocal && !g.skipCache {
      acts := [look];
      t := Step(cfg, t0, look);
      assert t0.tasks[|s.tasks|] == GetLocal(k, g);
    } else {
      acts := [];
      t := t0;
    }
    hide Step;
    RunTwo(cfg, t0, look, look);
  }

  /** A Get that is not served locally goes along any route it may be given. */
  lemma AnswersAlong(cfg: Config, s: Service, k: string, g: GetOptions, route: seq<string>)
    returns (acts: seq<Action>, answer: CacheService.Answer)
    requires g.version == 0 && !LocalHit(cfg, s, k, g) && CanRead(s.view, k, g.hint, route)
    ensures Answers(cfg, s, k, g, acts, answer) && Tells(answer, FirstHeld(s.cells, route, k))
  {
    hide CanWrite, CanRead, Step, RunFrom;
    var i := |s.tasks|;
    var t0 := Step(cfg, s, Issue(GetRequest(k, g)));
    var look, t1 := LooksLocally(cfg, s, k, g);
    var ask := Advance(i, YES.(order := route));
    GetsRoute(cfg, t1, i, route);
    RunOne(cfg, t0, look, ask);
    acts := look + [ask];
    AlwaysOk(look, i, [ask]);
    if route == [] {
      answer := Refused(BackendUnhealthy);
    } else {
      var more;
      more, answer := WalkAlong(cfg, Step(cfg, t1, ask), i);
      RunAppend(cfg, t0, acts, more);
      AlwaysOk(acts, i, more);
      acts := acts + more;
    }
  }
}
