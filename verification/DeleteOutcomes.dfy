/**
 What a Delete answers and leaves behind when it is left alone, for any answers of the stores, said of the state in
 which it starts.
 */
module DeleteOutcomes {
  import opened Storage
  import opened Routing
  import opened CacheService
  import opened OneGoroutine
  import WB = WriteBehind

  // ----- The outcome, from the starting state -----

  /** One cell may have changed: it is empty if the store deleted the key, or did so all the same, and holds what
      it held before otherwise. */
  ghost predicate DeletedFrom(before: Cells, after: Cells, b: string, key: string, ok: bool, effect: Effect) {
    forall c, k :: Lookup(after, c, k) ==
      if c == b && k == key && (ok || effect != Kept) then None else Lookup(before, c, k)
  }

  /** The local cache, if there is one, is asked first, and its answer is ignored. */
  ghost predicate LocalAsked(cfg: Config, before: Cells, after: Cells, k: string, ch: Choice) {
    if cfg.hasLocal then DeletedFrom(before, after, cfg.localId, k, ch.localOk, ch.localEffect) else after == before
  }

  /** The backend that the router names is asked and its answer given, or there is none. */
  ghost predicate BackendAsked(
    before: Cells, after: Cells, k: string, ch: Choice, route: Option<string>, answer: CacheService.Answer)
  {
    match route
    case None => answer == Refused(BackendUnhealthy) && after == before
    case Some(b) =>
      && answer == (if ch.backendOk then Completed else Refused(ch.error))
      && DeletedFrom(before, after, b, k, ch.backendOk, ch.backendEffect)
  }

  ghost predicate DeleteEnds(
    cfg: Config, s: Service, k: string, ch: Choice, route: Option<string>, answer: CacheService.Answer, t: Service)
  {
    && t == s.(tasks := s.tasks + [Done(answer)], cells := t.cells)
    && exists cells :: (LocalAsked(cfg, s.cells, cells, k, ch)
                        && BackendAsked(cells, t.cells, k, ch, route, answer))
  }

  /** A Delete started in s and, left alone, ended in t with this answer. */
  ghost predicate DeleteEnded(
    cfg: Config, s: Service, k: string, hint: string, ch: Choice, acts: seq<Action>,
    answer: CacheService.Answer, t: Service)
  {
    var t0 := Step(cfg, s, Issue(DeleteRequest(k, hint)));
    && Follows(acts, |s.tasks|, ch) && t == RunFrom(cfg, t0, acts)
    && |s.tasks| < |t.tasks| && t.tasks[|s.tasks|] == Done(answer)
  }

  // ----- Every run ends so -----

  /** How far the Delete has come. */
  ghost predicate Progress(
    cfg: Config, s: Service, t: Service, k: string, hint: string, ch: Choice, route: Option<string>)
  {
    var i := |s.tasks|;
    && |t.tasks| == i + 1 && t == s.(tasks := s.tasks + [t.tasks[i]], cells := t.cells)
    && (match t.tasks[i]
        case DelLocal(k', h) => k' == k && h == hint && cfg.hasLocal && t.cells == s.cells
        case DelRoute(k', h) => k' == k && h == hint && LocalAsked(cfg, s.cells, t.cells, k, ch)
        case DelStore(k', b) =>
          k' == k && LocalAsked(cfg, s.cells, t.cells, k, ch) && route == Some(b) && CanWrite(s.view, k, hint, route)
        case Done(answer) => DeleteEnds(cfg, s, k, ch, route, answer, t) && CanWrite(s.view, k, hint, route)
        case _ => false)
  }

  lemma RemoveDeletes(cells: Cells, b: string, k: string, ok: bool, effect: Effect)
    ensures DeletedFrom(cells, Remove(cells, b, k, ok, effect), b, k, ok, effect)
  {}

  lemma StoresSay(c: Choice, ch: Choice)
    requires FromStores(c, ch)
    ensures c.localOk == ch.localOk && c.localEffect == ch.localEffect
    ensures c.backendOk == ch.backendOk && c.backendEffect == ch.backendEffect && c.error == ch.error
  {
    var x, y := c.(route := None, order := []), ch.(route := None, order := []);
    assert x.localOk == y.localOk && x.localEffect == y.localEffect;
    assert x.backendOk == y.backendOk && x.backendEffect == y.backendEffect && x.error == y.error;
  }

  /** One step of the Delete, and the route it goes by. */
  lemma OneProgress(
    cfg: Config, s: Service, t: Service, k: string, hint: string, ch: Choice, route0: Option<string>, c: Choice)
    returns (route: Option<string>)
    requires Progress(cfg, s, t, k, hint, ch, route0) && FromStores(c, ch)
    ensures Progress(cfg, s, Step(cfg, t, Advance(|s.tasks|, c)), k, hint, ch, route)
    ensures var task := t.tasks[|s.tasks|];
      route == if task.DelRoute? && CanWrite(s.view, k, hint, c.route) then c.route else route0
  {
    hide CanWrite, CanRead, WB.Step, WB.Enabled, DeletedFrom, Remove;
    StoresSay(c, ch);
    var i := |s.tasks|;
    var task := t.tasks[i];
    route := if task.DelRoute? && CanWrite(s.view, k, hint, c.route) then c.route else route0;
    var u := Step(cfg, t, Advance(i, c));
    assert u.tasks == s.tasks + [u.tasks[i]];
    if task.DelLocal? {
      RemoveDeletes(t.cells, cfg.localId, k, c.localOk, c.localEffect);
    } else if task.DelRoute? && CanWrite(s.view, k, hint, c.route) && c.route == None {
      assert BackendAsked(t.cells, u.cells, k, ch, None, Refused(BackendUnhealthy));
    } else if task.DelStore? {
      RemoveDeletes(t.cells, task.backend, k, c.backendOk, c.backendEffect);
      assert BackendAsked(t.cells, u.cells, k, ch, route, u.tasks[i].answer);
    }
  }

  lemma {:induction false} RunProgress(
    cfg: Config, s: Service, t0: Service, k: string, hint: string, ch: Choice, acts: seq<Action>)
    returns (route: Option<string>)
    requires Progress(cfg, s, t0, k, hint, ch, None) && Follows(acts, |s.tasks|, ch)
    ensures Progress(cfg, s, RunFrom(cfg, t0, acts), k, hint, ch, route)
  {
    route := None;
    if acts != [] {
      hide Step, Progress, FromStores;
      var before := acts[..|acts| - 1];
      route := RunProgress(cfg, s, t0, k, hint, ch, before);
      route := OneProgress(cfg, s, RunFrom(cfg, t0, before), k, hint, ch, route, acts[|acts| - 1].choice);
    }
  }

  lemma Starts(cfg: Config, s: Service, k: string, hint: string, ch: Choice, route: Option<string>)
    ensures Progress(cfg, s, Step(cfg, s, Issue(DeleteRequest(k, hint))), k, hint, ch, route)
  {
    hide CanWrite;
    assert (s.tasks + [Start(cfg, DeleteRequest(k, hint))])[|s.tasks|] == Start(cfg, DeleteRequest(k, hint));
  }

  /** Every Delete that is left alone and ends, ends at the backend that the router may name. */
  lemma DeleteOutcome(
    cfg: Config, s: Service, k: string, hint: string, ch: Choice, acts: seq<Action>,
    answer: CacheService.Answer, t: Service)
    returns (route: Option<string>)
    requires DeleteEnded(cfg, s, k, hint, ch, acts, answer, t)
    ensures CanWrite(s.view, k, hint, route)
    ensures DeleteEnds(cfg, s, k, ch, route, answer, t)
  {
    hide Step, RunFrom, CanWrite, Follows, DeleteEnds;
    Starts(cfg, s, k, hint, ch, None);
    route := RunProgress(cfg, s, Step(cfg, s, Issue(DeleteRequest(k, hint))), k, hint, ch, acts);
  }

  // ----- And every such end comes about -----

  function StepsLeft(t: Task): nat {
    match t
    case DelLocal(_, _) => 3
    case DelRoute(_, _) => 2
    case DelStore(_, _) => 1
    case _ => 0
  }

  lemma MovesOn(
    cfg: Config, s: Service, t: Service, k: string, hint: string, ch: Choice, route: Option<string>, c: Choice)
    requires Progress(cfg, s, t, k, hint, ch, route) && CanWrite(s.view, k, hint, c.route)
    ensures var i, u := |s.tasks|, Step(cfg, t, Advance(|s.tasks|, c));
      && i < |t.tasks| && i < |u.tasks|
      && (t.tasks[i].Done? || StepsLeft(u.tasks[i]) < StepsLeft(t.tasks[i]))
  {
    hide CanWrite, CanRead, WB.Step, WB.Enabled;
  }

  lemma {:induction false} Finishes(
    cfg: Config, s: Service, t: Service, k: string, hint: string, ch: Choice, route: Option<string>)
    returns (acts: seq<Action>, answer: CacheService.Answer)
    requires Progress(cfg, s, t, k, hint, ch, route) && CanWrite(s.view, k, hint, route)
    ensures Follows(acts, |s.tasks|, ch)
    ensures var u := RunFrom(cfg, t, acts);
      |s.tasks| < |u.tasks| && u.tasks[|s.tasks|] == Done(answer) && DeleteEnds(cfg, s, k, ch, route, answer, u)
    decreases if |s.tasks| < |t.tasks| then StepsLeft(t.tasks[|s.tasks|]) else 0
  {
    var i := |s.tasks|;
    var c := ch.(route := route);
    MovesOn(cfg, s, t, k, hint, ch, route, c);
    if t.tasks[i].Done? {
      NoSteps(cfg, t);
      return [], t.tasks[i].answer;
    }
    SameStores(ch, route, ch.order);
    FollowsOne(i, c, ch);
    hide Step, Progress, CanWrite, FromStores, RunFrom, Follows, DeleteEnds;
    var same := OneProgress(cfg, s, t, k, hint, ch, route, c);
    var more;
    more, answer := Finishes(cfg, s, Step(cfg, t, Advance(i, c)), k, hint, ch, route);
    acts := [Advance(i, c)] + more;
    OneStep(cfg, t, Advance(i, c));
    RunAppend(cfg, t, [Advance(i, c)], more);
    FollowsConcat([Advance(i, c)], more, i, ch);
  }

  /** A Delete can end at any backend that the router may name. */
  lemma DeleteHappens(cfg: Config, s: Service, k: string, hint: string, ch: Choice, route: Option<string>)
    returns (acts: seq<Action>, answer: CacheService.Answer, t: Service)
    requires CanWrite(s.view, k, hint, route)
    ensures DeleteEnded(cfg, s, k, hint, ch, acts, answer, t)
    ensures DeleteEnds(cfg, s, k, ch, route, answer, t)
  {
    hide Step, RunFrom, CanWrite, Follows, DeleteEnds, Progress;
    var t0 := Step(cfg, s, Issue(DeleteRequest(k, hint)));
    Starts(cfg, s, k, hint, ch, route);
    acts, answer := Finishes(cfg, s, t0, k, hint, ch, route);
    t := RunFrom(cfg, t0, acts);
  }

  // ----- Completed, and gone -----

  /** A Delete that is left alone completes exactly when something is healthy and its backend answers, and fails
      with the backend's own error otherwise. */
  lemma CompletesIff(
    cfg: Config, s: Service, k: string, hint: string, ch: Choice, acts: seq<Action>,
    answer: CacheService.Answer, t: Service)
    requires DeleteEnded(cfg, s, k, hint, ch, acts, answer, t)
    ensures answer == if s.view.healthy == map[] then Refused(BackendUnhealthy)
                      else if ch.backendOk then Completed else Refused(ch.error)
  {
    hide DeleteEnded, DeletedFrom;
    var route := DeleteOutcome(cfg, s, k, hint, ch, acts, answer, t);
    ResolvedIsHealthy(s.view, k, hint);
  }
}
