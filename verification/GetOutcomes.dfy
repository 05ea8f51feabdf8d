/**
 What a Get answers and leaves behind when it is left alone, for any answers of the stores, said of the state in
 which it starts.
 */
module GetOutcomes {
  import opened Storage
  import opened Routing
  import opened CacheService
  import opened StateReads
  import opened OneGoroutine
  import WB = WriteBehind

  // ----- The outcome, from the starting state -----

  /** The backend answers the Get and has the key. */
  predicate Has(s: Service, k: string, b: string, answers: string -> Choice) {
    answers(b).backendOk && (b, k) in s.cells
  }

  /** The backend fails, and not by saying that the key is unknown. */
  predicate Fails(b: string, answers: string -> Choice) {
    !answers(b).backendOk && answers(b).error != KeyNotFound
  }

  /** With versioning on, a version that was named must be the one reported. */
  function Judged(cfg: Config, g: GetOptions, e: Entry): CacheService.Answer {
    if cfg.enableVersioning && g.version > 0 && e.version != g.version then Refused(VersionMismatch) else Found(e)
  }

  predicate ServedLocally(cfg: Config, s: Service, k: string, g: GetOptions, ch: Choice) {
    cfg.hasLocal && !g.skipCache && ch.localOk && (cfg.localId, k) in s.cells
  }

  /** The local entry is the answer, and nothing else happens. */
  ghost predicate EndsLocally(
    cfg: Config, s: Service, k: string, g: GetOptions, ch: Choice, answer: CacheService.Answer, t: Service)
  {
    && ServedLocally(cfg, s, k, g, ch)
    && answer == Judged(cfg, g, Entry(k, s.cells[(cfg.localId, k)], ch.version, 0))
    && t == s.(tasks := s.tasks + [Done(answer)])
  }

  /** The first backend of the route that has the key serves it. */
  predicate ServedAt(s: Service, k: string, route: seq<string>, answers: string -> Choice, j: nat) {
    j < |route| && Has(s, k, route[j], answers) && forall m | 0 <= m < j :: !Has(s, k, route[m], answers)
  }

  /** A hit fills the local cache again, unless it was refused, passed by, or is too large. */
  ghost predicate EndsAt(
    cfg: Config, s: Service, k: string, g: GetOptions, b: string, version: nat, answer: CacheService.Answer,
    t: Service)
    requires (b, k) in s.cells
  {
    var e := Entry(k, s.cells[(b, k)], version, 0);
    var limit := if cfg.maxValueSize == 0 then 1048576 else cfg.maxValueSize;
    var fills := answer.Found? && cfg.hasLocal && !g.skipCache && |e.value| <= limit;
    && answer == Judged(cfg, g, e)
    && t == s.(tasks := s.tasks + [Done(answer)] + (if fills then [Backfill(e)] else []),
               taken := s.taken + {(k, e.value)})
  }

  predicate LastFailsAt(route: seq<string>, answers: string -> Choice, j: nat) {
    j < |route| && Fails(route[j], answers) && forall m | j < m < |route| :: !Fails(route[m], answers)
  }

  /** The error of a fruitless route: the last failure on it, or that the key is unknown. */
  predicate FruitlessError(route: seq<string>, answers: string -> Choice, error: Error) {
    || (error == KeyNotFound && forall m | 0 <= m < |route| :: !Fails(route[m], answers))
    || exists j: nat | j < |route| :: LastFailsAt(route, answers, j) && answers(route[j]).error == error
  }

  ghost predicate EndsFruitless(
    cfg: Config, s: Service, k: string, route: seq<string>, answers: string -> Choice,
    answer: CacheService.Answer, t: Service)
  {
    && (forall m | 0 <= m < |route| :: !Has(s, k, route[m], answers))
    && answer.Refused?
    && (if route == [] then answer.error == BackendUnhealthy else FruitlessError(route, answers, answer.error))
    && t == s.(tasks := s.tasks + [Done(answer)])
  }

  ghost predicate EndsAlong(
    cfg: Config, s: Service, k: string, g: GetOptions, route: seq<string>, answers: string -> Choice,
    answer: CacheService.Answer, t: Service)
  {
    || (exists j: nat | j < |route| ::
          && ServedAt(s, k, route, answers, j)
          && EndsAt(cfg, s, k, g, route[j], answers(route[j]).version, answer, t))
    || EndsFruitless(cfg, s, k, route, answers, answer, t)
  }

  /** A Get of k started in s and, left alone, ended in t with this answer. */
  ghost predicate GetEnded(
    cfg: Config, s: Service, k: string, g: GetOptions, ch: Choice, answers: string -> Choice,
    acts: seq<Action>, answer: CacheService.Answer, t: Service)
  {
    var t0 := Step(cfg, s, Issue(GetRequest(k, g)));
    && Reads(cfg, t0, acts, |s.tasks|, ch, answers) && t == RunFrom(cfg, t0, acts)
    && |s.tasks| < |t.tasks| && t.tasks[|s.tasks|] == Done(answer)
  }

  // ----- Every run ends so -----

  /** The last failure on a route. */
  function LastErr(route: seq<string>, answers: string -> Choice): Option<Error> {
    if route == [] then None
    else
      var b := route[|route| - 1];
      if Fails(b, answers) then Some(answers(b).error) else LastErr(route[..|route| - 1], answers)
  }

  lemma {:induction false} LastErrIsLast(route: seq<string>, answers: string -> Choice) returns (j: nat)
    ensures match LastErr(route, answers)
      case None => forall m | 0 <= m < |route| :: !Fails(route[m], answers)
      case Some(error) => LastFailsAt(route, answers, j) && answers(route[j]).error == error
  {
    hide Fails;
    j := 0;
    if route != [] {
      var init, b := route[..|route| - 1], route[|route| - 1];
      if Fails(b, answers) {
        j := |route| - 1;
      } else {
        j := LastErrIsLast(init, answers);
        assert forall m | 0 <= m < |init| :: route[m] == init[m];
      }
    }
  }

  /** How far the Get has come; once it has a route, it has passed the first j backends of it. */
  ghost predicate Progress(
    cfg: Config, s: Service, t: Service, k: string, g: GetOptions, ch: Choice, answers: string -> Choice,
    route: seq<string>, j: nat)
  {
    var i := |s.tasks|;
    && i < |t.tasks| && (!t.tasks[i].Done? ==> t == s.(tasks := t.tasks))
    && (match t.tasks[i]
        case GetLocal(k', g') =>
          k' == k && g' == g && cfg.hasLocal && !g.skipCache && t.tasks == s.tasks + [t.tasks[i]]
        case GetRoute(k', g') =>
          k' == k && g' == g && t.tasks == s.tasks + [t.tasks[i]] && !ServedLocally(cfg, s, k, g, ch)
        case GetStore(k', g', rest, lastErr) =>
          && k' == k && g' == g && t.tasks == s.tasks + [t.tasks[i]] && !ServedLocally(cfg, s, k, g, ch)
          && CanRead(s.view, k, g.hint, route) && route != []
          && j <= |route| && rest == route[j..] && lastErr == LastErr(route[..j], answers)
          && forall m | 0 <= m < j :: !Has(s, k, route[m], answers)
        case Done(answer) =>
          || EndsLocally(cfg, s, k, g, ch, answer, t)
          || (&& !ServedLocally(cfg, s, k, g, ch) && CanRead(s.view, k, g.hint, route)
              && EndsAlong(cfg, s, k, g, route, answers, answer, t))
        case _ => false)
  }

  lemma LocalProgress(
    cfg: Config, s: Service, t: Service, k: string, g: GetOptions, ch: Choice, answers: string -> Choice,
    route: seq<string>, j: nat, c: Choice)
    requires Progress(cfg, s, t, k, g, ch, answers, route, j) && t.tasks[|s.tasks|].GetLocal?
    requires FromStores(c, ch)
    ensures Progress(cfg, s, Step(cfg, t, Advance(|s.tasks|, c)), k, g, ch, answers, route, j)
  {
    hide CanWrite, CanRead, WB.Step, WB.Enabled;
    assert c.localOk == c.(route := None, order := []).localOk && c.version == c.(route := None, order := []).version;
    assert s.tasks[..] + [t.tasks[|s.tasks|]] == t.tasks;
  }

  lemma RouteProgress(
    cfg: Config, s: Service, t: Service, k: string, g: GetOptions, ch: Choice, answers: string -> Choice,
    route: seq<string>, j: nat, c: Choice)
    requires Progress(cfg, s, t, k, g, ch, answers, route, j) && t.tasks[|s.tasks|].GetRoute?
    ensures var u := Step(cfg, t, Advance(|s.tasks|, c));
      if CanRead(s.view, k, g.hint, c.order) then Progress(cfg, s, u, k, g, ch, answers, c.order, 0) else u == t
  {
    hide CanWrite, CanRead, WB.Step, WB.Enabled;
    assert s.tasks[..] + [t.tasks[|s.tasks|]] == t.tasks;
    if CanRead(s.view, k, g.hint, c.order) {
      assert c.order[..0] == [] && c.order[0..] == c.order;
    }
  }

  /** The step past backend j of the route, or the end of the route. */
  lemma StoreProgress(
    cfg: Config, s: Service, t: Service, k: string, g: GetOptions, ch: Choice, answers: string -> Choice,
    route: seq<string>, j: nat, c: Choice)
    requires Progress(cfg, s, t, k, g, ch, answers, route, j) && t.tasks[|s.tasks|].GetStore?
    requires j < |route| ==> c == answers(route[j])
    ensures Progress(cfg, s, Step(cfg, t, Advance(|s.tasks|, c)), k, g, ch, answers, route,
                     if j < |route| then j + 1 else j)
  {
    hide CanWrite, CanRead, WB.Step, WB.Enabled;
    var i := |s.tasks|;
    assert s.tasks[..] + [t.tasks[i]] == t.tasks;
    if j < |route| {
      assert route[j..][0] == route[j] && route[j..][1..] == route[j + 1..];
      assert route[..j + 1][..j] == route[..j];
      if Has(s, k, route[j], answers) {
        assert ServedAt(s, k, route, answers, j);
        StoreServes(cfg, s, t, k, g, route, j, c);
      }
    } else {
      var last := LastErrIsLast(route, answers);
      assert route[..j] == route;
    }
  }

  lemma StoreServes(
    cfg: Config, s: Service, t: Service, k: string, g: GetOptions, route: seq<string>, j: nat, c: Choice)
    requires j < |route| && (route[j], k) in s.cells && c.backendOk
    requires t == s.(tasks := t.tasks) && |t.tasks| == |s.tasks| + 1
    requires t.tasks == s.tasks + [t.tasks[|s.tasks|]]
    requires t.tasks[|s.tasks|].GetStore? && t.tasks[|s.tasks|].k == k && t.tasks[|s.tasks|].g == g
    requires t.tasks[|s.tasks|].rest == route[j..]
    ensures var u := Step(cfg, t, Advance(|s.tasks|, c));
      && |s.tasks| < |u.tasks| && u.tasks[|s.tasks|].Done?
      && EndsAt(cfg, s, k, g, route[j], c.version, u.tasks[|s.tasks|].answer, u)
  {
    hide CanWrite, CanRead, WB.Step, WB.Enabled;
    assert route[j..][0] == route[j];
    var i := |s.tasks|;
    var e := Entry(k, s.cells[(route[j], k)], c.version, 0);
    assert t.tasks[i := Done(Judged(cfg, g, e))] == s.tasks + [Done(Judged(cfg, g, e))];
  }

  lemma DoneProgress(cfg: Config, t: Service, i: nat, c: Choice)
    requires i < |t.tasks| && t.tasks[i].Done?
    ensures Step(cfg, t, Advance(i, c)) == t
  {
    assert t.tasks[i := t.tasks[i]] + [] == t.tasks;
  }

  /** From any point of the Get; a route once given stays. */
  lemma {:induction false} RunProgress(
    cfg: Config, s: Service, t0: Service, k: string, g: GetOptions, ch: Choice, answers: string -> Choice,
    acts: seq<Action>, route0: seq<string>, j0: nat)
    returns (route: seq<string>, j: nat)
    requires Progress(cfg, s, t0, k, g, ch, answers, route0, j0) && Reads(cfg, t0, acts, |s.tasks|, ch, answers)
    ensures Progress(cfg, s, RunFrom(cfg, t0, acts), k, g, ch, answers, route, j)
    ensures t0.tasks[|s.tasks|].GetStore? ==> route == route0
    ensures var t := RunFrom(cfg, t0, acts);
      t0.tasks[|s.tasks|].GetStore? ==> t.tasks[|s.tasks|].GetStore? || t.tasks[|s.tasks|].Done?
  {
    if acts == [] {
      return route0, j0;
    }
    hide Step, Progress, CanRead;
    var before, n := acts[..|acts| - 1], |acts| - 1;
    ReadsPrefix(cfg, t0, acts, |s.tasks|, ch, answers);
    route, j := RunProgress(cfg, s, t0, k, g, ch, answers, before, route0, j0);
    var t := RunFrom(cfg, t0, before);
    assert ReadsAt(cfg, t0, acts, n, |s.tasks|, ch, answers);
    var c := acts[n].choice;
    StageOf(cfg, s, t, k, g, ch, answers, route, j);
    match t.tasks[|s.tasks|]
    case GetLocal(_, _) => LocalProgress(cfg, s, t, k, g, ch, answers, route, j, c);
    case GetRoute(_, _) =>
      RouteProgress(cfg, s, t, k, g, ch, answers, route, j, c);
      if CanRead(s.view, k, g.hint, c.order) {
        route, j := c.order, 0;
      }
    case GetStore(_, _, _, _) =>
      StoreProgress(cfg, s, t, k, g, ch, answers, route, j, c);
      StoreStays(cfg, t, |s.tasks|, c);
      j := if j < |route| then j + 1 else j;
    case Done(_) => DoneProgress(cfg, t, |s.tasks|, c);
  }

  lemma StoreStays(cfg: Config, t: Service, i: nat, c: Choice)
    requires i < |t.tasks| && t.tasks[i].GetStore?
    ensures var u := Step(cfg, t, Advance(i, c)); i < |u.tasks| && (u.tasks[i].GetStore? || u.tasks[i].Done?)
  {
    hide CanWrite, CanRead, WB.Step;
  }

  /** The stage the Get is in, and that a route in use is not used up unless its rest is empty. */
  lemma StageOf(
    cfg: Config, s: Service, t: Service, k: string, g: GetOptions, ch: Choice, answers: string -> Choice,
    route: seq<string>, j: nat)
    requires Progress(cfg, s, t, k, g, ch, answers, route, j)
    ensures var i := |s.tasks|; i < |t.tasks| && (t.tasks[i].GetLocal? || t.tasks[i].GetRoute?
                                                 || t.tasks[i].GetStore? || t.tasks[i].Done?)
    ensures var task := t.tasks[|s.tasks|];
      task.GetStore? ==>
        && j <= |route| && (task.rest == [] <==> j == |route|)
        && (j < |route| ==> task.rest[0] == route[j])
  {}

  lemma ReadsPrefix(cfg: Config, s: Service, acts: seq<Action>, i: nat, ch: Choice, answers: string -> Choice)
    requires acts != [] && Reads(cfg, s, acts, i, ch, answers)
    ensures Reads(cfg, s, acts[..|acts| - 1], i, ch, answers)
  {
    hide RunFrom, AnswersRead;
    var before, last := acts[..|acts| - 1], acts[|acts| - 1];
    assert before + [last] == acts;
    forall n | 0 <= n < |before| ensures ReadsAt(cfg, s, before, n, i, ch, answers) {
      assert ReadsAt(cfg, s, acts, n, i, ch, answers);
      ReadsAtConcat(cfg, s, before, [last], n, i, ch, answers);
    }
  }

  /** Where a Get starts. */
  lemma Starts(cfg: Config, s: Service, k: string, g: GetOptions, ch: Choice, answers: string -> Choice)
    ensures Progress(cfg, s, Step(cfg, s, Issue(GetRequest(k, g))), k, g, ch, answers, [], 0)
  {
    hide CanRead;
    assert (s.tasks + [Start(cfg, GetRequest(k, g))])[|s.tasks|] == Start(cfg, GetRequest(k, g));
  }

  /** Every Get that is left alone and ends, ends in one of two ways: at the local cache, or along one of the
      read routes its key may be given. */
  lemma GetOutcome(
    cfg: Config, s: Service, k: string, g: GetOptions, ch: Choice, answers: string -> Choice,
    acts: seq<Action>, answer: CacheService.Answer, t: Service)
    requires GetEnded(cfg, s, k, g, ch, answers, acts, answer, t)
    ensures || EndsLocally(cfg, s, k, g, ch, answer, t)
            || (&& !ServedLocally(cfg, s, k, g, ch)
                && exists route :: CanRead(s.view, k, g.hint, route)
                                   && EndsAlong(cfg, s, k, g, route, answers, answer, t))
  {
    hide Step, RunFrom, CanRead, Reads, EndsAlong;
    var t0 := Step(cfg, s, Issue(GetRequest(k, g)));
    Starts(cfg, s, k, g, ch, answers);
    var route, j := RunProgress(cfg, s, t0, k, g, ch, answers, acts, [], 0);
  }

  // ----- And every such end comes about -----

  lemma {:induction false} Walks(cfg: Config, t: Service, i: nat, ch: Choice, answers: string -> Choice)
    returns (acts: seq<Action>, answer: CacheService.Answer)
    requires i < |t.tasks| && t.tasks[i].GetStore?
    ensures Reads(cfg, t, acts, i, ch, answers)
    ensures var u := RunFrom(cfg, t, acts); i < |u.tasks| && u.tasks[i] == Done(answer)
    decreases |t.tasks[i].rest|
  {
    var c := if t.tasks[i].rest == [] then ch else answers(t.tasks[i].rest[0]);
    var u := Step(cfg, t, Advance(i, c));
    StoreShrinks(cfg, t, i, c);
    ReadsOne(cfg, t, i, c, ch, answers);
    hide Step, Reads, RunFrom;
    OneStep(cfg, t, Advance(i, c));
    if u.tasks[i].Done? {
      return [Advance(i, c)], u.tasks[i].answer;
    }
    var more;
    more, answer := Walks(cfg, u, i, ch, answers);
    acts := [Advance(i, c)] + more;
    RunAppend(cfg, t, [Advance(i, c)], more);
    ReadsConcat(cfg, t, [Advance(i, c)], more, i, ch, answers);
  }

  lemma StoreShrinks(cfg: Config, t: Service, i: nat, c: Choice)
    requires i < |t.tasks| && t.tasks[i].GetStore?
    ensures var u := Step(cfg, t, Advance(i, c));
      && i < |u.tasks|
      && (u.tasks[i].Done? || (u.tasks[i].GetStore? && |u.tasks[i].rest| < |t.tasks[i].rest|))
  {
    hide CanWrite, CanRead, WB.Step;
  }

  /** A Get that the local cache serves can end, and does so there. */
  lemma GetHappensLocally(cfg: Config, s: Service, k: string, g: GetOptions, ch: Choice, answers: string -> Choice)
    returns (acts: seq<Action>, answer: CacheService.Answer, t: Service)
    requires ServedLocally(cfg, s, k, g, ch)
    ensures GetEnded(cfg, s, k, g, ch, answers, acts, answer, t)
    ensures EndsLocally(cfg, s, k, g, ch, answer, t)
  {
    hide CanWrite, CanRead, WB.Step;
    var i := |s.tasks|;
    var t0 := Step(cfg, s, Issue(GetRequest(k, g)));
    assert t0.tasks[i] == GetLocal(k, g);
    t := Step(cfg, t0, Advance(i, ch));
    acts := [Advance(i, ch)];
    ReadsOne(cfg, t0, i, ch, ch, answers);
    OneStep(cfg, t0, acts[0]);
    answer := t.tasks[i].answer;
    Starts(cfg, s, k, g, ch, answers);
    LocalProgress(cfg, s, t0, k, g, ch, answers, [], 0, ch);
  }

  /** A Get that the local cache does not serve can end along any of its read routes. */
  lemma GetHappensAlong(
    cfg: Config, s: Service, k: string, g: GetOptions, ch: Choice, answers: string -> Choice, route: seq<string>)
    returns (acts: seq<Action>, answer: CacheService.Answer, t: Service)
    requires !ServedLocally(cfg, s, k, g, ch) && CanRead(s.view, k, g.hint, route)
    ensures GetEnded(cfg, s, k, g, ch, answers, acts, answer, t)
    ensures EndsAlong(cfg, s, k, g, route, answers, answer, t)
  {
    var i := |s.tasks|;
    var t0 := Step(cfg, s, Issue(GetRequest(k, g)));
    Starts(cfg, s, k, g, ch, answers);
    var look, t1 := Looks(cfg, s, k, g, ch, answers);
    hide CanWrite, CanRead, Step, RunFrom, Reads, EndsAlong, EndsLocally, ServedLocally;
    var ask := Advance(i, ch.(order := route));
    RouteProgress(cfg, s, t1, k, g, ch, answers, [], 0, ask.choice);
    SameStores(ch, ch.route, route);
    ReadsNext(cfg, t0, look, i, ask.choice, ch, answers);
    acts := look + [ask];
    t := Step(cfg, t1, ask);
    RouteGiven(cfg, t1, i, ask.choice);
    if t.tasks[i].GetStore? {
      var more;
      more, answer := Walks(cfg, t, i, ch, answers);
      RunAppend(cfg, t0, acts, more);
      ReadsConcat(cfg, t0, acts, more, i, ch, answers);
      var r, j := RunProgress(cfg, s, t, k, g, ch, answers, more, route, 0);
      acts := acts + more;
      t := RunFrom(cfg, t0, acts);
      NotLocal(cfg, s, k, g, ch, answer, t);
    } else {
      answer := t.tasks[i].answer;
      NotLocal(cfg, s, k, g, ch, answer, t);
    }
  }

  lemma NotLocal(
    cfg: Config, s: Service, k: string, g: GetOptions, ch: Choice, answer: CacheService.Answer, t: Service)
    requires !ServedLocally(cfg, s, k, g, ch)
    ensures !EndsLocally(cfg, s, k, g, ch, answer, t)
  {}

  lemma RouteGiven(cfg: Config, t: Service, i: nat, c: Choice)
    requires i < |t.tasks| && t.tasks[i].GetRoute? && CanRead(t.view, t.tasks[i].k, t.tasks[i].g.hint, c.order)
    ensures var u := Step(cfg, t, Advance(i, c)); i < |u.tasks| && (u.tasks[i].GetStore? || u.tasks[i].Done?)
  {
    hide CanWrite, CanRead, WB.Step;
  }

  /** The look into the local cache, if there is one, in vain. */
  lemma Looks(cfg: Config, s: Service, k: string, g: GetOptions, ch: Choice, answers: string -> Choice)
    returns (acts: seq<Action>, t: Service)
    requires !ServedLocally(cfg, s, k, g, ch)
    ensures var t0 := Step(cfg, s, Issue(GetRequest(k, g)));
      Reads(cfg, t0, acts, |s.tasks|, ch, answers) && t == RunFrom(cfg, t0, acts)
    ensures |s.tasks| < |t.tasks| && t.tasks[|s.tasks|] == GetRoute(k, g)
    ensures Progress(cfg, s, t, k, g, ch, answers, [], 0)
  {
    hide CanWrite, CanRead, WB.Step;
    var i := |s.tasks|;
    var t0 := Step(cfg, s, Issue(GetRequest(k, g)));
    Starts(cfg, s, k, g, ch, answers);
    if cfg.hasLocal && !g.skipCache {
      assert t0.tasks[i] == GetLocal(k, g);
      acts := [Advance(i, ch)];
      ReadsOne(cfg, t0, i, ch, ch, answers);
      OneStep(cfg, t0, acts[0]);
      t := Step(cfg, t0, acts[0]);
      LocalProgress(cfg, s, t0, k, g, ch, answers, [], 0, ch);
    } else {
      acts, t := [], t0;
    }
  }

  // ----- When a value is answered, and when a version is refused -----

  /** No version was named, or versions are off, or it is this one. */
  predicate Fits(cfg: Config, g: GetOptions, version: nat) {
    !cfg.enableVersioning || g.version == 0 || version == g.version
  }

  ghost predicate AlwaysAnswers(
    cfg: Config, s: Service, k: string, g: GetOptions, ch: Choice, answers: string -> Choice, v: Bytes)
  {
    forall acts, answer, t | GetEnded(cfg, s, k, g, ch, answers, acts, answer, t) ::
      answer.Found? && answer.entry.value == v
  }

  /** The store that the Get ends at holds v and reports a version that fits: the local cache if it serves the
      Get, and otherwise the first backend that does, on every read route. */
  ghost predicate WillRead(
    cfg: Config, s: Service, k: string, g: GetOptions, ch: Choice, answers: string -> Choice, v: Bytes)
  {
    if ServedLocally(cfg, s, k, g, ch) then s.cells[(cfg.localId, k)] == v && Fits(cfg, g, ch.version)
    else forall route | CanRead(s.view, k, g.hint, route) :: ComesTo(cfg, s, k, g, route, answers, v)
  }

  /** The first backend of the route that serves the Get holds v and reports a version that fits. */
  predicate ComesTo(
    cfg: Config, s: Service, k: string, g: GetOptions, route: seq<string>, answers: string -> Choice, v: Bytes)
  {
    exists j: nat | j < |route| ::
      && ServedAt(s, k, route, answers, j)
      && s.cells[(route[j], k)] == v && Fits(cfg, g, answers(route[j]).version)
  }

  lemma ServedOnce(s: Service, k: string, route: seq<string>, answers: string -> Choice, i: nat, j: nat)
    requires ServedAt(s, k, route, answers, i) && ServedAt(s, k, route, answers, j)
    ensures i == j
  {}

  lemma AlongReads(
    cfg: Config, s: Service, k: string, g: GetOptions, route: seq<string>, answers: string -> Choice,
    answer: CacheService.Answer, t: Service, v: Bytes)
    requires EndsAlong(cfg, s, k, g, route, answers, answer, t)
    ensures answer.Found? && answer.entry.value == v
       <==> ComesTo(cfg, s, k, g, route, answers, v)
  {
    forall i: nat, j: nat | ServedAt(s, k, route, answers, i) && ServedAt(s, k, route, answers, j) ensures i == j {
      ServedOnce(s, k, route, answers, i, j);
    }
  }

  /** In any state, in the middle of anything, whatever the stores do: a Get that is left alone always answers v
      exactly when the store it ends at holds v and reports a version that fits. */
  lemma ReadsIff(
    cfg: Config, s: Service, k: string, g: GetOptions, ch: Choice, answers: string -> Choice, v: Bytes)
    ensures AlwaysAnswers(cfg, s, k, g, ch, answers, v) <==> WillRead(cfg, s, k, g, ch, answers, v)
  {
    hide GetEnded, CanRead, EndsAlong, ComesTo;
    if WillRead(cfg, s, k, g, ch, answers, v) {
      forall acts, answer, t | GetEnded(cfg, s, k, g, ch, answers, acts, answer, t)
        ensures answer.Found? && answer.entry.value == v
      {
        GetOutcome(cfg, s, k, g, ch, answers, acts, answer, t);
        if !ServedLocally(cfg, s, k, g, ch) {
          var route :| CanRead(s.view, k, g.hint, route) && EndsAlong(cfg, s, k, g, route, answers, answer, t);
          AlongReads(cfg, s, k, g, route, answers, answer, t, v);
        }
      }
    } else if ServedLocally(cfg, s, k, g, ch) {
      var acts, answer, t := GetHappensLocally(cfg, s, k, g, ch, answers);
    } else {
      var route :| CanRead(s.view, k, g.hint, route) && !ComesTo(cfg, s, k, g, route, answers, v);
      var acts, answer, t := GetHappensAlong(cfg, s, k, g, ch, answers, route);
      AlongReads(cfg, s, k, g, route, answers, answer, t, v);
    }
  }

  /** The store that the Get may end at reports another version than the one named. */
  ghost predicate MeetsOtherVersion(
    cfg: Config, s: Service, k: string, g: GetOptions, ch: Choice, answers: string -> Choice)
  {
    if ServedLocally(cfg, s, k, g, ch) then ch.version != g.version
    else exists route, j: nat :: CanRead(s.view, k, g.hint, route) && ServedAt(s, k, route, answers, j)
                                 && answers(route[j]).version != g.version
  }

  /** A Get that is left alone can be answered VersionMismatch exactly when versioning is on, it names a version,
      and the store it may end at reports another one. */
  lemma MismatchIff(cfg: Config, s: Service, k: string, g: GetOptions, ch: Choice, answers: string -> Choice)
    requires forall b :: answers(b).error != VersionMismatch
    ensures (exists acts, t :: GetEnded(cfg, s, k, g, ch, answers, acts, Refused(VersionMismatch), t))
       <==> cfg.enableVersioning && g.version > 0 && MeetsOtherVersion(cfg, s, k, g, ch, answers)
  {
    hide GetEnded, CanRead;
    var refused: CacheService.Answer := Refused(VersionMismatch);
    if acts, t :| GetEnded(cfg, s, k, g, ch, answers, acts, refused, t) {
      GetOutcome(cfg, s, k, g, ch, answers, acts, refused, t);
    }
    if cfg.enableVersioning && g.version > 0 && MeetsOtherVersion(cfg, s, k, g, ch, answers) {
      if ServedLocally(cfg, s, k, g, ch) {
        var acts, answer, t := GetHappensLocally(cfg, s, k, g, ch, answers);
      } else {
        var route, j: nat :| CanRead(s.view, k, g.hint, route) && ServedAt(s, k, route, answers, j)
                             && answers(route[j]).version != g.version;
        var acts, answer, t := GetHappensAlong(cfg, s, k, g, ch, answers, route);
        var i: nat :| i < |route| && ServedAt(s, k, route, answers, i)
                      && EndsAt(cfg, s, k, g, route[i], answers(route[i]).version, answer, t);
        ServedOnce(s, k, route, answers, i, j);
      }
    }
  }
}
