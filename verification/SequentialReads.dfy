/** What a Get finds after a write-behind Set, after a Delete, and when it names a version. */
module SequentialReads {
  import opened Storage
  import opened Routing
  import opened CacheService
  import opened LocalContents
  import opened ReadYourWrites
  import opened StateReads
  import WB = WriteBehind

  // ----- Write-behind -----

  /** The local cache works and keeps the key: a Set it accepts is visible when it returns.  The worker
      runs on, and backends may fail or evict. */
  predicate LocalWorks(cfg: Config, k: string, a: Action) {
    match a
    case Advance(_, ch) => ch.localOk
    case Evict(b, k') => b != cfg.localId || k' != k
    case Worker(_) => true
    case _ => false
  }

  ghost predicate AllLocalWorks(cfg: Config, k: string, acts: seq<Action>) {
    forall i | 0 <= i < |acts| :: LocalWorks(cfg, k, acts[i])
  }

  predicate InLocal(cfg: Config, s: Service, e: Entry) {
    Holds(s, cfg.localId, e.key, e.value)
  }

  /** How far the write-behind Set at position i has come. */
  predicate Queueing(cfg: Config, s: Service, i: nat, e: Entry, o: SetOptions) {
    && i < |s.tasks| <= i + 2
    && (forall j | 0 <= j < i :: s.tasks[j].Done?)
    && (|s.tasks| == i + 2 ==>
          s.tasks[i].Done? && (s.tasks[i + 1].Done? || (s.tasks[i + 1].Backfill? && SameWrite(e, s.tasks[i + 1].e))))
    && (match s.tasks[i]
        case SetCheck(f, p) => SameWrite(e, f) && p == o
        case SetLocal(f, _, behind) => SameWrite(e, f) && behind
        case SetEnqueue(f, _) => SameWrite(e, f) && InLocal(cfg, s, e)
        case SetRoute(f, _, path) => SameWrite(e, f) && path.Through? && InLocal(cfg, s, e)
        case SetStore(f, b, path) => SameWrite(e, f) && path.Through? && b != cfg.localId && InLocal(cfg, s, e)
        case Done(Completed) => InLocal(cfg, s, e)
        case Done(Refused(_)) => true
        case _ => false)
  }

  lemma StepQueueing(cfg: Config, s: Service, a: Action, i: nat, e: Entry, o: SetOptions)
    requires Queueing(cfg, s, i, e, o) && LocalWorks(cfg, e.key, a) && cfg.hasLocal
    requires ModeOf(cfg, o).WriteBehind? && !RoutesLocally(cfg, s.view)
    ensures Queueing(cfg, Step(cfg, s, a), i, e, o)
  {
    hide CanWrite, CanRead, WB.Step, WB.Enabled;
    match a
    case Advance(j, ch) =>
      if j == i && s.tasks[i].SetRoute? && CanWrite(s.view, e.key, s.tasks[i].hint, ch.route) {
        assert ch.route != Some(cfg.localId);
      }
    case Worker(w) => WorkerKeepsLocal(cfg, s, w, e);
    case Evict(_, _) =>
  }

  lemma WorkerKeepsLocal(cfg: Config, s: Service, w: WB.Action, e: Entry)
    requires !RoutesLocally(cfg, s.view)
    ensures InLocal(cfg, s, e) ==> InLocal(cfg, Step(cfg, s, Worker(w)), e)
  {
    hide CanWrite, WB.Step;
    if WorkerMay(s, w) && w.Process? && WB.Enabled(s.pipe, w) && !w.outcome.NoBackend? {
      assert CanWrite(s.view, s.pipe.batch[0].entry.key, "", Some(w.outcome.backend));
    }
  }

  /** The Get at position i reads the local cache. */
  predicate ReadingLocal(cfg: Config, s: Service, i: nat, e: Entry, g: GetOptions) {
    && i < |s.tasks| && InLocal(cfg, s, e)
    && (forall j | 0 <= j < |s.tasks| && j != i :: s.tasks[j].Done?)
    && (match s.tasks[i]
        case GetLocal(k, g') => k == e.key && g' == g
        case Done(Found(f)) => f.key == e.key && f.value == e.value
        case _ => false)
  }

  lemma StepReadingLocal(cfg: Config, s: Service, a: Action, i: nat, e: Entry, g: GetOptions)
    requires ReadingLocal(cfg, s, i, e, g) && LocalWorks(cfg, e.key, a) && cfg.hasLocal
    requires g.version == 0 && !RoutesLocally(cfg, s.view)
    ensures ReadingLocal(cfg, Step(cfg, s, a), i, e, g)
  {
    hide CanWrite, CanRead, WB.Step, WB.Enabled;
    match a
    case Worker(w) => WorkerKeepsLocal(cfg, s, w, e);
    case _ =>
  }

  lemma StepKeepsView(cfg: Config, s: Service, a: Action)
    requires !a.Reroute?
    ensures Step(cfg, s, a).view == s.view
  {}

  lemma {:induction false} RunQueueing(
    cfg: Config, s: Service, acts: seq<Action>, i: nat, e: Entry, o: SetOptions)
    requires Queueing(cfg, s, i, e, o) && AllLocalWorks(cfg, e.key, acts) && cfg.hasLocal
    requires ModeOf(cfg, o).WriteBehind? && !RoutesLocally(cfg, s.view)
    ensures Queueing(cfg, RunFrom(cfg, s, acts), i, e, o) && RunFrom(cfg, s, acts).view == s.view
  {
    if acts == [] {
    } else {
      hide Step, Queueing, RoutesLocally;
      var before, last := acts[..|acts| - 1], acts[|acts| - 1];
      RunQueueing(cfg, s, before, i, e, o);
      assert LocalWorks(cfg, e.key, last);
      StepQueueing(cfg, RunFrom(cfg, s, before), last, i, e, o);
      StepKeepsView(cfg, RunFrom(cfg, s, before), last);
    }
  }

  lemma {:induction false} RunReadingLocal(
    cfg: Config, s: Service, acts: seq<Action>, i: nat, e: Entry, g: GetOptions)
    requires ReadingLocal(cfg, s, i, e, g) && AllLocalWorks(cfg, e.key, acts) && cfg.hasLocal
    requires g.version == 0 && !RoutesLocally(cfg, s.view)
    ensures ReadingLocal(cfg, RunFrom(cfg, s, acts), i, e, g) && RunFrom(cfg, s, acts).view == s.view
  {
    if acts == [] {
    } else {
      hide Step, ReadingLocal, RoutesLocally;
      var before, last := acts[..|acts| - 1], acts[|acts| - 1];
      RunReadingLocal(cfg, s, before, i, e, g);
      assert LocalWorks(cfg, e.key, last);
      StepReadingLocal(cfg, RunFrom(cfg, s, before), last, i, e, g);
      StepKeepsView(cfg, RunFrom(cfg, s, before), last);
    }
  }

  /** A write-behind Set is readable before its backend has it: while the local cache works, shows what it
      accepts at once and keeps the key, a Get answers the value whatever the worker and the backends do
      meanwhile, as long as the router never answers the local cache.  That includes the fallback taken on
      a full queue. */
  lemma WriteBehindReadsBack(
    cfg: Config, s0: Service, e: Entry, o: SetOptions, setActs: seq<Action>, s1: Service,
    g: GetOptions, getActs: seq<Action>)
    requires cfg.hasLocal && ModeOf(cfg, o).WriteBehind? && |e.value| <= MaxSize(cfg)
    requires !RoutesLocally(cfg, s0.view) && AllDone(s0)
    requires AllLocalWorks(cfg, e.key, setActs) && AllLocalWorks(cfg, e.key, getActs)
    requires s1 == RunFrom(cfg, Step(cfg, s0, Issue(SetRequest(e, o))), setActs)
    requires AllDone(s1) && |s0.tasks| < |s1.tasks| && s1.tasks[|s0.tasks|] == Done(Completed)
    requires !g.skipCache && g.version == 0
    ensures var s2 := RunFrom(cfg, Step(cfg, s1, Issue(GetRequest(e.key, g))), getActs);
      && |s1.tasks| < |s2.tasks|
      && (s2.tasks[|s1.tasks|].Done? ==>
            var answer := s2.tasks[|s1.tasks|].answer;
            answer.Found? && answer.entry.key == e.key && answer.entry.value == e.value)
  {
    hide Proceed, WB.Step, RunFrom, RoutesLocally;
    var t0 := Step(cfg, s0, Issue(SetRequest(e, o)));
    assert t0.tasks == s0.tasks + [SetCheck(e, o)] && t0.view == s0.view;
    RunQueueing(cfg, t0, setActs, |s0.tasks|, e, o);
    var t1 := Step(cfg, s1, Issue(GetRequest(e.key, g)));
    assert t1.tasks == s1.tasks + [GetLocal(e.key, g)] && t1.view == s1.view && t1.cells == s1.cells;
    RunReadingLocal(cfg, t1, getActs, |s1.tasks|, e, g);
  }

  // ----- When the local cache does not hold the value -----

  /** As LocalWorks, but the local cache may also lose the key (evict it, or never show a buffered write), or
      refuse and fail to answer, which a write-behind Set only logs. */
  predicate LocalMay(cfg: Config, k: string, a: Action, mayForget: bool, mayRefuse: bool) {
    || LocalWorks(cfg, k, a)
    || (mayForget && a == Evict(cfg.localId, k))
    || (mayRefuse && a.Advance?)
  }

  ghost predicate AllLocalMay(cfg: Config, k: string, acts: seq<Action>, mayForget: bool, mayRefuse: bool) {
    forall i | 0 <= i < |acts| :: LocalMay(cfg, k, acts[i], mayForget, mayRefuse)
  }

  /** From s0, with nothing going on, a write-behind Set ran to success. */
  ghost predicate BehindRan(
    cfg: Config, s0: Service, e: Entry, o: SetOptions, acts: seq<Action>, s1: Service,
    mayForget: bool, mayRefuse: bool)
  {
    && AllDone(s0) && AllLocalMay(cfg, e.key, acts, mayForget, mayRefuse)
    && |e.value| <= MaxSize(cfg) && ModeOf(cfg, o).WriteBehind?
    && s1 == RunFrom(cfg, Step(cfg, s0, Issue(SetRequest(e, o))), acts)
    && AllDone(s1) && |s0.tasks| < |s1.tasks| && s1.tasks[|s0.tasks|] == Done(Completed)
  }

  /** From s1 a Get without a version ran until it answered. */
  ghost predicate GetAnswered(
    cfg: Config, s1: Service, k: string, g: GetOptions, acts: seq<Action>, answer: CacheService.Answer,
    mayForget: bool, mayRefuse: bool)
  {
    var s2 := RunFrom(cfg, Step(cfg, s1, Issue(GetRequest(k, g))), acts);
    && AllLocalMay(cfg, k, acts, mayForget, mayRefuse) && g.version == 0 && !g.skipCache
    && |s1.tasks| < |s2.tasks| && s2.tasks[|s1.tasks|] == Done(answer)
  }

  ghost predicate AlwaysReadsBehind(cfg: Config, v: View, k: string, mayForget: bool, mayRefuse: bool) {
    forall s0: Service, e: Entry, o, setActs, s1, g: GetOptions, getActs, answer |
      && s0.view == v && e.key == k
      && BehindRan(cfg, s0, e, o, setActs, s1, mayForget, mayRefuse)
      && GetAnswered(cfg, s1, k, g, getActs, answer, mayForget, mayRefuse) ::
      answer.Found? && answer.entry.value == e.value
  }

  /** Three steps of a write-behind Set; what the local cache does is in the choice. */
  lemma SetQueued(cfg: Config, v: View, k: string, go: Action)
    requires cfg.hasLocal && MaxSize(cfg) >= 0 && go.Advance? && go.i == 0
    ensures var e, o := Entry(k, [], 0, 0), SetOptions(0, "", 0, Some(Mode.WriteBehind), false);
      var f := e.(ttl := GetTtl(cfg, 0, 0));
      RunFrom(cfg, Step(cfg, Init(map[], v), Issue(SetRequest(e, o))), [go, go, go])
        == Init(map[], v).(tasks := [Done(Completed)], pipe := WB.Step(WB.Init, WB.Enqueue(f)),
                           cells := Put(map[], cfg.localId, f, go.choice.localOk, go.choice.localEffect))
  {
    hide CanWrite, CanRead, WB.Step, Put;
    var e, o := Entry(k, [], 0, 0), SetOptions(0, "", 0, Some(Mode.WriteBehind), false);
    var f := e.(ttl := GetTtl(cfg, 0, 0));
    var s0 := Init(map[], v);
    var t0 := Step(cfg, s0, Issue(SetRequest(e, o)));
    assert t0 == s0.(tasks := [SetCheck(e, o)]);
    var t1 := Step(cfg, t0, go);
    assert t1 == t0.(tasks := [SetLocal(f, "", true)]);
    var t2 := Step(cfg, t1, go);
    assert t2 == t1.(tasks := [SetEnqueue(f, "")],
                     cells := Put(map[], cfg.localId, f, go.choice.localOk, go.choice.localEffect));
    var t3 := Step(cfg, t2, go);
    assert t3 == t2.(tasks := [Done(Completed)], pipe := WB.Step(WB.Init, WB.Enqueue(f)));
    hide Step, RunFrom;
    RunTwo(cfg, t0, go, go);
    RunOne(cfg, t0, [go, go], go);
    assert [go, go] + [go] == [go, go, go];
  }

  /** A completed write-behind Set of the empty value that the local cache has refused, or lost again. */
  lemma SetNotHeld(cfg: Config, v: View, k: string, mayForget: bool, mayRefuse: bool)
    returns (acts: seq<Action>, s1: Service)
    requires cfg.hasLocal && MaxSize(cfg) >= 0 && (mayForget || mayRefuse)
    ensures BehindRan(cfg, Init(map[], v), Entry(k, [], 0, 0), SetOptions(0, "", 0, Some(Mode.WriteBehind), false),
                      acts, s1, mayForget, mayRefuse)
    ensures s1.cells == map[] && s1.view == v
  {
    var e, o := Entry(k, [], 0, 0), SetOptions(0, "", 0, Some(Mode.WriteBehind), false);
    var t0 := Step(cfg, Init(map[], v), Issue(SetRequest(e, o)));
    var go, drop := Advance(0, if mayRefuse then NO_LOCAL else YES), Evict(cfg.localId, k);
    SetQueued(cfg, v, k, go);
    acts := [go, go, go];
    s1 := RunFrom(cfg, t0, acts);
    if !mayRefuse {
      var t := s1;
      s1 := Step(cfg, t, drop);
      assert s1 == t.(cells := map[]);
      hide Step, RunFrom;
      RunOne(cfg, t0, acts, drop);
      acts := acts + [drop];
    }
  }

  /** A Get that finds its key neither in the local cache nor anywhere else. */
  lemma GetForgotten(cfg: Config, s: Service, k: string, mayForget: bool, mayRefuse: bool)
    returns (acts: seq<Action>, answer: CacheService.Answer)
    requires cfg.hasLocal && s.cells == map[]
    ensures GetAnswered(cfg, s, k, GetOptions(0, "", false), acts, answer, mayForget, mayRefuse) && answer.Refused?
  {
    var route := SomeRoute(s.view, k, "");
    NothingHeld(route, k);
    hide CanRead, Step, RunFrom;
    acts, answer := AnswersAlong(cfg, s, k, GetOptions(0, "", false), route);
    WorkingLocal(cfg, k, acts, mayForget, mayRefuse);
  }

  lemma WorkingLocal(cfg: Config, k: string, acts: seq<Action>, mayForget: bool, mayRefuse: bool)
    requires forall i | 0 <= i < |acts| :: acts[i].Advance? && acts[i].choice.localOk
    ensures AllLocalMay(cfg, k, acts, mayForget, mayRefuse)
  {}

  /** Where the router never answers the local cache, every completed write-behind Set can be read back at any
      moment exactly when the local cache neither refuses it nor loses or hides it afterwards: until the
      delivery nothing else need hold the value. */
  lemma ReadsBehindIff(cfg: Config, v: View, k: string, mayForget: bool, mayRefuse: bool)
    requires cfg.hasLocal && !RoutesLocally(cfg, v)
    ensures AlwaysReadsBehind(cfg, v, k, mayForget, mayRefuse) <==> MaxSize(cfg) < 0 || (!mayForget && !mayRefuse)
  {
    hide RunFrom, Step, RoutesLocally;
    if MaxSize(cfg) >= 0 && (mayForget || mayRefuse) {
      var setActs, s1 := SetNotHeld(cfg, v, k, mayForget, mayRefuse);
      var getActs, answer := GetForgotten(cfg, s1, k, mayForget, mayRefuse);
      hide BehindRan, GetAnswered;
      var e, o := Entry(k, [], 0, 0), SetOptions(0, "", 0, Some(Mode.WriteBehind), false);
      var g := GetOptions(0, "", false);
      assert GetAnswered(cfg, s1, k, g, getActs, answer, mayForget, mayRefuse);
      assert BehindRan(cfg, Init(map[], v), e, o, setActs, s1, mayForget, mayRefuse);
    } else {
      forall s0: Service, e: Entry, o, setActs, s1, g: GetOptions, getActs, answer |
        && s0.view == v && e.key == k
        && BehindRan(cfg, s0, e, o, setActs, s1, mayForget, mayRefuse)
        && GetAnswered(cfg, s1, k, g, getActs, answer, mayForget, mayRefuse)
        ensures answer.Found? && answer.entry.value == e.value
      {
        WriteBehindReadsBack(cfg, s0, e, o, setActs, s1, g, getActs);
      }
    }
  }

  // ----- Delete -----

  /** No queued, batched or sleeping write is for this key. */
  ghost predicate NoItem(pipe: WB.Pipe, k: string) {
    forall x | WB.Pending(pipe, x) :: x.entry.key != k
  }

  lemma StepKeepsNoItem(pipe: WB.Pipe, w: WB.Action, k: string)
    requires NoItem(pipe, k) && (w.Enqueue? ==> w.entry.key != k)
    ensures NoItem(WB.Step(pipe, w), k)
  {
    if WB.Enabled(pipe, w) {
      var t := WB.Step(pipe, w);
      match w
      case Process(_) =>
        var item := pipe.batch[0];
        assert WB.Pending(pipe, item);
        forall x | WB.Pending(t, x) ensures x.entry.key != k {
          assert WB.Pending(pipe, x) || x == item.(retry := item.retry + 1);
        }
      case Enqueue(e) =>
        assert forall x | WB.Pending(t, x) :: WB.Pending(pipe, x) || x == WB.Item(|pipe.accepted|, e, 0);
      case _ =>
        assert forall x | WB.Pending(t, x) :: WB.Pending(pipe, x);
    }
  }

  /** Without an item of k the worker writes no cell of k. */
  lemma WorkerSpares(s: Service, w: WB.Action, b: string, k: string)
    requires NoItem(s.pipe, k)
    ensures (b, k) in WorkerCells(s, w) <==> (b, k) in s.cells
  {
    if Lands(s, w) {
      assert WB.Pending(s.pipe, s.pipe.batch[0]);
    }
  }

  /** How far the Delete at position i has come: what it has passed no longer holds the key. */
  ghost predicate Deleting(
    cfg: Config, s: Service, i: nat, k: string, hint: string, r: string, works: bool)
  {
    && |s.tasks| == i + 1
    && (works ==> NoItem(s.pipe, k))
    && (forall j | 0 <= j < i :: s.tasks[j].Done?)
    && (s.tasks[i].DelLocal? || (cfg.hasLocal ==> (cfg.localId, k) !in s.cells))
    && (match s.tasks[i]
        case DelLocal(k', h) => k' == k && h == hint
        case DelRoute(k', h) => k' == k && h == hint
        case DelStore(k', b) => k' == k && b == r
        case Done(Completed) => (r, k) !in s.cells
        case Done(Refused(_)) => true
        case _ => false)
  }

  /** The Delete and evictions; if `works`, the write-behind worker too. */
  predicate Deletion(a: Action, works: bool) {
    match a
    case Advance(_, ch) => ch.localOk
    case Evict(_, _) => true
    case Worker(_) => works
    case _ => false
  }

  ghost predicate Deletions(acts: seq<Action>, works: bool) {
    forall i | 0 <= i < |acts| :: Deletion(acts[i], works)
  }

  lemma StepDeleting(
    cfg: Config, s: Service, a: Action, i: nat, k: string, hint: string, r: string, works: bool)
    requires Deleting(cfg, s, i, k, hint, r, works) && Deletion(a, works) && Resolve(s.view, k, hint) == Some(r)
    ensures Deleting(cfg, Step(cfg, s, a), i, k, hint, r, works)
  {
    hide CanWrite, CanRead, Resolve, WB.Step, WB.Enabled, NoItem, WorkerCells;
    if a.Advance? && a.i == i && s.tasks[i].DelRoute? && CanWrite(s.view, k, hint, a.choice.route) {
      RoutedTo(s.view, k, hint, r, a.choice.route);
    }
    if a.Worker? && WorkerMay(s, a.step) {
      StepKeepsNoItem(s.pipe, a.step, k);
      WorkerSpares(s, a.step, cfg.localId, k);
      WorkerSpares(s, a.step, r, k);
    }
  }

  lemma {:induction false} RunDeleting(
    cfg: Config, s: Service, acts: seq<Action>, i: nat, k: string, hint: string, r: string, works: bool)
    requires Deleting(cfg, s, i, k, hint, r, works) && Deletions(acts, works)
    requires Resolve(s.view, k, hint) == Some(r)
    ensures Deleting(cfg, RunFrom(cfg, s, acts), i, k, hint, r, works) && RunFrom(cfg, s, acts).view == s.view
  {
    if acts == [] {
    } else {
      hide Step, Deleting, Resolve;
      var before, last := acts[..|acts| - 1], acts[|acts| - 1];
      RunDeleting(cfg, s, before, i, k, hint, r, works);
      assert Deletion(last, works);
      StepDeleting(cfg, RunFrom(cfg, s, before), last, i, k, hint, r, works);
      StepKeepsView(cfg, RunFrom(cfg, s, before), last);
    }
  }

  /** After a completed Delete that a hint or a rule routed, neither the local cache nor the routed backend
      holds the key; also while the worker goes on, as long as it has no write of the key left. */
  lemma DeleteForgets(
    cfg: Config, s0: Service, k: string, hint: string, acts: seq<Action>, r: string, works: bool)
    requires AllDone(s0) && Deletions(acts, works) && Resolve(s0.view, k, hint) == Some(r)
    requires works ==> NoItem(s0.pipe, k)
    ensures var s1 := RunFrom(cfg, Step(cfg, s0, Issue(DeleteRequest(k, hint))), acts);
      |s1.tasks| == |s0.tasks| + 1
      && (s1.tasks[|s0.tasks|] == Done(Completed) ==>
            (r, k) !in s1.cells && (cfg.hasLocal ==> (cfg.localId, k) !in s1.cells))
  {
    hide Proceed, WB.Step, RunFrom, Resolve, NoItem;
    var t0 := Step(cfg, s0, Issue(DeleteRequest(k, hint)));
    assert t0.tasks == s0.tasks + [Start(cfg, DeleteRequest(k, hint))] && t0.view == s0.view;
    RunDeleting(cfg, t0, acts, |s0.tasks|, k, hint, r, works);
  }

  // ----- Versions -----

  function VersionAsked(t: Task): Option<nat> {
    match t
    case GetLocal(_, g) => Some(g.version)
    case GetRoute(_, g) => Some(g.version)
    case GetStore(_, g, _, _) => Some(g.version)
    case _ => None
  }

  /** A request keeps the version it asked for until it answers, and with versioning enabled an entry is
      only ever answered under that version. */
  ghost predicate KeepsVersion(cfg: Config, s: Service, i: nat, version: nat) {
    && i < |s.tasks|
    && (VersionAsked(s.tasks[i]) == Some(version)
        || (s.tasks[i].Done? && (s.tasks[i].answer.Found? && cfg.enableVersioning && version > 0 ==>
              s.tasks[i].answer.entry.version == version)))
  }

  lemma StepKeepsVersion(cfg: Config, s: Service, a: Action, i: nat, version: nat)
    requires KeepsVersion(cfg, s, i, version)
    ensures KeepsVersion(cfg, Step(cfg, s, a), i, version)
  {
    hide CanWrite, CanRead, WB.Step, WB.Enabled;
  }

  lemma {:induction false} RunKeepsVersion(cfg: Config, s: Service, acts: seq<Action>, i: nat, version: nat)
    requires KeepsVersion(cfg, s, i, version)
    ensures KeepsVersion(cfg, RunFrom(cfg, s, acts), i, version)
  {
    if acts == [] {
    } else {
      hide Step, KeepsVersion;
      RunKeepsVersion(cfg, s, acts[..|acts| - 1], i, version);
      StepKeepsVersion(cfg, RunFrom(cfg, s, acts[..|acts| - 1]), acts[|acts| - 1], i, version);
    }
  }

  /** In every interleaving, a Get that names a version is never answered an entry that its store reported
      under another version.  What a reported version says about the value is the store's matter. */
  lemma NoStaleVersion(cfg: Config, s: Service, k: string, g: GetOptions, acts: seq<Action>)
    requires cfg.enableVersioning && g.version > 0
    ensures var t := RunFrom(cfg, Step(cfg, s, Issue(GetRequest(k, g))), acts);
      && |s.tasks| < |t.tasks|
      && (t.tasks[|s.tasks|].Done? && t.tasks[|s.tasks|].answer.Found? ==>
            t.tasks[|s.tasks|].answer.entry.version == g.version)
  {
    hide RunFrom, Proceed;
    RunKeepsVersion(cfg, Step(cfg, s, Issue(GetRequest(k, g))), acts, |s.tasks|, g.version);
  }
}
