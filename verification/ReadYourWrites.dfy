/** A successful Set is what the next Get returns, and exactly when that can be relied upon. */
module ReadYourWrites {
  import opened Storage
  import opened Routing
  import opened CacheService
  import opened StateReads
  import WB = WriteBehind

  /** Sequential use: one request and its backfill advance, the local cache may evict anything, and a
      failed local Set leaves its key absent.  Backends answer; health, rules and queue are left alone. */
  ghost predicate Calm(cfg: Config, acts: seq<Action>) {
    forall i | 0 <= i < |acts| :: CalmAction(cfg, acts[i])
  }

  predicate CalmAction(cfg: Config, a: Action) {
    match a
    case Advance(_, ch) => (ch.localOk || ch.localEffect.Dropped?) && ch.backendOk
    case Evict(b, _) => cfg.hasLocal && b == cfg.localId
    case _ => false
  }

  predicate AllDone(s: Service) {
    forall i | 0 <= i < |s.tasks| :: s.tasks[i].Done?
  }

  predicate IsLocal(cfg: Config, b: string) {
    cfg.hasLocal && b == cfg.localId
  }

  /** The local cache holds nothing for the key, or the value. */
  predicate LocalAgrees(cfg: Config, s: Service, k: string, v: Bytes) {
    cfg.hasLocal && (cfg.localId, k) in s.cells ==> s.cells[(cfg.localId, k)] == v
  }

  predicate Holds(s: Service, b: string, k: string, v: Bytes) {
    Lookup(s.cells, b, k) == Some(v)
  }

  predicate SameWrite(e: Entry, f: Entry) {
    e.key == f.key && e.value == f.value
  }

  /** How far the Set at position i has come. */
  predicate Setting(cfg: Config, s: Service, i: nat, e: Entry, o: SetOptions, r: string) {
    && i < |s.tasks| <= i + 2 && (|s.tasks| == i + 2 ==> cfg.hasLocal)
    && (forall j | 0 <= j < i :: s.tasks[j].Done?)
    && (match s.tasks[i]
        case SetCheck(f, p) => SameWrite(e, f) && p == o && |s.tasks| == i + 1
        case SetLocal(f, hint, behind) =>
          SameWrite(e, f) && hint == o.hint && !behind && cfg.hasLocal && |s.tasks| == i + 1
        case SetRoute(f, hint, path) =>
          && SameWrite(e, f) && hint == o.hint && |s.tasks| == i + 1 && !path.Pass?
          && (path.Aside? ==> LocalAgrees(cfg, s, e.key, e.value))
        case SetStore(f, b, path) =>
          && SameWrite(e, f) && b == r && |s.tasks| == i + 1 && !path.Pass?
          && (path.Aside? ==> LocalAgrees(cfg, s, e.key, e.value))
        case Done(Completed) =>
          && Holds(s, r, e.key, e.value)
          && (|s.tasks| == i + 1 ==> LocalAgrees(cfg, s, e.key, e.value))
          && (|s.tasks| == i + 2 ==>
                if s.tasks[i + 1].Backfill? then SameWrite(e, s.tasks[i + 1].e)
                else s.tasks[i + 1].Done? && LocalAgrees(cfg, s, e.key, e.value))
        case Done(Refused(_)) => |s.tasks| == i + 1
        case _ => false)
  }

  /** How far the Get at position i has come.  A strict Get does not come to the local cache before r. */
  predicate Getting(
    cfg: Config, s: Service, i: nat, k: string, g: GetOptions, v: Bytes, r: string, strict: bool)
  {
    && i < |s.tasks| <= i + 2 && (|s.tasks| == i + 2 ==> cfg.hasLocal)
    && (forall j | 0 <= j < i :: s.tasks[j].Done?)
    && Holds(s, r, k, v) && (strict || LocalAgrees(cfg, s, k, v))
    && (match s.tasks[i]
        case GetLocal(k', g') => k' == k && g' == g && cfg.hasLocal && |s.tasks| == i + 1 && !strict
        case GetRoute(k', g') => k' == k && g' == g && |s.tasks| == i + 1
        case GetStore(k', g', rest, _) =>
          k' == k && g' == g && |s.tasks| == i + 1 && LeadsTo(cfg, rest, r) && (strict ==> rest[0] == r)
        case Done(Found(f)) =>
          && f.key == k && f.value == v
          && (|s.tasks| == i + 2 ==>
                s.tasks[i + 1].Done? || (s.tasks[i + 1].Backfill? && SameWrite(f, s.tasks[i + 1].e)))
        case _ => false)
  }

  // ----- Routes on which reads follow writes -----

  /** The route starts with r, but for the local cache. */
  predicate LeadsTo(cfg: Config, route: seq<string>, r: string) {
    && route != []
    && (route[0] == r || (IsLocal(cfg, route[0]) && |route| >= 2 && route[1] == r))
  }

  /** A write of the key goes to r, which is not the local cache, or nowhere. */
  ghost predicate WritesTo(cfg: Config, v: View, key: string, hint: string, r: string) {
    !IsLocal(cfg, r) && forall w | CanWrite(v, key, hint, w) :: w == None || w == Some(r)
  }

  /** Every write of the key goes to r, which is not the local cache, and every read comes to it first. */
  ghost predicate Steady(cfg: Config, v: View, key: string, hint: string, r: string) {
    && !IsLocal(cfg, r)
    && (forall w | CanWrite(v, key, hint, w) :: w == Some(r))
    && (forall route | CanRead(v, key, hint, route) :: LeadsTo(cfg, route, r))
  }

  /** Every read of the key starts at r. */
  ghost predicate HeadsAll(v: View, key: string, hint: string, r: string) {
    forall route | CanRead(v, key, hint, route) :: route != [] && route[0] == r
  }

  /** b is the only healthy backend but for a local cache that is lighter. */
  predicate OnlyOther(cfg: Config, v: View, b: string) {
    && b in v.healthy && !IsLocal(cfg, b)
    && forall x | x in v.healthy && x != b :: IsLocal(cfg, x) && v.healthy[x] < v.healthy[b]
  }

  /** What a caller can check of the routing: a resolved key does not go to the local cache, and an
      unresolved one has no choice. */
  ghost predicate SafelyRouted(cfg: Config, v: View, key: string, hint: string) {
    match Resolve(v, key, hint)
    case Some(b) => !IsLocal(cfg, b)
    case None => v.healthy == map[] || exists b :: OnlyOther(cfg, v, b)
  }

  lemma OnlyOtherLeads(cfg: Config, v: View, route: seq<string>, b: string)
    requires OnlyOther(cfg, v, b) && NoDuplicates(route) && Elements(route) == v.healthy.Keys
    ensures LeadsTo(cfg, route, b)
  {
    assert b in Elements(route);
    assert route[0] in Elements(route);
    if route[0] != b {
      assert |route| >= 2;
      assert route[1] in Elements(route) && route[1] != route[0];
    }
  }

  lemma OnlyOtherTakes(cfg: Config, v: View, key: string, hint: string, b: string, w: Option<string>)
    requires OnlyOther(cfg, v, b) && Resolve(v, key, hint).None? && CanWrite(v, key, hint, w)
    ensures w == Some(b)
  {
    hide Resolve;
    assert v.healthy[b] <= v.healthy[w.value];
  }

  /** A safely routed key with somewhere to go always goes to one backend. */
  lemma SafeIsSteady(cfg: Config, v: View, key: string, hint: string) returns (r: string)
    requires SafelyRouted(cfg, v, key, hint) && v.healthy != map[]
    ensures Steady(cfg, v, key, hint, r)
  {
    if Resolve(v, key, hint).Some? {
      r := Resolve(v, key, hint).value;
      hide Resolve;
      forall route | CanRead(v, key, hint, route) ensures LeadsTo(cfg, route, r) {
        HeadIsResolved(v, key, hint, route, r);
      }
    } else {
      r :| OnlyOther(cfg, v, r);
      hide Resolve, ReadPrefix;
      forall w | CanWrite(v, key, hint, w) ensures w == Some(r) {
        OnlyOtherTakes(cfg, v, key, hint, r, w);
      }
      forall route | CanRead(v, key, hint, route) ensures LeadsTo(cfg, route, r) {
        OnlyOtherLeads(cfg, v, route, r);
      }
    }
  }

  /** The backend to which a safely routed key is written, if it can be written at all. */
  lemma SafeWrites(cfg: Config, v: View, key: string, hint: string) returns (r: string)
    requires SafelyRouted(cfg, v, key, hint)
    ensures WritesTo(cfg, v, key, hint, r) && (v.healthy != map[] ==> Steady(cfg, v, key, hint, r))
  {
    if v.healthy == map[] {
      r := if cfg.localId == "" then "-" else "";
      ResolvedIsHealthy(v, key, hint);
    } else {
      r := SafeIsSteady(cfg, v, key, hint);
    }
  }

  lemma HeadIsResolved(v: View, key: string, hint: string, route: seq<string>, r: string)
    requires Resolve(v, key, hint) == Some(r) && CanRead(v, key, hint, route)
    ensures route != [] && route[0] == r
  {
    ResolvedHeadsPrefix(v, key, hint);
  }

  // ----- The Set -----

  predicate SyncMode(cfg: Config, o: SetOptions) {
    !ModeOf(cfg, o).WriteBehind?
  }

  lemma RoutedTo(v: View, key: string, hint: string, r: string, choice: Option<string>)
    requires Resolve(v, key, hint) == Some(r) && CanWrite(v, key, hint, choice)
    ensures choice == Some(r)
  {}

  lemma AdvanceSetting(cfg: Config, s: Service, j: nat, ch: Choice, i: nat, e: Entry, o: SetOptions, r: string)
    requires Setting(cfg, s, i, e, o, r) && SyncMode(cfg, o)
    requires WritesTo(cfg, s.view, e.key, o.hint, r)
    requires CalmAction(cfg, Advance(j, ch)) && j < |s.tasks|
    ensures Setting(cfg, Step(cfg, s, Advance(j, ch)), i, e, o, r)
  {
    hide CanWrite, CanRead, Resolve, WB.Step, WB.Enabled;
    if j == i && s.tasks[i].SetRoute? && CanWrite(s.view, e.key, o.hint, ch.route) {
      assert ch.route == None || ch.route == Some(r);
    }
  }

  lemma EvictSetting(cfg: Config, s: Service, k: string, i: nat, e: Entry, o: SetOptions, r: string)
    requires Setting(cfg, s, i, e, o, r) && cfg.hasLocal && !IsLocal(cfg, r)
    ensures Setting(cfg, Step(cfg, s, Evict(cfg.localId, k)), i, e, o, r)
  {
    hide CanWrite, CanRead, WB.Step, WB.Enabled;
  }

  lemma {:induction false} RunSetting(
    cfg: Config, s: Service, acts: seq<Action>, i: nat, e: Entry, o: SetOptions, r: string)
    requires Setting(cfg, s, i, e, o, r) && SyncMode(cfg, o) && Calm(cfg, acts)
    requires WritesTo(cfg, s.view, e.key, o.hint, r)
    ensures Setting(cfg, RunFrom(cfg, s, acts), i, e, o, r) && RunFrom(cfg, s, acts).view == s.view
  {
    if acts == [] {
    } else {
      hide Setting, Proceed, WB.Step, CanWrite, CanRead;
      var before, last := acts[..|acts| - 1], acts[|acts| - 1];
      RunSetting(cfg, s, before, i, e, o, r);
      var t := RunFrom(cfg, s, before);
      assert CalmAction(cfg, last);
      match last
      case Advance(j, ch) =>
        if j < |t.tasks| {
          AdvanceSetting(cfg, t, j, ch, i, e, o, r);
        }
      case Evict(b, k) => EvictSetting(cfg, t, k, i, e, o, r);
    }
  }

  // ----- The Get -----

  lemma AdvanceGetting(
    cfg: Config, s: Service, j: nat, ch: Choice, i: nat, k: string, g: GetOptions, v: Bytes, r: string,
    strict: bool)
    requires Getting(cfg, s, i, k, g, v, r, strict) && g.version == 0
    requires Steady(cfg, s.view, k, g.hint, r) && (strict ==> HeadsAll(s.view, k, g.hint, r))
    requires CalmAction(cfg, Advance(j, ch)) && j < |s.tasks|
    ensures Getting(cfg, Step(cfg, s, Advance(j, ch)), i, k, g, v, r, strict)
  {
    hide CanWrite, CanRead, Resolve, ReadPrefix, WB.Step, WB.Enabled;
    if j == i && s.tasks[i].GetRoute? && CanRead(s.view, k, g.hint, ch.order) {
      assert LeadsTo(cfg, ch.order, r);
    }
  }

  lemma EvictGetting(
    cfg: Config, s: Service, k': string, i: nat, k: string, g: GetOptions, v: Bytes, r: string, strict: bool)
    requires Getting(cfg, s, i, k, g, v, r, strict) && cfg.hasLocal && !IsLocal(cfg, r)
    ensures Getting(cfg, Step(cfg, s, Evict(cfg.localId, k')), i, k, g, v, r, strict)
  {
    hide CanWrite, CanRead, WB.Step, WB.Enabled;
  }

  lemma {:induction false} RunGetting(
    cfg: Config, s: Service, acts: seq<Action>, i: nat, k: string, g: GetOptions, v: Bytes, r: string,
    strict: bool)
    requires Getting(cfg, s, i, k, g, v, r, strict) && g.version == 0 && Calm(cfg, acts)
    requires Steady(cfg, s.view, k, g.hint, r) && (strict ==> HeadsAll(s.view, k, g.hint, r))
    ensures Getting(cfg, RunFrom(cfg, s, acts), i, k, g, v, r, strict) && RunFrom(cfg, s, acts).view == s.view
  {
    if acts == [] {
    } else {
      hide Getting, Proceed, WB.Step, CanWrite, CanRead;
      var before, last := acts[..|acts| - 1], acts[|acts| - 1];
      RunGetting(cfg, s, before, i, k, g, v, r, strict);
      var t := RunFrom(cfg, s, before);
      assert CalmAction(cfg, last);
      match last
      case Advance(j, ch) =>
        if j < |t.tasks| {
          AdvanceGetting(cfg, t, j, ch, i, k, g, v, r, strict);
        }
      case Evict(b, k') => EvictGetting(cfg, t, k', i, k, g, v, r, strict);
    }
  }

  // ----- Both together -----

  /** From s0, with nothing going on, the Set ran to success and its backfill has finished. */
  ghost predicate SetRan(cfg: Config, s0: Service, e: Entry, o: SetOptions, acts: seq<Action>, s1: Service) {
    && AllDone(s0) && Calm(cfg, acts)
    && |e.value| <= MaxSize(cfg) && SyncMode(cfg, o)
    && s1 == RunFrom(cfg, Step(cfg, s0, Issue(SetRequest(e, o))), acts)
    && AllDone(s1) && |s0.tasks| < |s1.tasks| && s1.tasks[|s0.tasks|] == Done(Completed)
  }

  /** From s1 a Get without a version ran until it answered. */
  ghost predicate GetRan(
    cfg: Config, s1: Service, k: string, g: GetOptions, acts: seq<Action>, answer: CacheService.Answer)
  {
    var s2 := RunFrom(cfg, Step(cfg, s1, Issue(GetRequest(k, g))), acts);
    Calm(cfg, acts) && g.version == 0 && |s1.tasks| < |s2.tasks| && s2.tasks[|s1.tasks|] == Done(answer)
  }

  /** What the next Get answers after a successful cache-aside or write-through Set of a key whose writes
      and reads meet at one backend: that value, whatever the local cache evicted. */
  lemma ReadYourWrite(
    cfg: Config, s0: Service, e: Entry, o: SetOptions, setActs: seq<Action>, s1: Service,
    g: GetOptions, getActs: seq<Action>, answer: CacheService.Answer, r: string)
    requires SetRan(cfg, s0, e, o, setActs, s1) && GetRan(cfg, s1, e.key, g, getActs, answer)
    requires g.hint == o.hint && Steady(cfg, s0.view, e.key, o.hint, r)
    ensures answer.Found? && answer.entry.key == e.key && answer.entry.value == e.value
  {
    hide CanRead, Proceed, CanWrite, WB.Step, RunFrom;
    var i := |s0.tasks|;
    var t0 := Step(cfg, s0, Issue(SetRequest(e, o)));
    assert t0.tasks == s0.tasks + [SetCheck(e, o)] && t0.view == s0.view;
    assert Setting(cfg, t0, i, e, o, r);
    RunSetting(cfg, t0, setActs, i, e, o, r);
    assert Holds(s1, r, e.key, e.value) && LocalAgrees(cfg, s1, e.key, e.value);
    var i1 := |s1.tasks|;
    var t1 := Step(cfg, s1, Issue(GetRequest(e.key, g)));
    assert t1.tasks == s1.tasks + [Start(cfg, GetRequest(e.key, g))] && t1.view == s1.view;
    assert Getting(cfg, t1, i1, e.key, g, e.value, r, false);
    RunGetting(cfg, t1, getActs, i1, e.key, g, e.value, r, false);
  }

  ghost predicate AlwaysReadsBack(cfg: Config, v: View, key: string, hint: string) {
    forall s0: Service, e: Entry, o: SetOptions, setActs, s1, g: GetOptions, getActs, answer |
      && s0.view == v && e.key == key && o.hint == hint && g.hint == hint
      && SetRan(cfg, s0, e, o, setActs, s1) && GetRan(cfg, s1, key, g, getActs, answer) ::
      answer.Found? && answer.entry.value == e.value
  }

  // ----- Nowhere to go -----

  /** A Set that no backend can take. */
  predicate Blocked(s: Service, i: nat, key: string, hint: string) {
    && i < |s.tasks|
    && (match s.tasks[i]
        case SetCheck(f, p) => f.key == key && p.hint == hint
        case SetLocal(f, h, behind) => f.key == key && h == hint && !behind
        case SetRoute(f, h, _) => f.key == key && h == hint
        case Done(Refused(_)) => true
        case _ => false)
  }

  predicate Sync(cfg: Config, t: Task) {
    t.SetCheck? ==> SyncMode(cfg, t.o)
  }

  lemma StepBlocked(cfg: Config, s: Service, a: Action, i: nat, key: string, hint: string)
    requires Blocked(s, i, key, hint) && Sync(cfg, s.tasks[i]) && CalmAction(cfg, a)
    requires forall w | CanWrite(s.view, key, hint, w) :: w == None
    ensures var t := Step(cfg, s, a); Blocked(t, i, key, hint) && Sync(cfg, t.tasks[i]) && t.view == s.view
  {
    hide CanWrite, CanRead, WB.Step, WB.Enabled;
  }

  lemma {:induction false} RunBlocked(
    cfg: Config, s: Service, acts: seq<Action>, i: nat, key: string, hint: string)
    requires Blocked(s, i, key, hint) && Sync(cfg, s.tasks[i]) && Calm(cfg, acts)
    requires forall w | CanWrite(s.view, key, hint, w) :: w == None
    ensures var t := RunFrom(cfg, s, acts); Blocked(t, i, key, hint) && Sync(cfg, t.tasks[i]) && t.view == s.view
  {
    if acts == [] {
    } else {
      hide Step, Blocked, CanWrite;
      var before, last := acts[..|acts| - 1], acts[|acts| - 1];
      RunBlocked(cfg, s, before, i, key, hint);
      StepBlocked(cfg, RunFrom(cfg, s, before), last, i, key, hint);
    }
  }

  /** With nothing healthy no Set completes. */
  lemma NothingHealthy(cfg: Config, s0: Service, e: Entry, o: SetOptions, acts: seq<Action>, s1: Service)
    requires SetRan(cfg, s0, e, o, acts, s1)
    ensures s0.view.healthy != map[]
  {
    if s0.view.healthy == map[] {
      ResolvedIsHealthy(s0.view, e.key, o.hint);
      hide Resolve, Proceed, WB.Step, RunFrom;
      var t0 := Step(cfg, s0, Issue(SetRequest(e, o)));
      assert t0.tasks == s0.tasks + [SetCheck(e, o)] && t0.view == s0.view;
      RunBlocked(cfg, t0, acts, |s0.tasks|, e.key, o.hint);
    }
  }

  // ----- Runs that do not read back -----

  /** The backend works, and the local cache does not. */
  const NO_LOCAL := Choice(None, [], false, Dropped, true, Kept, Failed, 0)

  function LocalCell(cfg: Config, key: string): set<(string, string)> {
    if cfg.hasLocal then {(cfg.localId, key)} else {}
  }

  /** A cache-aside Set on its way to the router, with a local cache that does not work. */
  lemma SetReachesRouter(cfg: Config, s: Service, e: Entry, o: SetOptions, go: Action) returns (acts: seq<Action>)
    requires s.tasks == [SetCheck(e, o)] && ModeOf(cfg, o).CacheAside? && !o.checkVersion
    requires go.Advance? && go.i == 0 && !go.choice.localOk && go.choice.localEffect.Dropped?
    ensures acts == if cfg.hasLocal then [go, go] else [go]
    ensures RunFrom(cfg, s, acts)
         == s.(tasks := [SetRoute(e.(ttl := GetTtl(cfg, e.ttl, o.ttl)), o.hint, Aside)],
               cells := s.cells - LocalCell(cfg, e.key))
  {
    hide CanWrite, CanRead;
    var f := e.(ttl := GetTtl(cfg, e.ttl, o.ttl));
    var t := Step(cfg, s, go);
    if cfg.hasLocal {
      assert t == s.(tasks := [SetLocal(f, o.hint, false)]);
      assert Step(cfg, t, go)
          == s.(tasks := [SetRoute(f, o.hint, Aside)], cells := s.cells - LocalCell(cfg, e.key));
      acts := [go, go];
    } else {
      assert t == s.(tasks := [SetRoute(f, o.hint, Aside)], cells := s.cells - LocalCell(cfg, e.key));
      acts := [go];
    }
    hide Step, RunFrom;
    RunTwo(cfg, s, go, go);
  }

  lemma SetIsStored(cfg: Config, s: Service, f: Entry, hint: string, b: string, go: Action)
    requires s.tasks == [SetRoute(f, hint, Aside)] && CanWrite(s.view, f.key, hint, Some(b))
    requires go.Advance? && go.i == 0 && go.choice.backendOk && go.choice.route == Some(b)
    ensures RunFrom(cfg, s, [go, go])
         == s.(tasks := [Done(Completed)], cells := s.cells[(b, f.key) := f.value],
               taken := s.taken + {(f.key, f.value)})
  {
    hide CanWrite, CanRead;
    var t := Step(cfg, s, go);
    assert t == s.(tasks := [SetStore(f, b, Aside)]);
    assert Step(cfg, t, go) == t.(tasks := [Done(Completed)], cells := s.cells[(b, f.key) := f.value],
                                  taken := s.taken + {(f.key, f.value)});
    hide Step, RunFrom;
    RunTwo(cfg, s, go, go);
  }

  /** The local cache, if there is one, loses a key. */
  lemma LocalForgets(cfg: Config, s: Service, key: string) returns (acts: seq<Action>)
    ensures Calm(cfg, acts) && RunFrom(cfg, s, acts) == s.(cells := s.cells - LocalCell(cfg, key))
  {
    var drop := Evict(cfg.localId, key);
    acts := if cfg.hasLocal then [drop] else [];
    assert RunFrom(cfg, s, [drop]) == Step(cfg, s, drop) by {
      hide Step;
      RunTwo(cfg, s, drop, drop);
    }
    assert s.cells - {} == s.cells;
  }

  /** From its check to its answer. */
  lemma SetCompletes(cfg: Config, s: Service, e: Entry, o: SetOptions, b: string) returns (acts: seq<Action>)
    requires s.tasks == [SetCheck(e, o)] && ModeOf(cfg, o).CacheAside? && !o.checkVersion
    requires CanWrite(s.view, e.key, o.hint, Some(b))
    ensures Calm(cfg, acts)
    ensures RunFrom(cfg, s, acts)
         == s.(tasks := [Done(Completed)], cells := (s.cells - LocalCell(cfg, e.key))[(b, e.key) := e.value],
               taken := s.taken + {(e.key, e.value)})
  {
    hide CanWrite, CanRead, Step, RunFrom;
    var f := e.(ttl := GetTtl(cfg, e.ttl, o.ttl));
    var go := Advance(0, NO_LOCAL.(route := Some(b)));
    var first := SetReachesRouter(cfg, s, e, o, go);
    SetIsStored(cfg, RunFrom(cfg, s, first), f, o.hint, b, go);
    RunAppend(cfg, s, first, [go, go]);
    acts := first + [go, go];
    assert forall i | 0 <= i < |acts| :: acts[i] == go;
  }

  /** A cache-aside Set of the empty value on an idle service, which leaves nothing in the local cache. */
  lemma SetWithoutLocal(cfg: Config, cells: Cells, v: View, key: string, hint: string, b: string)
    returns (acts: seq<Action>, s1: Service)
    requires MaxSize(cfg) >= 0 && CanWrite(v, key, hint, Some(b))
    ensures SetRan(cfg, Init(cells, v), Entry(key, [], 0, 0), SetOptions(0, hint, 0, Some(CacheAside), false), acts, s1)
    ensures s1.cells == cells[(b, key) := []] - LocalCell(cfg, key) && s1.view == v
  {
    hide CanWrite, CanRead, Step, RunFrom, Calm, LocalCell;
    var e, o := Entry(key, [], 0, 0), SetOptions(0, hint, 0, Some(CacheAside), false);
    var s0 := Init(cells, v);
    var t0 := Step(cfg, s0, Issue(SetRequest(e, o)));
    Issues(cfg, s0, SetRequest(e, o));
    assert t0 == s0.(tasks := [SetCheck(e, o)]);
    var first := SetCompletes(cfg, t0, e, o, b);
    var last := LocalForgets(cfg, RunFrom(cfg, t0, first), key);
    RunAppend(cfg, t0, first, last);
    acts := first + last;
    s1 := RunFrom(cfg, t0, acts);
    CalmConcat(cfg, first, last);
    LosesOnce(cells, LocalCell(cfg, key), (b, key), []);
  }

  lemma CalmConcat(cfg: Config, acts: seq<Action>, more: seq<Action>)
    requires Calm(cfg, acts) && Calm(cfg, more)
    ensures Calm(cfg, acts + more)
  {}

  lemma LosesOnce(cells: Cells, lost: set<(string, string)>, c: (string, string), v: Bytes)
    ensures (cells - lost)[c := v] - lost == cells[c := v] - lost
  {}

  /** A Get left alone is a calm run. */
  lemma AnswersIsRan(
    cfg: Config, s: Service, k: string, g: GetOptions, acts: seq<Action>, answer: CacheService.Answer)
    requires Answers(cfg, s, k, g, acts, answer) && g.version == 0
    ensures GetRan(cfg, s, k, g, acts, answer)
  {
    hide RunFrom, Step;
  }

  /** What is only in the local cache is lost with it. */
  lemma LocalLoses(cfg: Config, v: View, key: string, hint: string)
    requires cfg.hasLocal && MaxSize(cfg) >= 0 && CanWrite(v, key, hint, Some(cfg.localId))
    ensures !AlwaysReadsBack(cfg, v, key, hint)
  {
    var setActs, s1 := SetWithoutLocal(cfg, map[], v, key, hint, cfg.localId);
    assert s1.cells == map[];
    var g := GetOptions(0, hint, true);
    var route := SomeRoute(v, key, hint);
    NothingHeld(route, key);
    hide CanWrite, CanRead, SetRan, GetRan, Answers;
    var getActs, answer := AnswersAlong(cfg, s1, key, g, route);
    AnswersIsRan(cfg, s1, key, g, getActs, answer);
  }

  /** An unresolved key written to one backend and read from another that still holds an old value. */
  lemma OtherIsStale(cfg: Config, v: View, key: string, hint: string, b: string, c: string)
    requires MaxSize(cfg) >= 0 && Resolve(v, key, hint).None? && CanWrite(v, key, hint, Some(b))
    requires b != c && c in v.healthy && !IsLocal(cfg, b) && !IsLocal(cfg, c)
    ensures !AlwaysReadsBack(cfg, v, key, hint)
  {
    var setActs, s1 := SetWithoutLocal(cfg, map[(c, key) := [1]], v, key, hint, b);
    assert s1.cells[(c, key)] == [1];
    var g := GetOptions(0, hint, true);
    var route := UnresolvedRoute(v, key, hint, c);
    hide CanWrite, CanRead, SetRan, GetRan, Answers;
    var getActs, answer := AnswersAlong(cfg, s1, key, g, route);
    AnswersIsRan(cfg, s1, key, g, getActs, answer);
  }

  /** A key that is not safely routed can be written to the local cache, or is unresolved with two other
      backends to choose from. */
  lemma UnsafeRouting(cfg: Config, v: View, key: string, hint: string) returns (local: bool, b: string, c: string)
    requires !SafelyRouted(cfg, v, key, hint)
    ensures local ==> cfg.hasLocal && CanWrite(v, key, hint, Some(cfg.localId))
    ensures !local ==>
              && Resolve(v, key, hint).None? && CanWrite(v, key, hint, Some(b))
              && b != c && c in v.healthy && !IsLocal(cfg, b) && !IsLocal(cfg, c)
  {
    local, b, c := true, "", "";
    if Resolve(v, key, hint).None? {
      hide Resolve;
      b := Heaviest(v.healthy, v.healthy.Keys);
      assert CanWrite(v, key, hint, Some(b));
      if !IsLocal(cfg, b) {
        assert !OnlyOther(cfg, v, b);
        c :| c in v.healthy && c != b && !(IsLocal(cfg, c) && v.healthy[c] < v.healthy[b]);
        local := IsLocal(cfg, c);
        assert local ==> CanWrite(v, key, hint, Some(c));
      }
    }
  }

  lemma UnsafeFails(cfg: Config, v: View, key: string, hint: string)
    requires MaxSize(cfg) >= 0 && !SafelyRouted(cfg, v, key, hint)
    ensures !AlwaysReadsBack(cfg, v, key, hint)
  {
    var local, b, c := UnsafeRouting(cfg, v, key, hint);
    hide AlwaysReadsBack, SafelyRouted, CanWrite;
    if local {
      LocalLoses(cfg, v, key, hint);
    } else {
      OtherIsStale(cfg, v, key, hint, b, c);
    }
  }

  /** Every synchronous write of a key within the size limit reads back, in every calm run and for every
      configuration, exactly when the key is safely routed, or no value is within the limit at all. */
  lemma ReadsBackIff(cfg: Config, v: View, key: string, hint: string)
    ensures AlwaysReadsBack(cfg, v, key, hint) <==> MaxSize(cfg) < 0 || SafelyRouted(cfg, v, key, hint)
  {
    if MaxSize(cfg) >= 0 && !SafelyRouted(cfg, v, key, hint) {
      UnsafeFails(cfg, v, key, hint);
    } else {
      forall s0: Service, e: Entry, o: SetOptions, setActs, s1, g: GetOptions, getActs, answer |
        && s0.view == v && e.key == key && o.hint == hint && g.hint == hint
        && SetRan(cfg, s0, e, o, setActs, s1) && GetRan(cfg, s1, key, g, getActs, answer)
        ensures answer.Found? && answer.entry.value == e.value
      {
        NothingHealthy(cfg, s0, e, o, setActs, s1);
        var r := SafeWrites(cfg, v, key, hint);
        ReadYourWrite(cfg, s0, e, o, setActs, s1, g, getActs, answer, r);
      }
    }
  }
}
