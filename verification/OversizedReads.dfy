/** Read-your-writes of a value above the size limit, which passes the local cache by without clearing it. */
module OversizedReads {
  import opened Storage
  import opened Routing
  import opened CacheService
  import opened ReadYourWrites
  import opened StateReads
  import WB = WriteBehind

  /** From s0, with nothing going on, a Set above the limit ran to success, in whatever mode. */
  ghost predicate BigSetRan(cfg: Config, s0: Service, e: Entry, o: SetOptions, acts: seq<Action>, s1: Service) {
    && AllDone(s0) && Calm(cfg, acts) && |e.value| > MaxSize(cfg)
    && s1 == RunFrom(cfg, Step(cfg, s0, Issue(SetRequest(e, o))), acts)
    && AllDone(s1) && |s0.tasks| < |s1.tasks| && s1.tasks[|s0.tasks|] == Done(Completed)
  }

  predicate LocalHolds(cfg: Config, cells: Cells, key: string) {
    cfg.hasLocal && (cfg.localId, key) in cells
  }

  /** Every completed Set above the limit is what the next Get answers; `mayHold` says whether the local cache
      may hold the key before the Set, and `skips` whether the Gets pass it by. */
  ghost predicate AlwaysReadsBig(cfg: Config, v: View, key: string, hint: string, mayHold: bool, skips: bool) {
    forall s0: Service, e: Entry, o: SetOptions, setActs, s1, g: GetOptions, getActs, answer |
      && s0.view == v && e.key == key && o.hint == hint && g.hint == hint && g.skipCache == skips
      && (mayHold || !LocalHolds(cfg, s0.cells, key))
      && BigSetRan(cfg, s0, e, o, setActs, s1) && GetRan(cfg, s1, key, g, getActs, answer) ::
      answer.Found? && answer.entry.value == e.value
  }

  /** The local cache cannot answer before the backend does: it has nothing to answer, or the Gets pass it by
      and the router does not offer it either. */
  ghost predicate PassedBy(cfg: Config, v: View, key: string, hint: string, mayHold: bool, skips: bool) {
    || !cfg.hasLocal || !mayHold
    || (skips && (Resolve(v, key, hint).Some? || cfg.localId !in v.healthy))
  }

  // ----- The Set -----

  /** How far the Set at position i has come; `clear` says that the local cache does not hold the key. */
  predicate Passing(cfg: Config, s: Service, i: nat, e: Entry, hint: string, r: string, clear: bool) {
    && |s.tasks| == i + 1
    && (forall j | 0 <= j < i :: s.tasks[j].Done?)
    && (clear ==> !LocalHolds(cfg, s.cells, e.key))
    && (match s.tasks[i]
        case SetRoute(f, h, path) => SameWrite(e, f) && h == hint && path.Pass?
        case SetStore(f, b, path) => SameWrite(e, f) && b == r && path.Pass?
        case Done(Completed) => Holds(s, r, e.key, e.value)
        case Done(Refused(_)) => true
        case _ => false)
  }

  lemma StepPassing(
    cfg: Config, s: Service, a: Action, i: nat, e: Entry, hint: string, r: string, clear: bool)
    requires Passing(cfg, s, i, e, hint, r, clear) && CalmAction(cfg, a)
    requires WritesTo(cfg, s.view, e.key, hint, r)
    ensures Passing(cfg, Step(cfg, s, a), i, e, hint, r, clear) && Step(cfg, s, a).view == s.view
  {
    hide CanWrite, CanRead, WB.Step, WB.Enabled;
    if a.Advance? && a.i == i && s.tasks[i].SetRoute? && CanWrite(s.view, e.key, hint, a.choice.route) {
      assert a.choice.route == None || a.choice.route == Some(r);
    }
  }

  lemma {:induction false} RunPassing(
    cfg: Config, s: Service, acts: seq<Action>, i: nat, e: Entry, hint: string, r: string, clear: bool)
    requires Passing(cfg, s, i, e, hint, r, clear) && Calm(cfg, acts)
    requires WritesTo(cfg, s.view, e.key, hint, r)
    ensures Passing(cfg, RunFrom(cfg, s, acts), i, e, hint, r, clear) && RunFrom(cfg, s, acts).view == s.view
  {
    if acts == [] {
    } else {
      hide Step, Passing, WritesTo;
      var before, last := acts[..|acts| - 1], acts[|acts| - 1];
      RunPassing(cfg, s, before, i, e, hint, r, clear);
      StepPassing(cfg, RunFrom(cfg, s, before), last, i, e, hint, r, clear);
    }
  }

  /** What a completed Set above the limit leaves: its value at r, and the local cache as empty as before. */
  lemma BigSetLeaves(
    cfg: Config, s0: Service, e: Entry, o: SetOptions, acts: seq<Action>, s1: Service, r: string, clear: bool)
    requires BigSetRan(cfg, s0, e, o, acts, s1) && WritesTo(cfg, s0.view, e.key, o.hint, r)
    requires clear ==> !LocalHolds(cfg, s0.cells, e.key)
    ensures Holds(s1, r, e.key, e.value) && s1.view == s0.view
    ensures clear ==> !LocalHolds(cfg, s1.cells, e.key)
  {
    hide CanWrite, CanRead, Proceed, WB.Step, RunFrom, WritesTo;
    var t0 := Step(cfg, s0, Issue(SetRequest(e, o)));
    assert t0.tasks == s0.tasks + [SetRoute(e, o.hint, Pass)] && t0.view == s0.view && t0.cells == s0.cells;
    assert Passing(cfg, t0, |s0.tasks|, e, o.hint, r, clear);
    RunPassing(cfg, t0, acts, |s0.tasks|, e, o.hint, r, clear);
  }

  lemma BigNeedsHealthy(cfg: Config, s0: Service, e: Entry, o: SetOptions, acts: seq<Action>, s1: Service)
    requires BigSetRan(cfg, s0, e, o, acts, s1)
    ensures s0.view.healthy != map[]
  {
    if s0.view.healthy == map[] {
      ResolvedIsHealthy(s0.view, e.key, o.hint);
      hide Resolve, Proceed, WB.Step, RunFrom;
      var t0 := Step(cfg, s0, Issue(SetRequest(e, o)));
      assert t0.tasks == s0.tasks + [SetRoute(e, o.hint, Pass)] && t0.view == s0.view;
      RunBlocked(cfg, t0, acts, |s0.tasks|, e.key, o.hint);
    }
  }

  // ----- Where it reads back -----

  /** Passed by with something to answer, the local cache is not on the way to r. */
  lemma PassedHeads(cfg: Config, v: View, key: string, hint: string, r: string, mayHold: bool, skips: bool)
    requires Steady(cfg, v, key, hint, r) && PassedBy(cfg, v, key, hint, mayHold, skips)
    requires cfg.hasLocal && mayHold && SafelyRouted(cfg, v, key, hint) && v.healthy != map[]
    ensures skips && HeadsAll(v, key, hint, r)
  {
    forall route | CanRead(v, key, hint, route) ensures route != [] && route[0] == r {
      assert LeadsTo(cfg, route, r);
      assert route[0] in Elements(route);
      if Resolve(v, key, hint).Some? {
        HeadIsResolved(v, key, hint, route, Resolve(v, key, hint).value);
      }
    }
  }

  lemma BigReadsBack(
    cfg: Config, s0: Service, e: Entry, o: SetOptions, setActs: seq<Action>, s1: Service,
    g: GetOptions, getActs: seq<Action>, answer: CacheService.Answer, mayHold: bool)
    requires BigSetRan(cfg, s0, e, o, setActs, s1) && GetRan(cfg, s1, e.key, g, getActs, answer)
    requires g.hint == o.hint && (mayHold || !LocalHolds(cfg, s0.cells, e.key))
    requires SafelyRouted(cfg, s0.view, e.key, o.hint)
    requires PassedBy(cfg, s0.view, e.key, o.hint, mayHold, g.skipCache)
    ensures answer.Found? && answer.entry.value == e.value
  {
    BigNeedsHealthy(cfg, s0, e, o, setActs, s1);
    var r := SafeWrites(cfg, s0.view, e.key, o.hint);
    var strict := cfg.hasLocal && mayHold;
    if strict {
      PassedHeads(cfg, s0.view, e.key, o.hint, r, mayHold, g.skipCache);
    }
    hide CanRead, Proceed, CanWrite, WB.Step, RunFrom, PassedBy, SafelyRouted;
    BigSetLeaves(cfg, s0, e, o, setActs, s1, r, !strict);
    var i := |s1.tasks|;
    var t := Step(cfg, s1, Issue(GetRequest(e.key, g)));
    assert t.tasks == s1.tasks + [Start(cfg, GetRequest(e.key, g))] && t.view == s1.view;
    assert Getting(cfg, t, i, e.key, g, e.value, r, strict);
    RunGetting(cfg, t, getActs, i, e.key, g, e.value, r, strict);
  }

  // ----- Where it does not -----

  /** A value just above the limit, and not empty. */
  function Big(cfg: Config, key: string): (e: Entry)
    ensures |e.value| > MaxSize(cfg) && |e.value| > 0
  {
    Entry(key, seq(if MaxSize(cfg) >= 0 then MaxSize(cfg) + 1 else 1, _ => 1), 0, 0)
  }

  function Plain(hint: string): SetOptions {
    SetOptions(0, hint, 0, None, false)
  }

  lemma BigSets(cfg: Config, cells: Cells, v: View, key: string, hint: string, b: string, forgets: bool)
    returns (acts: seq<Action>, s1: Service)
    requires CanWrite(v, key, hint, Some(b))
    ensures BigSetRan(cfg, Init(cells, v), Big(cfg, key), Plain(hint), acts, s1) && s1.view == v
    ensures s1.cells == cells[(b, key) := Big(cfg, key).value] - if forgets then LocalCell(cfg, key) else {}
  {
    var e := Big(cfg, key);
    var t0 := Step(cfg, Init(cells, v), Issue(SetRequest(e, Plain(hint))));
    var go := Advance(0, YES.(route := Some(b)));
    PassesThrough(cfg, cells, v, e, hint, b, go);
    acts := [go, go];
    s1 := RunFrom(cfg, t0, acts);
    hide CanWrite, CanRead, Step, RunFrom, Big, LocalCell;
    if forgets {
      var more := LocalForgets(cfg, s1, key);
      RunAppend(cfg, t0, acts, more);
      s1 := RunFrom(cfg, t0, acts + more);
      CalmConcat(cfg, acts, more);
      acts := acts + more;
    }
  }

  lemma PassesThrough(cfg: Config, cells: Cells, v: View, e: Entry, hint: string, b: string, go: Action)
    requires |e.value| > MaxSize(cfg) && CanWrite(v, e.key, hint, Some(b))
    requires go == Advance(0, YES.(route := Some(b)))
    ensures RunFrom(cfg, Step(cfg, Init(cells, v), Issue(SetRequest(e, Plain(hint)))), [go, go])
         == Init(cells, v).(tasks := [Done(Completed)], cells := cells[(b, e.key) := e.value],
                            taken := {(e.key, e.value)})
  {
    hide CanWrite, CanRead;
    var s0 := Init(cells, v);
    var t0 := Step(cfg, s0, Issue(SetRequest(e, Plain(hint))));
    assert t0 == s0.(tasks := [SetRoute(e, hint, Pass)]);
    var t1 := Step(cfg, t0, go);
    assert t1 == t0.(tasks := [SetStore(e, b, Pass)]);
    assert Step(cfg, t1, go)
        == s0.(tasks := [Done(Completed)], cells := cells[(b, e.key) := e.value], taken := {(e.key, e.value)});
    hide Step, RunFrom;
    RunTwo(cfg, t0, go, go);
  }

  /** A big Set to b, and a Get along some route, in the middle of which something else comes first. */
  lemma BigFails(
    cfg: Config, cells: Cells, v: View, key: string, hint: string, b: string, forgets: bool,
    route: seq<string>, mayHold: bool, skips: bool)
    requires CanWrite(v, key, hint, Some(b)) && CanRead(v, key, hint, route)
    requires mayHold || !LocalHolds(cfg, cells, key)
    requires var after := cells[(b, key) := Big(cfg, key).value] - if forgets then LocalCell(cfg, key) else {};
      && (LocalHolds(cfg, after, key) ==> skips)
      && FirstHeld(after, route, key) != Some(Big(cfg, key).value)
    ensures !AlwaysReadsBig(cfg, v, key, hint, mayHold, skips)
  {
    var setActs, s1 := BigSets(cfg, cells, v, key, hint, b, forgets);
    var g := GetOptions(0, hint, skips);
    hide CanWrite, CanRead, BigSetRan, GetRan, Answers, Big;
    var getActs, answer := AnswersAlong(cfg, s1, key, g, route);
    AnswersIsRan(cfg, s1, key, g, getActs, answer);
  }

  /** The local cache goes on answering the value it had before. */
  lemma LocalAnswersOld(cfg: Config, v: View, key: string, hint: string, b: string)
    requires cfg.hasLocal && b != cfg.localId && CanWrite(v, key, hint, Some(b))
    ensures !AlwaysReadsBig(cfg, v, key, hint, true, false)
  {
    var cells: Cells := map[(cfg.localId, key) := []];
    var setActs, s1 := BigSets(cfg, cells, v, key, hint, b, false);
    var g := GetOptions(0, hint, false);
    hide CanWrite, CanRead, BigSetRan, GetRan, Big, Step, RunFrom;
    var getActs, t := LooksLocally(cfg, s1, key, g);
    var answer := t.tasks[|s1.tasks|].answer;
    assert Answers(cfg, s1, key, g, getActs, answer);
    AnswersIsRan(cfg, s1, key, g, getActs, answer);
  }

  lemma UnsafeBig(cfg: Config, v: View, key: string, hint: string, mayHold: bool, skips: bool)
    requires !SafelyRouted(cfg, v, key, hint)
    ensures !AlwaysReadsBig(cfg, v, key, hint, mayHold, skips)
  {
    var local, b, c := UnsafeRouting(cfg, v, key, hint);
    hide AlwaysReadsBig, SafelyRouted;
    if local {
      var route := SomeRoute(v, key, hint);
      NothingHeld(route, key);
      assert map[(cfg.localId, key) := Big(cfg, key).value] - LocalCell(cfg, key) == map[];
      BigFails(cfg, map[], v, key, hint, cfg.localId, true, route, mayHold, skips);
    } else {
      var route := UnresolvedRoute(v, key, hint, c);
      BigFails(cfg, map[(c, key) := []], v, key, hint, b, false, route, mayHold, skips);
    }
  }

  /** A safely routed Set above the limit, and a local cache that answers before the backend. */
  lemma NotPassedBy(cfg: Config, v: View, key: string, hint: string, mayHold: bool, skips: bool)
    requires SafelyRouted(cfg, v, key, hint) && v.healthy != map[]
    requires !PassedBy(cfg, v, key, hint, mayHold, skips)
    ensures !AlwaysReadsBig(cfg, v, key, hint, mayHold, skips)
  {
    var r := SafeIsSteady(cfg, v, key, hint);
    var w := SomeWrite(v, key, hint);
    assert w == Some(r);
    hide AlwaysReadsBig, SafelyRouted, Steady, CanWrite;
    if !skips {
      LocalAnswersOld(cfg, v, key, hint, r);
    } else {
      var route := UnresolvedRoute(v, key, hint, cfg.localId);
      BigFails(cfg, map[(cfg.localId, key) := []], v, key, hint, r, false, route, mayHold, skips);
    }
  }

  /** A completed Set above the size limit is sure to be read back exactly when the key is safely routed and
      the local cache, which the Set does not clear, cannot answer first; or when no Set can complete. */
  lemma BigReadsBackIff(cfg: Config, v: View, key: string, hint: string, mayHold: bool, skips: bool)
    ensures AlwaysReadsBig(cfg, v, key, hint, mayHold, skips)
       <==> v.healthy == map[]
            || (SafelyRouted(cfg, v, key, hint) && PassedBy(cfg, v, key, hint, mayHold, skips))
  {
    if v.healthy == map[] || (SafelyRouted(cfg, v, key, hint) && PassedBy(cfg, v, key, hint, mayHold, skips)) {
      forall s0: Service, e: Entry, o: SetOptions, setActs, s1, g: GetOptions, getActs, answer |
        && s0.view == v && e.key == key && o.hint == hint && g.hint == hint && g.skipCache == skips
        && (mayHold || !LocalHolds(cfg, s0.cells, key))
        && BigSetRan(cfg, s0, e, o, setActs, s1) && GetRan(cfg, s1, key, g, getActs, answer)
        ensures answer.Found? && answer.entry.value == e.value
      {
        hide BigSetRan, GetRan;
        BigNeedsHealthy(cfg, s0, e, o, setActs, s1);
        BigReadsBack(cfg, s0, e, o, setActs, s1, g, getActs, answer, mayHold);
      }
    } else if !SafelyRouted(cfg, v, key, hint) {
      UnsafeBig(cfg, v, key, hint, mayHold, skips);
    } else {
      NotPassedBy(cfg, v, key, hint, mayHold, skips);
    }
  }
}
