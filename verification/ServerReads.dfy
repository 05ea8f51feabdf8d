/** Read-your-writes of the service object: its imperative Set and Get, end to end. */
module ServerReads {
  import opened Storage
  import opened Routing
  import opened CacheService
  import opened ReadYourWrites
  import opened OneGoroutine
  import opened CacheServer

  /** A failed local Set leaves its key absent, and backends answer. */
  predicate Reliable(ch: Choice) {
    (ch.localOk || ch.localEffect.Dropped?) && ch.backendOk
  }

  lemma RunFront(cfg: Config, s: Service, acts: seq<Action>)
    requires acts != []
    ensures RunFrom(cfg, s, acts) == RunFrom(cfg, Step(cfg, s, acts[0]), acts[1..])
  {
    hide Step;
    RunAppend(cfg, s, [acts[0]], acts[1..]);
    OneStep(cfg, s, acts[0]);
    assert [acts[0]] + acts[1..] == acts;
  }

  lemma FollowsIsCalm(cfg: Config, acts: seq<Action>, i: nat, ch: Choice)
    requires Follows(acts, i, ch) && Reliable(ch)
    ensures Calm(cfg, acts)
  {
    forall n | 0 <= n < |acts| ensures CalmAction(cfg, acts[n]) {
      var c := acts[n].choice;
      assert c.(route := None, order := []).localOk == c.localOk;
    }
  }

  lemma ReadsIsCalm(cfg: Config, s: Service, acts: seq<Action>, i: nat, ch: Choice, answers: string -> Choice)
    requires Reads(cfg, s, acts, i, ch, answers) && Reliable(ch) && forall b :: Reliable(answers(b))
    ensures Calm(cfg, acts)
  {
    hide RunFrom;
    forall n | 0 <= n < |acts| ensures CalmAction(cfg, acts[n]) {
      assert ReadsAt(cfg, s, acts, n, i, ch, answers);
      var c := acts[n].choice;
      assert c.(route := None, order := []).localOk == c.localOk;
    }
  }

  lemma CalmAppend(cfg: Config, acts: seq<Action>, a: Action)
    requires Calm(cfg, acts) && CalmAction(cfg, a)
    ensures Calm(cfg, acts + [a])
  {}

  lemma StartsSetting(cfg: Config, s0: Service, e: Entry, o: SetOptions, r: string)
    requires AllDone(s0) && |e.value| <= MaxSize(cfg)
    ensures var t0 := Step(cfg, s0, Issue(SetRequest(e, o)));
      Setting(cfg, t0, |s0.tasks|, e, o, r) && t0.view == s0.view
  {
    var t0 := Step(cfg, s0, Issue(SetRequest(e, o)));
    assert t0.tasks == s0.tasks + [SetCheck(e, o)];
  }

  lemma SettledOrBackfill(cfg: Config, s: Service, i: nat, e: Entry, o: SetOptions, r: string)
    requires Setting(cfg, s, i, e, o, r) && s.tasks[i] == Done(Completed)
    ensures |s.tasks| <= i + 2 && (forall j | 0 <= j <= i :: s.tasks[j].Done?)
    ensures |s.tasks| == i + 2 ==> s.tasks[i + 1].Done? || s.tasks[i + 1].Backfill?
  {}

  lemma BackfillSettles(cfg: Config, s: Service, j: nat, ch: Choice)
    requires |s.tasks| == j + 1 && s.tasks[j].Backfill?
    requires forall i | 0 <= i < j :: s.tasks[i].Done?
    ensures var t := Step(cfg, s, Advance(j, ch));
      AllDone(t) && |t.tasks| == |s.tasks| && (forall i | 0 <= i < j :: t.tasks[i] == s.tasks[i])
  {
    assert s.tasks[j := Done(Completed)] + [] == s.tasks[j := Done(Completed)];
  }

  /** Set on the object, as a calm run from its request. */
  method SetOnce(s: Server, e: Entry, o: SetOptions, ch: Choice, ghost r: string)
    returns (stored: Answer, ghost acts: seq<Action>)
    requires s.Valid() && AllDone(s.Snapshot()) && |e.value| <= MaxSize(s.cfg) && SyncMode(s.cfg, o)
    requires Reliable(ch) && WritesTo(s.cfg, s.router.View(), e.key, o.hint, r)
    modifies s
    ensures s.Snapshot() == RunFrom(s.cfg, Step(s.cfg, old(s.Snapshot()), Issue(SetRequest(e, o))), acts)
    ensures Calm(s.cfg, acts) && Setting(s.cfg, s.Snapshot(), |old(s.tasks)|, e, o, r)
    ensures s.tasks[|old(s.tasks)|] == Done(stored)
  {
    ghost var s0 := s.Snapshot();
    var i := |s.tasks|;
    stored, acts := s.Set(e, o, ch);
    hide Step, RunFrom, WritesTo, Setting, Calm, Follows;
    RunFront(s.cfg, s0, acts);
    acts := acts[1..];
    FollowsIsCalm(s.cfg, acts, i, ch);
    StartsSetting(s.cfg, s0, e, o, r);
    RunSetting(s.cfg, Step(s.cfg, s0, Issue(SetRequest(e, o))), acts, i, e, o, r);
  }

  /** The backfill of a completed Set runs, if there is one. */
  method Settle(s: Server, i: nat, ch: Choice, ghost e: Entry, ghost o: SetOptions, ghost r: string)
    returns (ghost acts: seq<Action>)
    requires s.Valid() && Reliable(ch)
    requires Setting(s.cfg, s.Snapshot(), i, e, o, r) && s.tasks[i] == Done(Completed)
    modifies s
    ensures s.Snapshot() == RunFrom(s.cfg, old(s.Snapshot()), acts) && Calm(s.cfg, acts)
    ensures AllDone(s.Snapshot()) && i < |s.tasks| && s.tasks[i] == Done(Completed)
  {
    ghost var s1 := s.Snapshot();
    SettledOrBackfill(s.cfg, s1, i, e, o, r);
    hide Step, RunFrom, Setting;
    acts := [];
    if |s.tasks| == i + 2 && s.tasks[i + 1].Backfill? {
      s.RunBackfill(i + 1, ch);
      BackfillSettles(s.cfg, s1, i + 1, ch);
      acts := [Advance(i + 1, ch)];
      OneStep(s.cfg, s1, acts[0]);
    } else {
      NoSteps(s.cfg, s1);
    }
  }

  /** Set on the object, up to the point where its backfill has run and the local cache may have dropped
      the key again. */
  method SetAndSettle(s: Server, e: Entry, o: SetOptions, ch: Choice, evict: bool, ghost r: string)
    returns (stored: Answer, ghost acts: seq<Action>)
    requires s.Valid() && AllDone(s.Snapshot()) && |e.value| <= MaxSize(s.cfg) && SyncMode(s.cfg, o)
    requires Reliable(ch) && WritesTo(s.cfg, s.router.View(), e.key, o.hint, r)
    modifies s
    ensures stored == Completed ==> SetRan(s.cfg, old(s.Snapshot()), e, o, acts, s.Snapshot())
  {
    ghost var s0 := s.Snapshot();
    ghost var t0 := Step(s.cfg, s0, Issue(SetRequest(e, o)));
    var i := |s.tasks|;
    stored, acts := SetOnce(s, e, o, ch, r);
    if stored != Completed {
      return;
    }
    hide Step, RunFrom, WritesTo, Setting, Calm;
    ghost var more := Settle(s, i, ch, e, o, r);
    RunAppend(s.cfg, t0, acts, more);
    CalmConcat(s.cfg, acts, more);
    acts := acts + more;
    if evict && s.cfg.hasLocal {
      s.EvictLocal(e.key);
      RunOne(s.cfg, t0, acts, Evict(s.cfg.localId, e.key));
      CalmAppend(s.cfg, acts, Evict(s.cfg.localId, e.key));
      acts := acts + [Evict(s.cfg.localId, e.key)];
      EvictKeepsTasks(s.cfg, RunFrom(s.cfg, t0, acts[..|acts| - 1]), e.key);
    }
  }

  lemma EvictKeepsTasks(cfg: Config, s: Service, k: string)
    ensures Step(cfg, s, Evict(cfg.localId, k)).tasks == s.tasks
  {}

  /** A completed cache-aside or write-through Set of a safely routed key on the service object is what its
      next Get answers, whether the local cache kept the value or dropped it. */
  method SetThenGet(
    s: Server, e: Entry, o: SetOptions, chSet: Choice, evict: bool,
    g: GetOptions, chGet: Choice, answers: string -> Choice)
    returns (stored: Answer, read: Answer)
    requires s.Valid() && AllDone(s.Snapshot()) && |e.value| <= MaxSize(s.cfg) && SyncMode(s.cfg, o)
    requires Reliable(chSet) && Reliable(chGet) && forall b :: Reliable(answers(b))
    requires g.hint == o.hint && g.version == 0
    requires SafelyRouted(s.cfg, s.router.View(), e.key, o.hint)
    modifies s
    ensures stored == Completed ==> read.Found? && read.entry.key == e.key && read.entry.value == e.value
  {
    ghost var s0 := s.Snapshot();
    ghost var r := SafeWrites(s.cfg, s0.view, e.key, o.hint);
    ghost var setActs;
    stored, setActs := SetAndSettle(s, e, o, chSet, evict, r);
    ghost var s1 := s.Snapshot();
    ghost var getActs;
    read, getActs := s.Get(e.key, g, chGet, answers);
    hide Step, RunFrom, Resolve, Steady, WritesTo;
    RunFront(s.cfg, s1, getActs);
    ReadsIsCalm(s.cfg, Step(s.cfg, s1, getActs[0]), getActs[1..], |s1.tasks|, chGet, answers);
    if stored == Completed {
      NothingHealthy(s.cfg, s0, e, o, setActs, s1);
      assert GetRan(s.cfg, s1, e.key, g, getActs[1..], read);
      ReadYourWrite(s.cfg, s0, e, o, setActs, s1, g, getActs[1..], read, r);
    }
  }
}
