/**
 The cache service as imperative code, one request at a time, over the router object.  Every request is
 proved to be a run of the step system of CacheService, so Provenance, LocalContents and ReadYourWrites
 speak about it.  What the stores answer is a parameter; what the router answers is not.
 */
module CacheServer {
  import opened Storage
  import opened Routing
  import opened Backends
  import R = Router
  import opened CacheService
  import opened OneGoroutine
  import WB = WriteBehind

  class Server {
    const cfg: Config
    const router: R.Router
    var cells: Cells
    var pipe: WB.Pipe
    var tasks: seq<Task>           // the goroutines of requests and backfills
    ghost var taken: set<(string, Bytes)>

    ghost predicate Valid()
      reads this, router
    {
      router.Valid()
    }

    /** The state of the step system this object stands for. */
    ghost function Snapshot(): Service
      reads this, router, router.backends.Values
    {
      Service(cells, pipe, tasks, router.View(), taken)
    }

    constructor (cfg: Config, router: R.Router, cells: Cells)
      requires router.Valid()
      ensures Valid() && this.cfg == cfg && this.router == router
      ensures Snapshot() == Init(cells, router.View())
    {
      this.cfg, this.router, this.cells := cfg, router, cells;
      pipe, tasks, taken := WB.Init, [], {};
    }

    // ----- Single steps -----

    /** A request arrives. */
    method Begin(r: Request) returns (i: nat)
      requires Valid()
      modifies `tasks
      ensures i == |old(tasks)| && tasks == old(tasks) + [Start(cfg, r)]
      ensures Snapshot() == Step(cfg, old(Snapshot()), Issue(r))
    {
      i := |tasks|;
      tasks := tasks + [Start(cfg, r)];
    }

    /** The version check of Set, against the local cache only. */
    method CheckVersion(i: nat, ch: Choice) returns (mismatch: bool)
      requires Valid() && i < |tasks| && tasks[i].SetCheck?
      modifies `tasks
      ensures Snapshot() == Step(cfg, old(Snapshot()), Advance(i, ch)) && |tasks| == |old(tasks)|
      ensures var e, o := old(tasks)[i].e, old(tasks)[i].o;
        tasks[i] == if mismatch then Done(Refused(VersionMismatch))
                    else Dispatch(cfg, e.(ttl := GetTtl(cfg, e.ttl, o.ttl)), o)
    {
      var e, o := tasks[i].e, tasks[i].o;
      mismatch := false;
      if o.checkVersion && o.version > 0 {
        if cfg.hasLocal {
          mismatch := ch.localOk && (cfg.localId, e.key) in cells && ch.version != o.version;
        }
      }
      tasks := tasks[i := if mismatch then Done(Refused(VersionMismatch))
                          else Dispatch(cfg, e.(ttl := GetTtl(cfg, e.ttl, o.ttl)), o)];
      assert tasks + [] == tasks;
    }

    method WriteLocal(i: nat, ch: Choice)
      requires Valid() && i < |tasks| && tasks[i].SetLocal?
      modifies `tasks, `cells
      ensures Snapshot() == Step(cfg, old(Snapshot()), Advance(i, ch)) && |tasks| == |old(tasks)|
      ensures var t := old(tasks)[i];
        tasks[i] == if t.behind then SetEnqueue(t.e, t.hint) else SetRoute(t.e, t.hint, Aside)
    {
      var t := tasks[i];
      cells := Put(cells, cfg.localId, t.e, ch.localOk, ch.localEffect);
      tasks := tasks[i := if t.behind then SetEnqueue(t.e, t.hint) else SetRoute(t.e, t.hint, Aside)];
      assert tasks + [] == tasks;
    }

    /** Ask the router where to write. */
    method AskRouter(i: nat, ch: Choice) returns (route: Option<string>)
      requires Valid() && i < |tasks| && tasks[i].SetRoute?
      modifies `tasks
      ensures Snapshot() == Step(cfg, old(Snapshot()), Advance(i, ch.(route := route))) && |tasks| == |old(tasks)|
      ensures var t := old(tasks)[i];
        tasks[i] == if route.None? then Done(Refused(BackendUnhealthy)) else SetStore(t.e, route.value, t.path)
    {
      var t := tasks[i];
      var r := router.GetBackend(t.e.key, t.hint);
      hide CanWrite;
      route := if r.Ok? then Some(r.value.id) else None;
      tasks := tasks[i := if route.None? then Done(Refused(BackendUnhealthy)) else SetStore(t.e, route.value, t.path)];
      assert tasks + [] == tasks;
    }

    /** backend.Set, and the backfill goroutine of a successful write-through. */
    method WriteBackend(i: nat, ch: Choice) returns (answer: Answer)
      requires Valid() && i < |tasks| && tasks[i].SetStore?
      modifies `tasks, `cells, `taken
      ensures Snapshot() == Step(cfg, old(Snapshot()), Advance(i, ch))
      ensures |tasks| >= |old(tasks)| && tasks[i] == Done(answer)
      ensures answer == if ch.backendOk then Completed else Refused(ch.error)
    {
      var t := tasks[i];
      cells := Put(cells, t.backend, t.e, ch.backendOk, ch.backendEffect);
      if ch.backendOk || ch.backendEffect.Applied? {
        taken := taken + {(t.e.key, t.e.value)};
      }
      answer := if ch.backendOk then Completed else Refused(ch.error);
      tasks := tasks[i := Done(answer)];
      var spawned: seq<Task> := [];
      if ch.backendOk && t.path.Through? && cfg.hasLocal {
        spawned := [Backfill(t.e)];
      }
      tasks := tasks + spawned;
    }

    // ----- The Set paths -----

    /** From the router on: the common end of all synchronous Set paths. */
    method RouteAndWrite(i: nat, ch: Choice) returns (answer: Answer, ghost acts: seq<Action>)
      requires Valid() && i < |tasks| && tasks[i].SetRoute?
      modifies `tasks, `cells, `taken
      ensures |tasks| >= |old(tasks)| && tasks[i] == Done(answer)
      ensures Follows(acts, i, ch)
      ensures Snapshot() == RunFrom(cfg, old(Snapshot()), acts)
      ensures answer.Refused? || (answer.Completed? && ch.backendOk)
    {
      ghost var s := Snapshot();
      hide Follows, FromStores;
      var route := AskRouter(i, ch);
      SameStores(ch, route, ch.order);
      FollowsOne(i, ch.(route := route), ch);
      FollowsOne(i, ch, ch);
      acts := [Advance(i, ch.(route := route))];
      OneStep(cfg, s, acts[0]);
      if route.None? {
        return Refused(BackendUnhealthy), acts;
      }
      hide Step, RunFrom;
      answer := WriteBackend(i, ch);
      RunOne(cfg, s, acts, Advance(i, ch));
      FollowsConcat(acts, [Advance(i, ch)], i, ch);
      acts := acts + [Advance(i, ch)];
    }

    method SetCacheAside(i: nat, ch: Choice) returns (answer: Answer, ghost acts: seq<Action>)
      requires Valid() && i < |tasks|
      requires if cfg.hasLocal then tasks[i].SetLocal? && !tasks[i].behind else tasks[i].SetRoute?
      modifies `tasks, `cells, `taken
      ensures |tasks| >= |old(tasks)| && tasks[i] == Done(answer)
      ensures Follows(acts, i, ch)
      ensures Snapshot() == RunFrom(cfg, old(Snapshot()), acts)
    {
      ghost var s := Snapshot();
      acts := [];
      hide Step, Follows, FromStores;
      SameStores(ch, None, []);
      FollowsOne(i, ch, ch);
      if cfg.hasLocal {
        WriteLocal(i, ch);
        acts := [Advance(i, ch)];
        OneStep(cfg, s, acts[0]);
      }
      ghost var more;
      answer, more := RouteAndWrite(i, ch);
      RunAppend(cfg, s, acts, more);
      FollowsConcat(acts, more, i, ch);
      acts := acts + more;
    }

    /** A full queue turns the write into a write-through. */
    method SetWriteBehind(i: nat, ch: Choice) returns (answer: Answer, ghost acts: seq<Action>)
      requires Valid() && i < |tasks|
      requires if cfg.hasLocal then tasks[i].SetLocal? && tasks[i].behind else tasks[i].SetEnqueue?
      modifies `tasks, `cells, `taken, `pipe
      ensures |tasks| >= |old(tasks)| && tasks[i] == Done(answer)
      ensures Follows(acts, i, ch)
      ensures Snapshot() == RunFrom(cfg, old(Snapshot()), acts)
      ensures |old(pipe).queue| < WB.QUEUE_CAPACITY ==>
                answer == Completed && pipe == WB.Step(old(pipe), WB.Enqueue(old(tasks)[i].e))
      ensures |old(pipe).queue| >= WB.QUEUE_CAPACITY ==> pipe == old(pipe)
    {
      ghost var s := Snapshot();
      acts := [];
      hide RunFrom, Proceed, WB.Step, Follows, FromStores;
      SameStores(ch, None, []);
      FollowsOne(i, ch, ch);
      var e := tasks[i].e;
      if cfg.hasLocal {
        WriteLocal(i, ch);
        acts := [Advance(i, ch)];
        OneStep(cfg, s, acts[0]);
      } else {
        NoSteps(cfg, s);
      }
      ghost var mid := acts;
      var queued := TryEnqueue(i, ch);
      RunOne(cfg, s, mid, Advance(i, ch));
      FollowsConcat(mid, [Advance(i, ch)], i, ch);
      acts := mid + [Advance(i, ch)];
      if queued {
        return Completed, acts;
      }
      hide Step;
      ghost var more;
      answer, more := RouteAndWrite(i, ch);
      RunAppend(cfg, s, acts, more);
      FollowsConcat(acts, more, i, ch);
      acts := acts + more;
    }

    /** The select with a default branch. */
    method TryEnqueue(i: nat, ch: Choice) returns (queued: bool)
      requires Valid() && i < |tasks| && tasks[i].SetEnqueue?
      modifies `tasks, `pipe
      ensures queued <==> |old(pipe).queue| < WB.QUEUE_CAPACITY
      ensures Snapshot() == Step(cfg, old(Snapshot()), Advance(i, ch)) && |tasks| == |old(tasks)|
      ensures pipe == if queued then WB.Step(old(pipe), WB.Enqueue(old(tasks)[i].e)) else old(pipe)
      ensures tasks[i] == if queued then Done(Completed) else SetRoute(old(tasks)[i].e, old(tasks)[i].hint, Through)
    {
      var t := tasks[i];
      queued := |pipe.queue| < WB.QUEUE_CAPACITY;
      if queued {
        pipe := WB.Step(pipe, WB.Enqueue(t.e));
        tasks := tasks[i := Done(Completed)];
      } else {
        tasks := tasks[i := SetRoute(t.e, t.hint, Through)];
      }
      assert tasks + [] == tasks;
    }

    /** Set: oversized values pass the local cache by; otherwise the mode decides. */
    method Set(e: Entry, o: SetOptions, ch: Choice) returns (answer: Answer, ghost acts: seq<Action>)
      requires Valid()
      modifies `tasks, `cells, `taken, `pipe
      ensures |tasks| > |old(tasks)| && tasks[|old(tasks)|] == Done(answer)
      ensures acts != [] && acts[0] == Issue(SetRequest(e, o)) && Follows(acts[1..], |old(tasks)|, ch)
      ensures Snapshot() == RunFrom(cfg, old(Snapshot()), acts)
    {
      ghost var s := Snapshot();
      var i := Begin(SetRequest(e, o));
      acts := [Issue(SetRequest(e, o))];
      OneStep(cfg, s, acts[0]);
      ghost var more;
      hide Step, RunFrom, Follows, FromStores;
      SameStores(ch, None, []);
      FollowsOne(i, ch, ch);
      assert acts[1..] == [];
      if |e.value| > MaxSize(cfg) {
        answer, more := RouteAndWrite(i, ch);
        RunAppend(cfg, s, acts, more);
        RestConcat(acts, more, i, ch);
        acts := acts + more;
        return;
      }
      var mismatch := CheckVersion(i, ch);
      RunOne(cfg, s, acts, Advance(i, ch));
      RestConcat(acts, [Advance(i, ch)], i, ch);
      acts := acts + [Advance(i, ch)];
      if mismatch {
        return Refused(VersionMismatch), acts;
      }
      match ModeOf(cfg, o) {
        case WriteThrough => answer, more := RouteAndWrite(i, ch);
        case WriteBehind => answer, more := SetWriteBehind(i, ch);
        case CacheAside => answer, more := SetCacheAside(i, ch);
      }
      RunAppend(cfg, s, acts, more);
      RestConcat(acts, more, i, ch);
      acts := acts + more;
    }

    // ----- Get and Delete -----

    /** The local lookup of Get; no answer means a miss. */
    method ReadLocal(i: nat, ch: Choice) returns (answer: Option<Answer>)
      requires Valid() && i < |tasks| && tasks[i].GetLocal?
      modifies `tasks
      ensures Snapshot() == Step(cfg, old(Snapshot()), Advance(i, ch)) && |tasks| == |old(tasks)|
      ensures tasks[i] == if answer.Some? then Done(answer.value) else GetRoute(old(tasks)[i].k, old(tasks)[i].g)
    {
      var k, g := tasks[i].k, tasks[i].g;
      answer := None;
      if ch.localOk && (cfg.localId, k) in cells {
        var entry := Entry(k, cells[(cfg.localId, k)], ch.version, 0);
        answer := Some(if cfg.enableVersioning && g.version > 0 && entry.version != g.version
                       then Refused(VersionMismatch) else Found(entry));
      }
      tasks := tasks[i := if answer.Some? then Done(answer.value) else GetRoute(k, g)];
      assert tasks + [] == tasks;
    }

    /** One backend of the read route; a hit within the size limit spawns a backfill. */
    method ReadBackend(i: nat, ch: Choice) returns (answer: Option<Answer>)
      requires Valid() && i < |tasks| && tasks[i].GetStore? && tasks[i].rest != []
      modifies `tasks, `taken
      ensures Snapshot() == Step(cfg, old(Snapshot()), Advance(i, ch)) && |tasks| >= |old(tasks)|
      ensures answer.Some? ==> tasks[i] == Done(answer.value)
      ensures answer.None? ==>
                && tasks[i].GetStore? && tasks[i].k == old(tasks)[i].k && tasks[i].g == old(tasks)[i].g
                && tasks[i].rest == old(tasks)[i].rest[1..]
    {
      var t := tasks[i];
      var spawned: seq<Task> := [];
      answer := None;
      if ch.backendOk && (t.rest[0], t.k) in cells {
        var entry := Entry(t.k, cells[(t.rest[0], t.k)], ch.version, 0);
        taken := taken + {(t.k, entry.value)};
        if cfg.enableVersioning && t.g.version > 0 && entry.version != t.g.version {
          answer := Some(Refused(VersionMismatch));
        } else {
          answer := Some(Found(entry));
          if cfg.hasLocal && !t.g.skipCache && |entry.value| <= MaxSize(cfg) {
            spawned := [Backfill(entry)];
          }
        }
        tasks := tasks[i := Done(answer.value)];
      } else {
        var lastErr := if !ch.backendOk && !ch.error.KeyNotFound? then Some(ch.error) else t.lastErr;
        tasks := tasks[i := GetStore(t.k, t.g, t.rest[1..], lastErr)];
      }
      tasks := tasks + spawned;
    }

    /** Get: the local cache first, then the read route in order; `answers` is what each backend does. */
    method Get(k: string, g: GetOptions, ch: Choice, answers: string -> Choice)
      returns (answer: Answer, ghost acts: seq<Action>)
      requires Valid()
      modifies `tasks, `taken
      ensures |tasks| > |old(tasks)| && tasks[|old(tasks)|] == Done(answer)
      ensures acts != [] && acts[0] == Issue(GetRequest(k, g))
      ensures Reads(cfg, Step(cfg, old(Snapshot()), acts[0]), acts[1..], |old(tasks)|, ch, answers)
      ensures Snapshot() == RunFrom(cfg, old(Snapshot()), acts)
      ensures cells == old(cells)
    {
      ghost var s := Snapshot();
      ghost var issue := Issue(GetRequest(k, g));
      var i := Begin(GetRequest(k, g));
      OneStep(cfg, s, issue);
      hide RunFrom, Step, Reads;
      ghost var more;
      answer, more := FindValue(i, ch, answers);
      RunAppend(cfg, s, [issue], more);
      acts := [issue] + more;
      assert acts[1..] == more;
    }

    method FindValue(i: nat, ch: Choice, answers: string -> Choice) returns (answer: Answer, ghost acts: seq<Action>)
      requires Valid() && i < |tasks|
      requires (tasks[i].GetLocal? && cfg.hasLocal) || tasks[i].GetRoute?
      modifies `tasks, `taken
      ensures |tasks| >= |old(tasks)| && tasks[i] == Done(answer) && cells == old(cells)
      ensures Reads(cfg, old(Snapshot()), acts, i, ch, answers)
      ensures Snapshot() == RunFrom(cfg, old(Snapshot()), acts)
    {
      ghost var s := Snapshot();
      acts := [];
      NoSteps(cfg, s);
      SameStores(ch, None, []);
      ReadsOne(cfg, s, i, ch, ch, answers);
      hide RunFrom, Step, Reads, FromStores;
      if tasks[i].GetLocal? {
        var hit := ReadLocal(i, ch);
        acts := [Advance(i, ch)];
        OneStep(cfg, s, acts[0]);
        if hit.Some? {
          return hit.value, acts;
        }
      }
      ghost var more;
      answer, more := ReadRouted(i, ch, answers);
      RunAppend(cfg, s, acts, more);
      ReadsConcat(cfg, s, acts, more, i, ch, answers);
      acts := acts + more;
    }

    /** From the router on. */
    method ReadRouted(i: nat, ch: Choice, answers: string -> Choice)
      returns (answer: Answer, ghost acts: seq<Action>)
      requires Valid() && i < |tasks| && tasks[i].GetRoute?
      modifies `tasks, `taken
      ensures |tasks| >= |old(tasks)| && tasks[i] == Done(answer) && cells == old(cells)
      ensures Reads(cfg, old(Snapshot()), acts, i, ch, answers)
      ensures Snapshot() == RunFrom(cfg, old(Snapshot()), acts)
    {
      ghost var s := Snapshot();
      var route := ReadRoute(i, ch);
      acts := [Advance(i, ch.(order := route))];
      OneStep(cfg, s, acts[0]);
      SameStores(ch, ch.route, route);
      ReadsOne(cfg, s, i, ch.(order := route), ch, answers);
      hide RunFrom, Step, Reads, FromStores;
      if |route| == 0 {
        return Refused(BackendUnhealthy), acts;
      }
      ghost var more;
      answer, more := WalkRoute(i, ch, answers);
      RunAppend(cfg, s, acts, more);
      ReadsConcat(cfg, s, acts, more, i, ch, answers);
      acts := acts + more;
    }

    /** The loop over the backends of the read route. */
    method WalkRoute(i: nat, ch: Choice, answers: string -> Choice)
      returns (answer: Answer, ghost acts: seq<Action>)
      requires Valid() && i < |tasks| && tasks[i].GetStore?
      modifies `tasks, `taken
      ensures |tasks| >= |old(tasks)| && tasks[i] == Done(answer) && cells == old(cells)
      ensures Reads(cfg, old(Snapshot()), acts, i, ch, answers)
      ensures Snapshot() == RunFrom(cfg, old(Snapshot()), acts)
    {
      ghost var s := Snapshot();
      var route := tasks[i].rest;
      acts := [];
      NoSteps(cfg, s);
      SameStores(ch, None, []);
      assert Reads(cfg, s, [], i, ch, answers);
      hide RunFrom, Step, Reads, FromStores;
      for n := 0 to |route|
        invariant i < |tasks| && |tasks| >= |old(tasks)| && cells == old(cells)
        invariant tasks[i].GetStore? && tasks[i].rest == route[n..]
        invariant Reads(cfg, s, acts, i, ch, answers) && Snapshot() == RunFrom(cfg, s, acts)
      {
        ReadsNext(cfg, s, acts, i, answers(route[n]), ch, answers);
        var hit := ReadBackend(i, answers(route[n]));
        acts := acts + [Advance(i, answers(route[n]))];
        if hit.Some? {
          return hit.value, acts;
        }
      }
      ReadsNext(cfg, s, acts, i, ch, ch, answers);
      answer := GiveUp(i, ch);
      acts := acts + [Advance(i, ch)];
    }

    method ReadRoute(i: nat, ch: Choice) returns (route: seq<string>)
      requires Valid() && i < |tasks| && tasks[i].GetRoute?
      modifies `tasks
      ensures Snapshot() == Step(cfg, old(Snapshot()), Advance(i, ch.(order := route))) && |tasks| == |old(tasks)|
      ensures var t := old(tasks)[i];
        tasks[i] == if route == [] then Done(Refused(BackendUnhealthy)) else GetStore(t.k, t.g, route, None)
    {
      var t := tasks[i];
      var backends := router.GetBackendsForRead(t.k, t.g.hint);
      hide CanRead;
      route := R.Ids(backends);
      tasks := tasks[i := if route == [] then Done(Refused(BackendUnhealthy)) else GetStore(t.k, t.g, route, None)];
      assert tasks + [] == tasks;
    }

    /** Every backend of the route missed or failed. */
    method GiveUp(i: nat, ch: Choice) returns (answer: Answer)
      requires Valid() && i < |tasks| && tasks[i].GetStore? && tasks[i].rest == []
      modifies `tasks
      ensures Snapshot() == Step(cfg, old(Snapshot()), Advance(i, ch)) && |tasks| == |old(tasks)|
      ensures tasks[i] == Done(answer)
    {
      var lastErr := tasks[i].lastErr;
      answer := Refused(if lastErr.Some? then lastErr.value else KeyNotFound);
      tasks := tasks[i := Done(answer)];
      assert tasks + [] == tasks;
    }

    method Delete(k: string, hint: string, ch: Choice) returns (answer: Answer, ghost acts: seq<Action>)
      requires Valid()
      modifies `tasks, `cells
      ensures |tasks| > |old(tasks)| && tasks[|old(tasks)|] == Done(answer)
      ensures acts != [] && acts[0] == Issue(DeleteRequest(k, hint)) && Follows(acts[1..], |old(tasks)|, ch)
      ensures Snapshot() == RunFrom(cfg, old(Snapshot()), acts)
    {
      ghost var s := Snapshot();
      var i := Begin(DeleteRequest(k, hint));
      acts := [Issue(DeleteRequest(k, hint))];
      OneStep(cfg, s, acts[0]);
      SameStores(ch, None, []);
      FollowsOne(i, ch, ch);
      hide RunFrom, Step, Follows, FromStores;
      assert acts[1..] == [];
      if cfg.hasLocal {
        DeleteLocal(i, ch);
        RunOne(cfg, s, acts, Advance(i, ch));
        RestConcat(acts, [Advance(i, ch)], i, ch);
        acts := acts + [Advance(i, ch)];
      }
      ghost var more;
      answer, more := RouteAndDelete(i, ch);
      RunAppend(cfg, s, acts, more);
      RestConcat(acts, more, i, ch);
      acts := acts + more;
    }

    method DeleteLocal(i: nat, ch: Choice)
      requires Valid() && i < |tasks| && tasks[i].DelLocal?
      modifies `tasks, `cells
      ensures Snapshot() == Step(cfg, old(Snapshot()), Advance(i, ch)) && |tasks| == |old(tasks)|
      ensures tasks[i] == DelRoute(old(tasks)[i].k, old(tasks)[i].hint)
    {
      var t := tasks[i];
      cells := Remove(cells, cfg.localId, t.k, ch.localOk, ch.localEffect);
      tasks := tasks[i := DelRoute(t.k, t.hint)];
      assert tasks + [] == tasks;
    }

    /** Ask the router where to delete. */
    method AskRouterToDelete(i: nat, ch: Choice) returns (route: Option<string>)
      requires Valid() && i < |tasks| && tasks[i].DelRoute?
      modifies `tasks
      ensures Snapshot() == Step(cfg, old(Snapshot()), Advance(i, ch.(route := route))) && |tasks| == |old(tasks)|
      ensures tasks[i] == if route.None? then Done(Refused(BackendUnhealthy))
                          else DelStore(old(tasks)[i].k, route.value)
    {
      var t := tasks[i];
      var r := router.GetBackend(t.k, t.hint);
      hide CanWrite;
      route := if r.Ok? then Some(r.value.id) else None;
      tasks := tasks[i := if route.None? then Done(Refused(BackendUnhealthy)) else DelStore(t.k, route.value)];
      assert tasks + [] == tasks;
    }

    method RouteAndDelete(i: nat, ch: Choice) returns (answer: Answer, ghost acts: seq<Action>)
      requires Valid() && i < |tasks| && tasks[i].DelRoute?
      modifies `tasks, `cells
      ensures |tasks| == |old(tasks)| && tasks[i] == Done(answer)
      ensures Follows(acts, i, ch)
      ensures Snapshot() == RunFrom(cfg, old(Snapshot()), acts)
    {
      ghost var s := Snapshot();
      var route := AskRouterToDelete(i, ch);
      acts := [Advance(i, ch.(route := route))];
      OneStep(cfg, s, acts[0]);
      SameStores(ch, route, ch.order);
      FollowsOne(i, ch.(route := route), ch);
      FollowsOne(i, ch, ch);
      if route.None? {
        return Refused(BackendUnhealthy), acts;
      }
      hide Step, RunFrom, Follows, FromStores;
      answer := DeleteStored(i, ch);
      RunOne(cfg, s, acts, Advance(i, ch));
      FollowsConcat(acts, [Advance(i, ch)], i, ch);
      acts := acts + [Advance(i, ch)];
    }

    method DeleteStored(i: nat, ch: Choice) returns (answer: Answer)
      requires Valid() && i < |tasks| && tasks[i].DelStore?
      modifies `tasks, `cells
      ensures Snapshot() == Step(cfg, old(Snapshot()), Advance(i, ch)) && |tasks| == |old(tasks)|
      ensures tasks[i] == Done(answer)
    {
      var t := tasks[i];
      cells := Remove(cells, t.backend, t.k, ch.backendOk, ch.backendEffect);
      answer := if ch.backendOk then Completed else Refused(ch.error);
      tasks := tasks[i := Done(answer)];
      assert tasks + [] == tasks;
    }

    /** An invalidation from another node. */
    method InvalidateLocal(k: string, ok: bool)
      requires Valid()
      modifies `cells
      ensures Snapshot() == Step(cfg, old(Snapshot()), Invalidate(k, ok))
      ensures forall b, key :: Lookup(cells, b, key) ==
                if cfg.hasLocal && ok && b == cfg.localId && key == k then None else Lookup(old(cells), b, key)
    {
      if cfg.hasLocal && ok {
        cells := cells - {(cfg.localId, k)};
      }
    }

    /** The local cache drops a key. */
    method EvictLocal(k: string)
      requires Valid()
      modifies `cells
      ensures Snapshot() == Step(cfg, old(Snapshot()), Evict(cfg.localId, k))
    {
      cells := cells - {(cfg.localId, k)};
    }

    /** A backfill goroutine runs. */
    method RunBackfill(i: nat, ch: Choice)
      requires Valid() && i < |tasks| && tasks[i].Backfill?
      modifies `tasks, `cells
      ensures Snapshot() == Step(cfg, old(Snapshot()), Advance(i, ch))
    {
      cells := Put(cells, cfg.localId, tasks[i].e, ch.localOk, ch.localEffect);
      tasks := tasks[i := Done(Completed)];
      assert tasks + [] == tasks;
    }
  }
}
