/** How long a value that was Set is answered by the stores. */
module Lifetimes {
  import opened Storage
  import opened Stores
  import opened StoreRuns
  import opened StoreHistories
  import opened CacheService
  import opened OneGoroutine
  import opened SetOutcomes
  import NV = NamedVersions

  /** A Set that was left alone so far is about to write x to a store. */
  ghost predicate AboutToStore(
    cfg: Config, s: Service, e: Entry, o: SetOptions, ch: Choice, acts: seq<CacheService.Action>, x: Entry)
  {
    var t := RunFrom(cfg, Step(cfg, s, Issue(SetRequest(e, o))), acts);
    && Follows(acts, |s.tasks|, ch) && |s.tasks| < |t.tasks|
    && (t.tasks[|s.tasks|].SetLocal? || t.tasks[|s.tasks|].SetStore?) && t.tasks[|s.tasks|].e == x
  }

  /** The entry's own lifetime, else the request's, else the service's default, else five minutes; a value above the
      size limit is stored without the request's and the service's. */
  function Lifetime(cfg: Config, e: Entry, o: SetOptions): int {
    if e.ttl > 0 then e.ttl
    else if |e.value| > (if cfg.maxValueSize == 0 then 1048576 else cfg.maxValueSize) then 300
    else if o.ttl > 0 then o.ttl
    else if cfg.defaultTtl > 0 then cfg.defaultTtl
    else 300
  }

  lemma StoredAs(
    cfg: Config, s: Service, e: Entry, o: SetOptions, ch: Choice, acts: seq<CacheService.Action>, x: Entry)
    requires AboutToStore(cfg, s, e, o, ch, acts, x)
    ensures x.key == e.key && x.value == e.value && Lifetime(cfg, e, o) == if x.ttl > 0 then x.ttl else 300
  {
    hide Step, RunFrom, Follows, LocalGiven, SetEnds;
    Starts(cfg, s, e, o, ch);
    var route := RunProgress(cfg, s, Step(cfg, s, Issue(SetRequest(e, o))), e, o, ch, acts);
  }

  lemma KeptInMemory(ops: seq<NV.MemoryOp>, x: Entry, seconds: nat)
    requires MemoryUp(ops, |ops|)
    ensures var r := MemoryGet(NV.RunOps(ops + [NV.Store(x, true)] + [NV.Pass(seconds)]), x.key);
      if seconds < (if x.ttl > 0 then x.ttl else 300) then r.Ok? && r.value.value == x.value else r == Err(KeyNotFound)
  {
    MemoryRunKeeps(ops, x.key);
    NV.RunOpsStep(ops, NV.Store(x, true));
    NV.RunOpsStep(ops + [NV.Store(x, true)], NV.Pass(seconds));
    hide MemoryEvents, MemoryUp, NV.RunOps;
  }

  lemma KeptInRedis(
    c: Codec, ops: seq<Op>, keys: set<string>, x: Entry, fault: Fault, seconds: nat)
    requires RedisUp(ops, |ops|) && fault != RequestLost
    requires NoCollision(keys) && OpsOn(keys, ops) && x.key in keys
    ensures var r := RedisGet(c, RunRedis(c, ops + [SetOp(x, fault)] + [Wait(seconds)]), x.key, NoFault);
      if seconds < (if x.ttl > 0 then x.ttl else 300) then r.Ok? && r.value.value == x.value else r == Err(KeyNotFound)
  {
    RedisRunKeeps(c, ops, keys, x.key);
    LastOp(ops, SetOp(x, fault));
    LastOp(ops + [SetOp(x, fault)], Wait(seconds));
    assert RunRedis(c, ops + [SetOp(x, fault)]) == RedisStep(c, RunRedis(c, ops), SetOp(x, fault));
    assert RunRedis(c, ops + [SetOp(x, fault)] + [Wait(seconds)])
        == RedisStep(c, RunRedis(c, ops + [SetOp(x, fault)]), Wait(seconds));
    assert x.key != VersionKey(x.key) by { assert |VersionKey(x.key)| == |x.key| + 8; }
    hide RedisEvents, RedisUp, RunRedis, VersionKey;
  }

  /** The memory store answers a value it took for exactly its lifetime, whatever it did before. */
  lemma LivesInMemory(
    cfg: Config, s: Service, e: Entry, o: SetOptions, ch: Choice, acts: seq<CacheService.Action>, x: Entry,
    ops: seq<NV.MemoryOp>, seconds: nat)
    requires AboutToStore(cfg, s, e, o, ch, acts, x) && MemoryUp(ops, |ops|)
    ensures var r := MemoryGet(NV.RunOps(ops + [NV.Store(x, true)] + [NV.Pass(seconds)]), e.key);
      if seconds < Lifetime(cfg, e, o) then r.Ok? && r.value.value == e.value else r == Err(KeyNotFound)
  {
    StoredAs(cfg, s, e, o, ch, acts, x);
    hide AboutToStore, Lifetime;
    KeptInMemory(ops, x, seconds);
    hide *;
  }

  /** So does redis, even if the answer to the Set was lost. */
  lemma LivesInRedis(
    cfg: Config, s: Service, e: Entry, o: SetOptions, ch: Choice, acts: seq<CacheService.Action>, x: Entry,
    c: Codec, ops: seq<Op>, keys: set<string>, fault: Fault, seconds: nat)
    requires AboutToStore(cfg, s, e, o, ch, acts, x) && RedisUp(ops, |ops|) && fault != RequestLost
    requires NoCollision(keys) && OpsOn(keys, ops) && e.key in keys
    ensures var r := RedisGet(c, RunRedis(c, ops + [SetOp(x, fault)] + [Wait(seconds)]), e.key, NoFault);
      if seconds < Lifetime(cfg, e, o) then r.Ok? && r.value.value == e.value else r == Err(KeyNotFound)
  {
    StoredAs(cfg, s, e, o, ch, acts, x);
    hide AboutToStore, Lifetime;
    KeptInRedis(c, ops, keys, x, fault, seconds);
    hide *;
  }
}
