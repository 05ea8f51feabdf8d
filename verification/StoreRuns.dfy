/** Over every run: when redis keeps values and versions paired, and how far the two stores agree. */
module StoreRuns {
  import opened Storage
  import opened Stores

  datatype Op =
    | SetOp(entry: Entry, setFault: Fault)
    | DeleteOp(key: string, deleteFault: Fault)
    | Wait(seconds: nat)
    | Health(up: bool)

  predicate OpOn(keys: set<string>, op: Op) {
    match op
    case SetOp(e, _) => e.key in keys
    case DeleteOp(k, _) => k in keys
    case _ => true
  }

  predicate OpsOn(keys: set<string>, ops: seq<Op>) {
    forall op | op in ops :: OpOn(keys, op)
  }

  function RedisStep(c: Codec, r: Redis, op: Op): Redis {
    match op
    case SetOp(e, fault) => RedisSet(c, r, e, fault).0
    case DeleteOp(k, fault) => RedisDelete(r, k, fault).0
    case Wait(n) => r.(server := r.server.(now := r.server.now + n))
    case Health(up) => r.(healthy := up)
  }

  function RunRedis(c: Codec, ops: seq<Op>): Redis {
    if ops == [] then Redis(Server(map[], 0), true)
    else RedisStep(c, RunRedis(c, ops[..|ops| - 1]), ops[|ops| - 1])
  }

  // ----- Pairing -----

  /** Both keys are present with the same expiry, or both are absent. */
  predicate Paired(s: Server, key: string) {
    var vk := VersionKey(key);
    && (Live(s, key) <==> Live(s, vk))
    && (Live(s, key) ==> s.cells[key].expiry == s.cells[vk].expiry)
  }

  predicate NoCollision(keys: set<string>) {
    forall k | k in keys :: k + ":version" !in keys
  }

  lemma VersionKeysDiffer(a: string, b: string)
    requires VersionKey(a) == VersionKey(b)
    ensures a == b
  {
    assert |a| == |b|;
    assert a == VersionKey(a)[..|a|] && b == VersionKey(b)[..|b|];
  }

  /** The invariant behind pairing, on the stored cells whether expired or not. */
  predicate StrictlyPaired(s: Server, key: string) {
    var vk := VersionKey(key);
    && (key in s.cells <==> vk in s.cells)
    && (key in s.cells ==> s.cells[key].expiry == s.cells[vk].expiry && s.cells[vk].data.Number?)
    && (key in s.cells ==> s.cells[key].data.Blob?)
  }

  lemma OpKeepsPair(c: Codec, r: Redis, op: Op, keys: set<string>, k: string)
    requires NoCollision(keys) && OpOn(keys, op) && k in keys && StrictlyPaired(r.server, k)
    ensures StrictlyPaired(RedisStep(c, r, op).server, k)
  {
    var other := match op case SetOp(e, _) => e.key case DeleteOp(d, _) => d case _ => k;
    assert other in keys;
    assert other != VersionKey(k) && VersionKey(other) != k;
    if other != k && VersionKey(other) == VersionKey(k) {
      VersionKeysDiffer(other, k);
    }
  }

  lemma {:induction false} RunKeepsPair(c: Codec, ops: seq<Op>, keys: set<string>, k: string)
    requires NoCollision(keys) && OpsOn(keys, ops) && k in keys
    ensures StrictlyPaired(RunRedis(c, ops).server, k)
  {
    if ops != [] {
      RunKeepsPair(c, ops[..|ops| - 1], keys, k);
      assert ops[|ops| - 1] in ops;
      OpKeepsPair(c, RunRedis(c, ops[..|ops| - 1]), ops[|ops| - 1], keys, k);
    }
  }

  ghost predicate AlwaysPaired(c: Codec, keys: set<string>) {
    forall ops, k | OpsOn(keys, ops) && k in keys :: Paired(RunRedis(c, ops).server, k)
  }

  /** Value key and version key live and die together in every reachable state, lost requests, lost
      answers and expiry included, exactly when no key in use is another one followed by ":version". */
  lemma PairedIff(c: Codec, keys: set<string>)
    ensures AlwaysPaired(c, keys) <==> NoCollision(keys)
  {
    if NoCollision(keys) {
      forall ops, k | OpsOn(keys, ops) && k in keys ensures Paired(RunRedis(c, ops).server, k) {
        RunKeepsPair(c, ops, keys, k);
      }
    } else {
      var k :| k in keys && VersionKey(k) in keys;
      var ops := [SetOp(Entry(k, [], 0, 1), NoFault), DeleteOp(VersionKey(k), NoFault)];
      assert OpsOn(keys, ops);
      CollisionBreaksPair(c, k);
      assert ops == [SetOp(Entry(k, [], 0, 1), NoFault), DeleteOp(VersionKey(k), NoFault)];
    }
  }

  lemma CollisionBreaksPair(c: Codec, k: string)
    ensures !Paired(RunRedis(c, [SetOp(Entry(k, [], 0, 1), NoFault), DeleteOp(VersionKey(k), NoFault)]).server, k)
  {
    var first, second := SetOp(Entry(k, [], 0, 1), NoFault), DeleteOp(VersionKey(k), NoFault);
    assert [first, second][..1] == [first] && [first][..0] == [];
    var r := RunRedis(c, [first]);
    assert r == RedisStep(c, RunRedis(c, []), first);
    assert Live(r.server, k);
    assert |VersionKey(k)| == |k| + 8 && |VersionKey(VersionKey(k))| == |k| + 16;
    assert RunRedis(c, [first, second]) == RedisStep(c, r, second);
  }

  // ----- The two stores side by side -----

  function MemoryStep(m: Memory, op: Op): Memory {
    match op
    case SetOp(e, _) => MemorySet(m, e, true).0
    case DeleteOp(k, _) => MemoryDelete(m, k).0
    case Wait(n) => m.(now := m.now + n)
    case Health(up) => m.(healthy := up)
  }

  function RunMemory(ops: seq<Op>): Memory {
    if ops == [] then Memory(map[], map[], 0, true)
    else MemoryStep(RunMemory(ops[..|ops| - 1]), ops[|ops| - 1])
  }

  predicate Faultless(ops: seq<Op>) {
    forall op | op in ops ::
      (op.SetOp? ==> op.setFault.NoFault?) && (op.DeleteOp? ==> op.deleteFault.NoFault?)
  }

  /** Whether the store answered after these operations. */
  function Up(ops: seq<Op>): bool {
    if ops == [] then true
    else if ops[|ops| - 1].Health? then ops[|ops| - 1].up
    else Up(ops[..|ops| - 1])
  }

  /** How many Sets of k were carried out since its last Delete. */
  function SetsSinceDelete(ops: seq<Op>, k: string): nat {
    if ops == [] then 0
    else
      var before := ops[..|ops| - 1];
      match ops[|ops| - 1]
      case SetOp(e, _) => SetsSinceDelete(before, k) + if e.key == k && Up(before) then 1 else 0
      case DeleteOp(d, _) => if d == k && Up(before) then 0 else SetsSinceDelete(before, k)
      case _ => SetsSinceDelete(before, k)
  }

  /** Some Set of k since its last Delete found an earlier value already expired. */
  function Lapsed(ops: seq<Op>, k: string): bool {
    if ops == [] then false
    else
      var before := ops[..|ops| - 1];
      match ops[|ops| - 1]
      case SetOp(e, _) =>
        Lapsed(before, k)
        || (e.key == k && Up(before) && SetsSinceDelete(before, k) > 0 && !InCache(RunMemory(before), k))
      case DeleteOp(d, _) => !(d == k && Up(before)) && Lapsed(before, k)
      case _ => Lapsed(before, k)
  }

  /** The two stores hold the same value of k until the same moment; only the versions may differ. */
  predicate SameBut(m: Memory, r: Redis, k: string) {
    && m.now == r.server.now && m.healthy == r.healthy
    && (k in m.cache <==> k in r.server.cells)
    && (k in m.cache ==> r.server.cells[k] == Cell(Blob(m.cache[k].value), Some(m.cache[k].expiry)))
  }

  function RedisVersion(s: Server, k: string): nat {
    var vk := VersionKey(k);
    if vk in s.cells && s.cells[vk].data.Number? then s.cells[vk].data.n else 0
  }

  ghost predicate Related(c: Codec, ops: seq<Op>, k: string) {
    var m, r := RunMemory(ops), RunRedis(c, ops);
    && SameBut(m, r, k) && StrictlyPaired(r.server, k) && m.healthy == Up(ops)
    && VersionOf(m, k) == SetsSinceDelete(ops, k)
    && (k in m.cache <==> SetsSinceDelete(ops, k) > 0)
    && RedisVersion(r.server, k) <= VersionOf(m, k)
    && (RedisVersion(r.server, k) == VersionOf(m, k) <==> !Lapsed(ops, k))
  }

  /** The key an operation works on, if it works on one. */
  function KeyOf(op: Op): Option<string> {
    match op
    case SetOp(e, _) => Some(e.key)
    case DeleteOp(k, _) => Some(k)
    case _ => None
  }

  lemma BothLive(c: Codec, before: seq<Op>, k: string)
    requires Related(c, before, k)
    ensures InCache(RunMemory(before), k) <==> Live(RunRedis(c, before).server, k)
    ensures Live(RunRedis(c, before).server, k) <==> Live(RunRedis(c, before).server, VersionKey(k))
  {}

  lemma LastOp(before: seq<Op>, op: Op)
    ensures (before + [op])[..|before + [op]| - 1] == before && (before + [op])[|before + [op]| - 1] == op
  {}

  lemma OwnSetKeepsRelated(c: Codec, before: seq<Op>, e: Entry, k: string)
    requires Related(c, before, k) && e.key == k
    requires StrictlyPaired(RunRedis(c, before + [SetOp(e, NoFault)]).server, k)
    ensures Related(c, before + [SetOp(e, NoFault)], k)
  {
    LastOp(before, SetOp(e, NoFault));
    BothLive(c, before, k);
  }

  lemma OwnDeleteKeepsRelated(c: Codec, before: seq<Op>, k: string)
    requires Related(c, before, k)
    requires StrictlyPaired(RunRedis(c, before + [DeleteOp(k, NoFault)]).server, k)
    ensures Related(c, before + [DeleteOp(k, NoFault)], k)
  {
    LastOp(before, DeleteOp(k, NoFault));
  }

  lemma OtherKeepsRelated(c: Codec, before: seq<Op>, op: Op, k: string)
    requires Related(c, before, k) && KeyOf(op) != Some(k)
    requires KeyOf(op).Some? ==>
               VersionKey(KeyOf(op).value) != VersionKey(k) && KeyOf(op).value != VersionKey(k)
               && VersionKey(KeyOf(op).value) != k
    requires StrictlyPaired(RunRedis(c, before + [op]).server, k)
    ensures Related(c, before + [op], k)
  {
    hide VersionKey;
    LastOp(before, op);
  }

  lemma OpKeepsRelated(c: Codec, before: seq<Op>, op: Op, keys: set<string>, k: string)
    requires NoCollision(keys) && OpOn(keys, op) && k in keys && Faultless([op])
    requires Related(c, before, k)
    ensures Related(c, before + [op], k)
  {
    LastOp(before, op);
    OpKeepsPair(c, RunRedis(c, before), op, keys, k);
    hide Related, StrictlyPaired;
    assert op in [op];
    if KeyOf(op) == Some(k) {
      if op.SetOp? {
        OwnSetKeepsRelated(c, before, op.entry, k);
      } else {
        OwnDeleteKeepsRelated(c, before, k);
      }
    } else {
      if KeyOf(op).Some? && VersionKey(KeyOf(op).value) == VersionKey(k) {
        VersionKeysDiffer(KeyOf(op).value, k);
      }
      OtherKeepsRelated(c, before, op, k);
    }
  }

  lemma {:induction false} RunKeepsRelated(c: Codec, ops: seq<Op>, keys: set<string>, k: string)
    requires NoCollision(keys) && OpsOn(keys, ops) && k in keys && Faultless(ops)
    ensures Related(c, ops, k)
  {
    if ops == [] {
    } else {
      var before := ops[..|ops| - 1];
      RunKeepsRelated(c, before, keys, k);
      assert ops[|ops| - 1] in ops;
      OpKeepsRelated(c, before, ops[|ops| - 1], keys, k);
      assert before + [ops[|ops| - 1]] == ops;
    }
  }

  /** Redis and memory answer every Get alike, expiry included, but for the version: memory counts the
      Sets since the last Delete, redis counts no further back than the last expiry.  The versions agree
      exactly when no Set since the last Delete came after an expiry. */
  lemma StoresAgree(c: Codec, ops: seq<Op>, keys: set<string>, k: string)
    requires NoCollision(keys) && OpsOn(keys, ops) && k in keys && Faultless(ops)
    ensures var inMemory := MemoryGet(RunMemory(ops), k);
            var inRedis := RedisGet(c, RunRedis(c, ops), k, NoFault);
      && (inMemory.Err? ==> inRedis == inMemory)
      && (inMemory.Ok? ==>
            && inRedis.Ok? && inRedis.value.value == inMemory.value.value
            && inMemory.value.version == SetsSinceDelete(ops, k)
            && (inRedis == inMemory <==> !Lapsed(ops, k))
            && (Lapsed(ops, k) ==> inRedis.value.version < inMemory.value.version))
  {
    RunKeepsRelated(c, ops, keys, k);
  }
}
