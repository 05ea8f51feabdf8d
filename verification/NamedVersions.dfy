/**
 What a version says about the value it comes with: in which stores a Get that names a version can rely
 on getting the value that the Set of that version wrote.
 */
module NamedVersions {
  import opened Storage
  import opened Stores
  import opened StoreRuns

  /** A value and the version its Set was given. */
  datatype Written = Written(value: Bytes, version: nat)

  predicate Matches(r: Result<Entry>, w: Option<Written>) {
    r.Ok? ==> w == Some(Written(r.value.value, r.value.version))
  }

  // ----- Memory -----

  /** The cache may refuse a Set after its version has been raised, and may evict. */
  datatype MemoryOp =
    | Store(entry: Entry, taken: bool)
    | Forget(key: string)
    | Evict(evicted: string)
    | Pass(seconds: nat)
    | Switch(up: bool)

  function Apply(m: Memory, op: MemoryOp): Memory {
    match op
    case Store(e, taken) => MemorySet(m, e, taken).0
    case Forget(k) => MemoryDelete(m, k).0
    case Evict(k) => m.(cache := m.cache - {k})
    case Pass(n) => m.(now := m.now + n)
    case Switch(up) => m.(healthy := up)
  }

  function RunOps(ops: seq<MemoryOp>): Memory {
    if ops == [] then Memory(map[], map[], 0, true)
    else Apply(RunOps(ops[..|ops| - 1]), ops[|ops| - 1])
  }

  lemma RunOpsStep(ops: seq<MemoryOp>, op: MemoryOp)
    ensures RunOps(ops + [op]) == Apply(RunOps(ops), op)
  {
    assert (ops + [op])[..|ops|] == ops;
  }

  /** What the last Set of k that the cache took wrote, unless a Delete followed. */
  function LastWrite(ops: seq<MemoryOp>, k: string): Option<Written> {
    if ops == [] then None
    else
      var before := ops[..|ops| - 1];
      var m := RunOps(before);
      match ops[|ops| - 1]
      case Store(e, taken) =>
        if e.key == k && taken && m.healthy then Some(Written(e.value, VersionOf(m, k) + 1))
        else LastWrite(before, k)
      case Forget(d) => if d == k && m.healthy then None else LastWrite(before, k)
      case _ => LastWrite(before, k)
  }

  predicate Refuses(ops: seq<MemoryOp>) {
    exists op | op in ops :: op.Store? && !op.taken
  }

  /** In every run the cache holds what was last written, under a version that is never below it. */
  lemma {:induction false} CacheHoldsLastWrite(ops: seq<MemoryOp>, k: string)
    ensures var m := RunOps(ops);
      k in m.cache ==>
        && LastWrite(ops, k).Some? && LastWrite(ops, k).value.value == m.cache[k].value
        && LastWrite(ops, k).value.version <= VersionOf(m, k)
        && (!Refuses(ops) ==> LastWrite(ops, k).value.version == VersionOf(m, k))
  {
    if ops != [] {
      var before, last := ops[..|ops| - 1], ops[|ops| - 1];
      CacheHoldsLastWrite(before, k);
      assert Refuses(before) ==> Refuses(ops);
      assert last.Store? && !last.taken ==> Refuses(ops) by { assert last in ops; }
    }
  }

  /** With atomic calls and a cache that applies a write at once: a Get never answers a value written under a
      higher version than it reports; and it always reports the value's own version exactly when the cache
      never refuses a Set.  (ExactVersions has the condition for overlapping calls and late writes.) */
  lemma MemoryVersionIff(mayRefuse: bool, k: string)
    ensures forall ops :: var r := MemoryGet(RunOps(ops), k);
      r.Ok? ==> LastWrite(ops, k).Some? && LastWrite(ops, k).value.value == r.value.value
                && LastWrite(ops, k).value.version <= r.value.version
    ensures (forall ops | mayRefuse || !Refuses(ops) :: Matches(MemoryGet(RunOps(ops), k), LastWrite(ops, k)))
       <==> !mayRefuse
  {
    forall ops ensures var r := MemoryGet(RunOps(ops), k);
      && (r.Ok? ==> LastWrite(ops, k).Some? && LastWrite(ops, k).value.value == r.value.value
                    && LastWrite(ops, k).value.version <= r.value.version)
      && (!Refuses(ops) ==> Matches(r, LastWrite(ops, k)))
    {
      CacheHoldsLastWrite(ops, k);
    }
    if mayRefuse {
      var first, second := Store(Entry(k, [], 0, 1), true), Store(Entry(k, [1], 0, 1), false);
      var ops := [first, second];
      assert ops[..1] == [first] && [first][..0] == [];
      assert RunOps([first]) == Apply(RunOps([]), first);
      assert RunOps(ops) == Apply(RunOps([first]), second);
      assert LastWrite(ops, k) == LastWrite([first], k) == Some(Written([], 1));
      assert !Matches(MemoryGet(RunOps(ops), k), LastWrite(ops, k));
    }
  }

  // ----- Redis -----

  /** What INCR makes of the version key. */
  function NextVersion(c: Codec, s: Server, k: string): nat {
    var vk := VersionKey(k);
    if !Live(s, vk) then 1
    else match AsNumber(c, s.cells[vk].data) case None => 0 case Some(n) => n + 1
  }

  /** What the last Set of k that reached the server wrote, unless a Delete reached it afterwards. */
  function LastStored(c: Codec, ops: seq<Op>, k: string): Option<Written> {
    if ops == [] then None
    else
      var before := ops[..|ops| - 1];
      var r := RunRedis(c, before);
      match ops[|ops| - 1]
      case SetOp(e, fault) =>
        if e.key == k && r.healthy && !fault.RequestLost?
        then Some(Written(e.value, NextVersion(c, r.server, k)))
        else LastStored(c, before, k)
      case DeleteOp(d, fault) =>
        if d == k && r.healthy && !fault.RequestLost? then None else LastStored(c, before, k)
      case _ => LastStored(c, before, k)
  }

  predicate HoldsStored(c: Codec, ops: seq<Op>, k: string) {
    var s := RunRedis(c, ops).server;
    k in s.cells ==>
      && s.cells[k].data.Blob? && VersionKey(k) in s.cells && s.cells[VersionKey(k)].data.Number?
      && LastStored(c, ops, k) == Some(Written(s.cells[k].data.bytes, s.cells[VersionKey(k)].data.n))
  }

  lemma {:induction false} ServerHoldsStored(c: Codec, ops: seq<Op>, keys: set<string>, k: string)
    requires NoCollision(keys) && OpsOn(keys, ops) && k in keys
    ensures HoldsStored(c, ops, k)
  {
    if ops != [] {
      var before, last := ops[..|ops| - 1], ops[|ops| - 1];
      ServerHoldsStored(c, before, keys, k);
      RunKeepsPair(c, before, keys, k);
      assert last in ops;
      if KeyOf(last).Some? {
        var other := KeyOf(last).value;
        assert other in keys && other != VersionKey(k) && VersionKey(other) != k;
        if other != k && VersionKey(other) == VersionKey(k) {
          VersionKeysDiffer(other, k);
        }
      }
    }
  }

  ghost predicate AlwaysOwnVersion(c: Codec, keys: set<string>) {
    forall ops, k | OpsOn(keys, ops) && k in keys ::
      Matches(RedisGet(c, RunRedis(c, ops), k, NoFault), LastStored(c, ops, k))
  }

  function Own(k: string): Op {
    SetOp(Entry(k, [], 0, 1), NoFault)
  }

  /** The value of k is there, and its last Set was the n-th. */
  predicate SetTimes(c: Codec, ops: seq<Op>, k: string, n: nat) {
    var r := RunRedis(c, ops);
    && r.healthy && Live(r.server, k) && r.server.cells[k].data == Blob([])
    && Live(r.server, VersionKey(k)) && r.server.cells[VersionKey(k)].data == Number(n)
    && LastStored(c, ops, k) == Some(Written([], n))
  }

  lemma SetOnceOrTwice(c: Codec, k: string)
    ensures SetTimes(c, [Own(k)], k, 1) && SetTimes(c, [Own(k), Own(k)], k, 2)
  {
    assert [Own(k)][..0] == [] && [Own(k), Own(k)][..1] == [Own(k)];
    assert k != VersionKey(k) by { assert |VersionKey(k)| == |k| + 8; }
    hide VersionKey;
    assert RunRedis(c, [Own(k)]) == RedisStep(c, RunRedis(c, []), Own(k));
    assert RunRedis(c, [Own(k), Own(k)]) == RedisStep(c, RunRedis(c, [Own(k)]), Own(k));
  }

  /** Setting the version key of k as a key of its own changes what k's version reads as. */
  lemma CollisionForgesVersion(c: Codec, ops: seq<Op>, k: string, n: nat)
    requires SetTimes(c, ops, k, n) && n > 0 && c.parse([]) != Some(n)
    ensures var all := ops + [Own(VersionKey(k))];
      !Matches(RedisGet(c, RunRedis(c, all), k, NoFault), LastStored(c, all, k))
  {
    var all := ops + [Own(VersionKey(k))];
    LastOp(ops, Own(VersionKey(k)));
    assert k != VersionKey(k) && k != VersionKey(VersionKey(k)) && VersionKey(k) != VersionKey(VersionKey(k)) by {
      assert |VersionKey(k)| == |k| + 8 && |VersionKey(VersionKey(k))| == |k| + 16;
    }
    hide VersionKey;
    assert RunRedis(c, all) == RedisStep(c, RunRedis(c, ops), Own(VersionKey(k)));
    assert LastStored(c, all, k) == LastStored(c, ops, k);
  }

  /** A Get from redis always reports the version under which its value was written, lost requests and
      lost answers included, exactly when no key in use is another one followed by ":version". */
  lemma RedisVersionIff(c: Codec, keys: set<string>)
    ensures AlwaysOwnVersion(c, keys) <==> NoCollision(keys)
  {
    if NoCollision(keys) {
      forall ops, k | OpsOn(keys, ops) && k in keys
        ensures Matches(RedisGet(c, RunRedis(c, ops), k, NoFault), LastStored(c, ops, k))
      {
        ServerHoldsStored(c, ops, keys, k);
      }
    } else {
      var k :| k in keys && VersionKey(k) in keys;
      SetOnceOrTwice(c, k);
      var n := if c.parse([]) == Some(1) then 2 else 1;
      var ops := if n == 1 then [Own(k)] else [Own(k), Own(k)];
      CollisionForgesVersion(c, ops, k, n);
      hide RunRedis, LastStored, RedisGet, Matches;
      assert OpsOn(keys, ops + [Own(VersionKey(k))]);
    }
  }
}
