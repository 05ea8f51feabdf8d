/**
 What a versioned store answers after any history of operations, said of the history itself: which Set wrote the
 value, how long it lives, and which Sets the version counts.
 */
module StoreHistories {
  import opened Storage
  import opened Stores
  import opened StoreRuns
  import NV = NamedVersions

  // ----- Histories of one key -----

  /** What an operation did to the key. */
  datatype Event =
    | Wrote(value: Bytes, ttl: int)
    | Raised                    // the version was raised, but the value refused
    | Deleted
    | Evicted
    | Passed(seconds: nat)
    | Nothing

  function Elapsed(es: seq<Event>): nat {
    if es == [] then 0
    else
      var last := es[|es| - 1];
      Elapsed(es[..|es| - 1]) + if last.Passed? then last.seconds else 0
  }

  predicate Removes(e: Event) {
    e.Wrote? || e.Deleted? || e.Evicted?
  }

  /** What was written at i has not been overwritten, deleted or evicted. */
  predicate Stands(es: seq<Event>, i: int) {
    0 <= i < |es| && es[i].Wrote? && forall j | i < j < |es| :: !Removes(es[j])
  }

  /** The moment until which a value written at i is answered: its own lifetime later, or five minutes. */
  function Until(es: seq<Event>, i: int): int
    requires 0 <= i < |es| && es[i].Wrote?
  {
    Elapsed(es[..i]) + if es[i].ttl > 0 then es[i].ttl else 300
  }

  predicate Answered(es: seq<Event>, i: int) {
    Stands(es, i) && Elapsed(es) < Until(es, i)
  }

  predicate Kept(es: seq<Event>, i: nat) {
    i < |es| && (es[i].Wrote? || es[i].Raised?) && forall j | i < j < |es| :: !es[j].Deleted?
  }

  /** The Sets that a version counts which a Delete alone starts anew. */
  function Counted(es: seq<Event>): set<nat> {
    set i: nat | i < |es| && Kept(es, i)
  }

  /** Nothing was answered when the value at j was written. */
  predicate StartsAnew(es: seq<Event>, j: nat) {
    j < |es| && es[j].Wrote? && forall i | 0 <= i < j :: !Answered(es[..j], i)
  }

  predicate KeptAlive(es: seq<Event>, i: nat) {
    && i < |es| && es[i].Wrote?
    && forall j | i < j < |es| :: !es[j].Deleted? && !StartsAnew(es, j)
  }

  /** The Sets that a version counts which expires with its value. */
  function CountedAlive(es: seq<Event>): set<nat> {
    set i: nat | i < |es| && KeptAlive(es, i)
  }

  lemma ElapsedStep(es: seq<Event>, e: Event)
    ensures Elapsed(es + [e]) == Elapsed(es) + if e.Passed? then e.seconds else 0
  {
    assert (es + [e])[..|es|] == es;
  }

  /** The value that stands, and until when it is answered. */
  function Standing(es: seq<Event>): Option<Stored> {
    if es == [] then None
    else
      var before := es[..|es| - 1];
      match es[|es| - 1]
      case Wrote(value, ttl) => Some(Stored(value, Elapsed(before) + if ttl > 0 then ttl else 300))
      case Deleted => None
      case Evicted => None
      case _ => Standing(before)
  }

  lemma {:induction false} StandingStands(es: seq<Event>) returns (i: int)
    ensures match Standing(es)
      case None => forall j :: !Stands(es, j)
      case Some(v) => Stands(es, i) && v == Stored(es[i].value, Until(es, i)) && forall j | Stands(es, j) :: j == i
  {
    i := 0;
    if es != [] {
      var n := |es| - 1;
      var before := es[..n];
      if es[n].Wrote? {
        i := n;
      } else {
        i := StandingStands(before);
        forall j ensures Stands(es, j) <==> Stands(before, j) && !Removes(es[n]) {
          assert forall m | 0 <= m < n :: before[m] == es[m];
        }
        if Stands(es, i) {
          assert es[..i] == before[..i];
        }
      }
    }
  }

  lemma StandingStep(es: seq<Event>, e: Event)
    ensures Standing(es + [e]) ==
      match e
      case Wrote(value, ttl) => Some(Stored(value, Elapsed(es) + if ttl > 0 then ttl else 300))
      case Deleted => None
      case Evicted => None
      case _ => Standing(es)
  {
    assert (es + [e])[..|es|] == es;
  }

  /** What is answered is what stands, until its moment. */
  lemma StandingAnswered(es: seq<Event>)
    ensures match Standing(es)
      case None => forall j :: !Answered(es, j)
      case Some(v) =>
        if Elapsed(es) < v.expiry then exists i :: Answered(es, i) && es[i].value == v.value
        else forall j :: !Answered(es, j)
  {
    var i := StandingStands(es);
    hide Stands, Until, Standing;
    if Standing(es).Some? && Elapsed(es) < Standing(es).value.expiry {
      assert Answered(es, i);
    }
  }

  lemma CountedStep(es: seq<Event>, e: Event)
    ensures |Counted(es + [e])|
         == if e.Deleted? then 0 else |Counted(es)| + if e.Wrote? || e.Raised? then 1 else 0
  {
    var h := es + [e];
    forall i: nat
      ensures Kept(h, i) <==> if i == |es| then e.Wrote? || e.Raised? else Kept(es, i) && !e.Deleted?
    {
      assert h[|es|] == e && forall j | 0 <= j < |es| :: h[j] == es[j];
    }
    assert |es| !in Counted(es);
    assert Counted(h) == if e.Deleted? then {}
                         else Counted(es) + if e.Wrote? || e.Raised? then {|es|} else {};
  }

  lemma KeptAliveStep(es: seq<Event>, e: Event, i: nat)
    ensures KeptAlive(es + [e], i)
       <==> if i == |es| then e.Wrote?
            else KeptAlive(es, i) && !e.Deleted? && !StartsAnew(es + [e], |es|)
  {
    var h := es + [e];
    hide StartsAnew;
    assert h[|es|] == e;
    forall j | 0 <= j < |es| ensures h[j] == es[j] && (StartsAnew(h, j) <==> StartsAnew(es, j)) {
      SameStart(es, e, j);
    }
  }

  lemma SameStart(es: seq<Event>, e: Event, j: nat)
    requires j < |es|
    ensures StartsAnew(es + [e], j) <==> StartsAnew(es, j)
  {
    assert (es + [e])[..j] == es[..j] && (es + [e])[j] == es[j];
  }

  lemma AliveSets(es: seq<Event>, e: Event)
    ensures CountedAlive(es + [e]) == (if e.Wrote? then {|es|} else {})
              + if e.Deleted? || StartsAnew(es + [e], |es|) then {} else CountedAlive(es)
    ensures |es| !in CountedAlive(es)
  {
    var h := es + [e];
    forall i: nat
      ensures KeptAlive(h, i) <==> if i == |es| then e.Wrote?
                                   else KeptAlive(es, i) && !e.Deleted? && !StartsAnew(h, |es|)
    {
      KeptAliveStep(es, e, i);
    }
    hide KeptAlive, StartsAnew;
  }

  lemma AliveStep(es: seq<Event>, e: Event)
    ensures |CountedAlive(es + [e])|
         == if e.Deleted? then 0
            else if StartsAnew(es + [e], |es|) then 1
            else |CountedAlive(es)| + if e.Wrote? then 1 else 0
  {
    AliveSets(es, e);
    assert StartsAnew(es + [e], |es|) ==> e.Wrote?;
    hide KeptAlive, StartsAnew, CountedAlive;
  }

  lemma NewStart(es: seq<Event>, e: Event)
    ensures StartsAnew(es + [e], |es|)
       <==> e.Wrote? && (Standing(es).Some? ==> Elapsed(es) >= Standing(es).value.expiry)
  {
    assert (es + [e])[..|es|] == es;
    StandingAnswered(es);
    hide Standing, Answered;
  }

  // ----- The memory store -----

  /** The store was up before operation i: every switching off before it was undone. */
  predicate MemoryUp(ops: seq<NV.MemoryOp>, i: nat)
    requires i <= |ops|
  {
    forall j | 0 <= j < i && ops[j] == NV.Switch(false) :: exists m | j < m < i :: ops[m] == NV.Switch(true)
  }

  function MemoryEvent(ops: seq<NV.MemoryOp>, i: nat, k: string): Event
    requires i < |ops|
  {
    match ops[i]
    case Store(e, taken) =>
      if e.key != k || !MemoryUp(ops, i) then Nothing else if taken then Wrote(e.value, e.ttl) else Raised
    case Forget(d) => if d == k && MemoryUp(ops, i) then Deleted else Nothing
    case Evict(d) => if d == k then Evicted else Nothing
    case Pass(n) => Passed(n)
    case Switch(_) => Nothing
  }

  function MemoryEvents(ops: seq<NV.MemoryOp>, k: string): seq<Event> {
    seq(|ops|, i requires 0 <= i < |ops| => MemoryEvent(ops, i, k))
  }

  lemma UpStep(ops: seq<NV.MemoryOp>, op: NV.MemoryOp)
    ensures MemoryUp(ops + [op], |ops| + 1) <==> if op.Switch? then op.up else MemoryUp(ops, |ops|)
    ensures forall i | 0 <= i <= |ops| :: MemoryUp(ops + [op], i) <==> MemoryUp(ops, i)
  {
    var h := ops + [op];
    assert h[|ops|] == op;
    forall i | 0 <= i <= |ops| ensures MemoryUp(h, i) <==> MemoryUp(ops, i) {
      assert h[..i] == ops[..i];
      assert forall j | 0 <= j < i :: h[j] == ops[j];
    }
  }

  lemma MemoryEventsStep(ops: seq<NV.MemoryOp>, op: NV.MemoryOp, k: string)
    ensures MemoryEvents(ops + [op], k) == MemoryEvents(ops, k) + [MemoryEvent(ops + [op], |ops|, k)]
  {
    UpStep(ops, op);
    hide MemoryUp;
  }

  ghost predicate MemoryKeeps(ops: seq<NV.MemoryOp>, k: string) {
    var m, es := NV.RunOps(ops), MemoryEvents(ops, k);
    && m.now == Elapsed(es) && m.healthy == MemoryUp(ops, |ops|) && VersionOf(m, k) == |Counted(es)|
    && Standing(es) == if k in m.cache then Some(m.cache[k]) else None
  }

  /** What an operation makes of the cell and the version of k. */
  lemma MemoryEffect(m: Memory, op: NV.MemoryOp, k: string)
    ensures var t := NV.Apply(m, op);
      && t.now == m.now + (if op.Pass? then op.seconds else 0)
      && t.healthy == (if op.Switch? then op.up else m.healthy)
      && VersionOf(t, k)
           == (if op.Store? && op.entry.key == k && m.healthy then VersionOf(m, k) + 1
               else if op.Forget? && op.key == k && m.healthy then 0 else VersionOf(m, k))
      && (if k in t.cache then Some(t.cache[k]) else None)
           == (if op.Store? && op.entry.key == k && op.taken && m.healthy
               then Some(Stored(op.entry.value, m.now + if op.entry.ttl > 0 then op.entry.ttl else 300))
               else if (op.Forget? && op.key == k && m.healthy) || (op.Evict? && op.evicted == k) then None
               else if k in m.cache then Some(m.cache[k]) else None)
  {}

  lemma MemoryStepKeeps(ops: seq<NV.MemoryOp>, op: NV.MemoryOp, k: string)
    requires MemoryKeeps(ops, k)
    ensures MemoryKeeps(ops + [op], k)
  {
    var all, es, e := ops + [op], MemoryEvents(ops, k), MemoryEvent(ops + [op], |ops|, k);
    assert all[|ops|] == op;
    NV.RunOpsStep(ops, op);
    MemoryEffect(NV.RunOps(ops), op, k);
    UpStep(ops, op);
    MemoryEventsStep(ops, op, k);
    ElapsedStep(es, e);
    CountedStep(es, e);
    StandingStep(es, e);
    hide MemoryUp, MemoryEvents, Elapsed, Counted, Standing, NV.RunOps, NV.Apply, VersionOf;
  }

  lemma {:induction false} MemoryRunKeeps(ops: seq<NV.MemoryOp>, k: string)
    ensures MemoryKeeps(ops, k)
  {
    if ops != [] {
      var before, last := ops[..|ops| - 1], ops[|ops| - 1];
      MemoryRunKeeps(before, k);
      MemoryStepKeeps(before, last, k);
      assert before + [last] == ops;
    }
  }

  /** After every history the memory store answers the value that was last written and still stands, until its
      lifetime is over, under the number of Sets since the last Delete; and an error only when it is down or there
      is no such value. */
  lemma MemoryAnswers(ops: seq<NV.MemoryOp>, k: string)
    ensures var es := MemoryEvents(ops, k);
      match MemoryGet(NV.RunOps(ops), k)
      case Ok(e) =>
        && MemoryUp(ops, |ops|) && e == Entry(k, e.value, |Counted(es)|, 0)
        && exists i :: Answered(es, i) && es[i].value == e.value
      case Err(error) =>
        if MemoryUp(ops, |ops|) then error == KeyNotFound && forall i :: !Answered(es, i)
        else error == BackendUnhealthy
  {
    MemoryRunKeeps(ops, k);
    StandingAnswered(MemoryEvents(ops, k));
    hide MemoryEvents, MemoryUp, Elapsed, Answered, Standing, NV.RunOps;
  }

  // ----- Redis -----

  predicate RedisUp(ops: seq<Op>, i: nat)
    requires i <= |ops|
  {
    forall j | 0 <= j < i && ops[j] == Health(false) :: exists m | j < m < i :: ops[m] == Health(true)
  }

  /** A request that is lost does nothing; one whose answer is lost does everything. */
  function RedisEvent(ops: seq<Op>, i: nat, k: string): Event
    requires i < |ops|
  {
    match ops[i]
    case SetOp(e, fault) =>
      if e.key == k && RedisUp(ops, i) && fault != RequestLost then Wrote(e.value, e.ttl) else Nothing
    case DeleteOp(d, fault) => if d == k && RedisUp(ops, i) && fault != RequestLost then Deleted else Nothing
    case Wait(n) => Passed(n)
    case Health(_) => Nothing
  }

  function RedisEvents(ops: seq<Op>, k: string): seq<Event> {
    seq(|ops|, i requires 0 <= i < |ops| => RedisEvent(ops, i, k))
  }

  lemma RedisUpStep(ops: seq<Op>, op: Op)
    ensures RedisUp(ops + [op], |ops| + 1) <==> if op.Health? then op.up else RedisUp(ops, |ops|)
    ensures forall i | 0 <= i <= |ops| :: RedisUp(ops + [op], i) <==> RedisUp(ops, i)
  {
    var h := ops + [op];
    assert h[|ops|] == op;
    forall i | 0 <= i <= |ops| ensures RedisUp(h, i) <==> RedisUp(ops, i) {
      assert forall j | 0 <= j < i :: h[j] == ops[j];
    }
  }

  lemma RedisEventsStep(ops: seq<Op>, op: Op, k: string)
    ensures RedisEvents(ops + [op], k) == RedisEvents(ops, k) + [RedisEvent(ops + [op], |ops|, k)]
  {
    RedisUpStep(ops, op);
    hide RedisUp;
  }

  ghost predicate RedisKeeps(c: Codec, ops: seq<Op>, k: string) {
    var r, es := RunRedis(c, ops), RedisEvents(ops, k);
    && r.server.now == Elapsed(es) && r.healthy == RedisUp(ops, |ops|) && StrictlyPaired(r.server, k)
    && (k in r.server.cells <==> Standing(es).Some?)
    && (k in r.server.cells ==>
          && r.server.cells[k] == Cell(Blob(Standing(es).value.value), Some(Standing(es).value.expiry))
          && r.server.cells[VersionKey(k)].data == Number(|CountedAlive(es)|))
  }

  /** The store's own operation, or one on keys that have nothing to do with k. */
  predicate Apart(op: Op, k: string) {
    KeyOf(op).Some? && KeyOf(op).value != k ==>
      && VersionKey(KeyOf(op).value) != VersionKey(k)
      && KeyOf(op).value != VersionKey(k) && VersionKey(KeyOf(op).value) != k
  }

  /** What an operation on k makes of its cell and version. */
  lemma RedisEffect(c: Codec, r: Redis, op: Op, k: string)
    requires KeyOf(op) == Some(k) && StrictlyPaired(r.server, k)
    ensures var t := RedisStep(c, r, op);
      && t.server.now == r.server.now && t.healthy == r.healthy
      && (!r.healthy ==> t == r)
      && (op.SetOp? && op.setFault == RequestLost ==> t == r)
      && (op.DeleteOp? && op.deleteFault == RequestLost ==> t == r)
      && (r.healthy && op.SetOp? && op.setFault != RequestLost ==>
            && k in t.server.cells && VersionKey(k) in t.server.cells
            && t.server.cells[k].data == Blob(op.entry.value)
            && t.server.cells[k].expiry == Some(r.server.now + if op.entry.ttl > 0 then op.entry.ttl else 300)
            && t.server.cells[VersionKey(k)].data
                 == Number(if Live(r.server, k) then r.server.cells[VersionKey(k)].data.n + 1 else 1))
      && (r.healthy && op.DeleteOp? && op.deleteFault != RequestLost ==> k !in t.server.cells)
  {
    assert k != VersionKey(k) by { assert |VersionKey(k)| == |k| + 8; }
    hide VersionKey;
  }

  /** An operation on another key, or on none, leaves them alone. */
  lemma RedisOtherEffect(c: Codec, r: Redis, op: Op, k: string)
    requires KeyOf(op) != Some(k) && Apart(op, k)
    ensures var t, vk := RedisStep(c, r, op), VersionKey(k);
      && t.server.now == r.server.now + (if op.Wait? then op.seconds else 0)
      && t.healthy == (if op.Health? then op.up else r.healthy)
      && (k in t.server.cells <==> k in r.server.cells) && (vk in t.server.cells <==> vk in r.server.cells)
      && (k in t.server.cells ==> t.server.cells[k] == r.server.cells[k])
      && (vk in t.server.cells ==> t.server.cells[vk] == r.server.cells[vk])
  {
    hide VersionKey;
  }

  lemma RedisOwnKeeps(c: Codec, ops: seq<Op>, op: Op, k: string)
    requires RedisKeeps(c, ops, k) && KeyOf(op) == Some(k)
    requires StrictlyPaired(RunRedis(c, ops + [op]).server, k)
    ensures RedisKeeps(c, ops + [op], k)
  {
    var all, es, e := ops + [op], RedisEvents(ops, k), RedisEvent(ops + [op], |ops|, k);
    LastOp(ops, op);
    assert RunRedis(c, all) == RedisStep(c, RunRedis(c, ops), op);
    RedisEffect(c, RunRedis(c, ops), op, k);
    RedisUpStep(ops, op);
    RedisEventsStep(ops, op, k);
    ElapsedStep(es, e);
    AliveStep(es, e);
    NewStart(es, e);
    StandingStep(es, e);
    hide RedisUp, RedisEvents, Elapsed, CountedAlive, VersionKey, StartsAnew, Standing, RunRedis, RedisStep;
  }

  lemma RedisOtherKeeps(c: Codec, ops: seq<Op>, op: Op, k: string)
    requires RedisKeeps(c, ops, k) && KeyOf(op) != Some(k) && Apart(op, k)
    requires StrictlyPaired(RunRedis(c, ops + [op]).server, k)
    ensures RedisKeeps(c, ops + [op], k)
  {
    var all, es, e := ops + [op], RedisEvents(ops, k), RedisEvent(ops + [op], |ops|, k);
    LastOp(ops, op);
    assert RunRedis(c, all) == RedisStep(c, RunRedis(c, ops), op);
    RedisOtherEffect(c, RunRedis(c, ops), op, k);
    RedisUpStep(ops, op);
    RedisEventsStep(ops, op, k);
    ElapsedStep(es, e);
    AliveStep(es, e);
    NewStart(es, e);
    StandingStep(es, e);
    hide RedisUp, RedisEvents, Elapsed, CountedAlive, VersionKey, StartsAnew, Standing, RunRedis, RedisStep;
  }

  lemma RedisStepKeeps(c: Codec, ops: seq<Op>, op: Op, k: string)
    requires RedisKeeps(c, ops, k) && Apart(op, k) && StrictlyPaired(RunRedis(c, ops + [op]).server, k)
    ensures RedisKeeps(c, ops + [op], k)
  {
    hide RedisKeeps, StrictlyPaired;
    if KeyOf(op) == Some(k) {
      RedisOwnKeeps(c, ops, op, k);
    } else {
      RedisOtherKeeps(c, ops, op, k);
    }
  }

  lemma {:induction false} RedisRunKeeps(c: Codec, ops: seq<Op>, keys: set<string>, k: string)
    requires NoCollision(keys) && OpsOn(keys, ops) && k in keys
    ensures RedisKeeps(c, ops, k)
  {
    RunKeepsPair(c, ops, keys, k);
    if ops != [] {
      var before, last := ops[..|ops| - 1], ops[|ops| - 1];
      RedisRunKeeps(c, before, keys, k);
      assert before + [last] == ops && last in ops;
      if KeyOf(last).Some? && VersionKey(KeyOf(last).value) == VersionKey(k) {
        VersionKeysDiffer(KeyOf(last).value, k);
      }
      RedisStepKeeps(c, before, last, k);
    }
  }

  /** After every history redis answers the value that was last written and still stands, until its lifetime is
      over, under the number of Sets since the last Delete or expiry. */
  lemma RedisAnswers(c: Codec, ops: seq<Op>, keys: set<string>, k: string)
    requires NoCollision(keys) && OpsOn(keys, ops) && k in keys
    ensures var es := RedisEvents(ops, k);
      match RedisGet(c, RunRedis(c, ops), k, NoFault)
      case Ok(e) =>
        && RedisUp(ops, |ops|) && e == Entry(k, e.value, |CountedAlive(es)|, 0)
        && exists i :: Answered(es, i) && es[i].value == e.value
      case Err(error) =>
        if RedisUp(ops, |ops|) then error == KeyNotFound && forall i :: !Answered(es, i)
        else error == BackendUnhealthy
  {
    RedisRunKeeps(c, ops, keys, k);
    StandingAnswered(RedisEvents(ops, k));
    hide RedisEvents, RedisUp, Elapsed, Answered, Standing, RunRedis, VersionKey;
  }

  // ----- What Sets and Deletes answer -----

  /** A Set is answered by what became of it: down, taken, or refused; a Delete by whether the store is up. */
  lemma MemoryWriteAnswers(ops: seq<NV.MemoryOp>, e: Entry, taken: bool)
    ensures MemorySet(NV.RunOps(ops), e, taken).1
         == if !MemoryUp(ops, |ops|) then Err(BackendUnhealthy) else if taken then Ok(()) else Err(Failed)
    ensures MemoryDelete(NV.RunOps(ops), e.key).1
         == if MemoryUp(ops, |ops|) then Ok(()) else Err(BackendUnhealthy)
  {
    MemoryRunKeeps(ops, e.key);
    hide MemoryUp, MemoryEvents;
  }

  /** Both fail exactly when the store is down or something was lost on the way. */
  lemma RedisWriteAnswers(c: Codec, ops: seq<Op>, keys: set<string>, e: Entry, fault: Fault)
    requires NoCollision(keys) && OpsOn(keys, ops) && e.key in keys
    ensures RedisSet(c, RunRedis(c, ops), e, fault).1
         == if !RedisUp(ops, |ops|) then Err(BackendUnhealthy) else if fault == NoFault then Ok(()) else Err(Failed)
    ensures RedisDelete(RunRedis(c, ops), e.key, fault).1
         == if !RedisUp(ops, |ops|) then Err(BackendUnhealthy) else if fault == NoFault then Ok(()) else Err(Failed)
  {
    RedisRunKeeps(c, ops, keys, e.key);
    assert e.key != VersionKey(e.key) by { assert |VersionKey(e.key)| == |e.key| + 8; }
    hide RedisUp, RedisEvents, VersionKey, RunRedis;
  }
}
