/** The in-memory store under concurrent requests against the store function: a call whose steps nothing comes
    between does what the atomic call does. */
module AtomicCalls {
  import opened Storage
  import opened Stores
  import VR = VersionedReads
  import NV = NamedVersions

  /** The two hold the same values under the same versions. */
  ghost predicate Shows(m: VR.Mem, a: Memory) {
    && a.healthy
    && (forall k :: VR.VersionOf(m, k) == VersionOf(a, k))
    && (forall k :: k in m.cells <==> InCache(a, k))
    && (forall k | k in m.cells :: m.cells[k].value == a.cache[k].value)
  }

  /** Nothing else of the concurrent store has changed. */
  predicate Settled(m: VR.Mem, t: VR.Mem) {
    t.setting == m.setting && t.getting == m.getting && t.buffered == m.buffered
  }

  lemma SetSteps(m: VR.Mem, i: nat, e: Entry, taken: bool)
    requires i !in m.setting
    ensures var stamped := VR.Stamped(e.value, VR.VersionOf(m, e.key) + 1);
      var submitted := VR.Step(VR.Step(m, VR.Increment(i, e.key, e.value)), VR.Submit(i, !taken));
      (if taken then VR.Step(submitted, VR.ApplyWrite(|m.buffered|)) else submitted)
        == m.(versions := m.versions[e.key := stamped.ticket],
              cells := if taken then m.cells[e.key := stamped] else m.cells)
  {
    var stamped := VR.Stamped(e.value, VR.VersionOf(m, e.key) + 1);
    assert m.setting[i := (e.key, stamped)] - {i} == m.setting;
    var submitted := VR.Step(VR.Step(m, VR.Increment(i, e.key, e.value)), VR.Submit(i, !taken));
    if taken {
      assert submitted.buffered == m.buffered + [(e.key, stamped)];
      assert VR.Without(submitted.buffered, |m.buffered|) == m.buffered;
    }
  }

  lemma SetShows(m: VR.Mem, a: Memory, k: string, stamped: VR.Stamped, expiry: int, taken: bool)
    requires Shows(m, a) && expiry > a.now && stamped.ticket == VR.VersionOf(m, k) + 1
    ensures Shows(
      m.(versions := m.versions[k := stamped.ticket], cells := if taken then m.cells[k := stamped] else m.cells),
      a.(versions := a.versions[k := VersionOf(a, k) + 1],
         cache := if taken then a.cache[k := Stored(stamped.value, expiry)] else a.cache))
  {
    var t := m.(versions := m.versions[k := stamped.ticket],
                cells := if taken then m.cells[k := stamped] else m.cells);
    var b := a.(versions := a.versions[k := VersionOf(a, k) + 1],
                cache := if taken then a.cache[k := Stored(stamped.value, expiry)] else a.cache);
    assert VR.VersionOf(m, k) == VersionOf(a, k);
    forall key ensures VR.VersionOf(t, key) == VersionOf(b, key) {
      assert VR.VersionOf(m, key) == VersionOf(a, key);
    }
    assert forall key :: InCache(b, key) <==> InCache(a, key) || (taken && key == k);
  }

  lemma MemorySetIs(a: Memory, e: Entry, taken: bool) returns (expiry: int)
    requires a.healthy
    ensures expiry > a.now
    ensures MemorySet(a, e, taken).0
         == a.(versions := a.versions[e.key := VersionOf(a, e.key) + 1],
               cache := if taken then a.cache[e.key := Stored(e.value, expiry)] else a.cache)
  {
    expiry := a.now + Ttl(e.ttl);
  }

  /** A Set raises the version by one, submits the value, and, unless it was refused, has it applied. */
  lemma SetAtOnce(m: VR.Mem, a: Memory, i: nat, e: Entry, taken: bool)
    requires Shows(m, a) && i !in m.setting
    ensures var submitted := VR.Step(VR.Step(m, VR.Increment(i, e.key, e.value)), VR.Submit(i, !taken));
      var t := if taken then VR.Step(submitted, VR.ApplyWrite(|m.buffered|)) else submitted;
      && Shows(t, MemorySet(a, e, taken).0) && Settled(m, t) && t.answers == m.answers
      && (taken ==> e.key in t.cells && t.cells[e.key].ticket == VersionOf(a, e.key) + 1)
  {
    SetSteps(m, i, e, taken);
    var expiry := MemorySetIs(a, e, taken);
    assert VR.VersionOf(m, e.key) == VersionOf(a, e.key);
    hide *;
    SetShows(m, a, e.key, VR.Stamped(e.value, VR.VersionOf(m, e.key) + 1), expiry, taken);
  }

  /** A Get that finds the key answers its value and version; one that does not, answers nothing. */
  lemma GetAtOnce(m: VR.Mem, a: Memory, i: nat, k: string)
    requires Shows(m, a) && i !in m.getting
    ensures var t := VR.Step(VR.Step(m, VR.ReadCell(i, k)), VR.ReadVersion(i));
      match MemoryGet(a, k)
      case Ok(e) =>
        k in m.cells && Settled(m, t) && t.answers == m.answers + [VR.Answer(k, m.cells[k], e.version)]
        && e.value == m.cells[k].value && Shows(t, a)
      case Err(error) => error == KeyNotFound && t == m
  {
    if k in m.cells {
      assert m.getting[i := (k, m.cells[k])] - {i} == m.getting;
    }
  }

  /** A Delete removes the value and then the version. */
  lemma DeleteAtOnce(m: VR.Mem, a: Memory, k: string)
    requires Shows(m, a)
    ensures var t := VR.Step(VR.Step(m, VR.DeleteCell(k)), VR.DeleteVersion(k));
      Shows(t, MemoryDelete(a, k).0) && Settled(m, t) && t.answers == m.answers
  {
    var t, b := VR.Step(VR.Step(m, VR.DeleteCell(k)), VR.DeleteVersion(k)), MemoryDelete(a, k).0;
    forall key ensures VR.VersionOf(t, key) == VersionOf(b, key) {
      assert VR.VersionOf(m, key) == VersionOf(a, key);
    }
  }

  /** Expiring a key is evicting it, and is what waiting does if that key's time is the only one to run out. */
  lemma ExpireAtOnce(m: VR.Mem, a: Memory, k: string, seconds: nat)
    requires Shows(m, a)
    ensures Shows(VR.Step(m, VR.Expire(k)), NV.Apply(a, NV.Evict(k)))
    ensures (forall key | key in m.cells :: a.now + seconds < a.cache[key].expiry <==> key != k) ==>
              Shows(VR.Step(m, VR.Expire(k)), NV.Apply(a, NV.Pass(seconds)))
  {
    var t, b, c := VR.Step(m, VR.Expire(k)), NV.Apply(a, NV.Evict(k)), NV.Apply(a, NV.Pass(seconds));
    forall key ensures VR.VersionOf(t, key) == VersionOf(b, key) == VersionOf(c, key) {
      assert VR.VersionOf(m, key) == VersionOf(a, key);
    }
  }
}
