/** The load balancer: a list of backends edited in place and the selection loops over it. */
module LoadBalancer {
  import opened Storage
  import opened Backends
  import opened Balance

  datatype Strategy = RoundRobin | Weighted | Random | Other

  function HealthyOf(bs: seq<Backend>): (hs: seq<Backend>)
    reads set b | b in bs
    ensures forall b | b in hs :: b in bs && b.healthy
    ensures forall b | b in bs && b.healthy :: b in hs
  {
    if bs == [] then []
    else HealthyOf(bs[..|bs| - 1]) + if bs[|bs| - 1].healthy then [bs[|bs| - 1]] else []
  }

  function Weights(bs: seq<Backend>): seq<int> {
    seq(|bs|, i requires 0 <= i < |bs| => bs[i].weight)
  }

  predicate UniqueIds(bs: seq<Backend>) {
    forall i, j | 0 <= i < j < |bs| :: bs[i].id != bs[j].id
  }

  class LoadBalancer {
    const strategy: Strategy
    var backends: seq<Backend>
    var counter: nat

    constructor (strategy: Strategy)
      ensures this.strategy == strategy && backends == [] && counter == 0
    {
      this.strategy, backends, counter := strategy, [], 0;
    }

    method SetBackends(bs: seq<Backend>)
      modifies `backends
      ensures backends == HealthyOf(bs)
    {
      var list := KeepHealthy(bs);
      backends := list;
    }

    method AddBackend(backend: Backend)
      modifies `backends
      ensures backends == old(backends)
                + if backend.healthy && (forall b | b in old(backends) :: b.id != backend.id) then [backend] else []
      ensures UniqueIds(old(backends)) ==> UniqueIds(backends)
    {
      for i := 0 to |backends|
        invariant backends == old(backends) && forall j | 0 <= j < i :: backends[j].id != backend.id
      {
        if backends[i].id == backend.id {
          return;
        }
      }
      if backend.healthy {
        backends := backends + [backend];
      }
    }

    method RemoveBackend(id: string)
      modifies `backends
      ensures (forall b | b in old(backends) :: b.id != id) ==> backends == old(backends)
      ensures (exists b | b in old(backends) :: b.id == id) ==>
                exists i | 0 <= i < |old(backends)| ::
                  && old(backends)[i].id == id && (forall j | 0 <= j < i :: old(backends)[j].id != id)
                  && backends == old(backends)[..i] + old(backends)[i + 1..]
      ensures UniqueIds(old(backends)) ==> UniqueIds(backends) && forall b | b in backends :: b.id != id
    {
      for i := 0 to |backends|
        invariant backends == old(backends) && forall j | 0 <= j < i :: backends[j].id != id
      {
        if backends[i].id == id {
          backends := backends[..i] + backends[i + 1..];
          assert forall j | 0 <= j < |backends| :: backends[j] == old(backends)[if j < i then j else j + 1];
          return;
        }
      }
    }

    /** Next: never an unhealthy backend, and an error exactly when none is healthy.  `intn` is the
        random generator: it answers a number below its argument. */
    method Next(intn: int -> int) returns (r: Result<Backend>)
      requires forall n | n > 0 :: 0 <= intn(n) < n
      modifies `counter
      ensures var hs := HealthyOf(backends);
        && (r.Err? <==> hs == []) && (r.Err? ==> r.error == BackendUnhealthy && counter == old(counter))
        && (r.Ok? ==> r.value in backends && r.value.healthy)
        && (hs != [] ==> match strategy
              case RoundRobin =>
                counter == (old(counter) + 1) % 0x1_0000_0000_0000_0000 && r.value == hs[counter % |hs|]
              case Random => counter == old(counter) && r.value == hs[intn(|hs|)]
              case _ =>
                counter == old(counter) && r.value == hs[Pick(Weights(hs), intn(Total(Weights(hs))))])
    {
      var hs := KeepHealthy(backends);
      if |hs| == 0 {
        return Err(BackendUnhealthy);
      }
      match strategy
      case RoundRobin =>
        counter := (counter + 1) % Balance.WORD;
        r := Ok(hs[counter % |hs|]);
      case Random =>
        r := Ok(hs[intn(|hs|)]);
      case _ =>
        var b := WeightedRandom(hs, intn);
        r := Ok(b);
    }
  }

  /** getHealthyBackends. */
  method KeepHealthy(bs: seq<Backend>) returns (hs: seq<Backend>)
    ensures hs == HealthyOf(bs)
  {
    hs := [];
    for i := 0 to |bs|
      invariant hs == HealthyOf(bs[..i])
    {
      assert bs[..i + 1][..i] == bs[..i];
      if bs[i].healthy {
        hs := hs + [bs[i]];
      }
    }
    assert bs[..|bs|] == bs;
  }

  /** The draw falls below the total weight, so the scan always stops inside the list. */
  method WeightedRandom(bs: seq<Backend>, intn: int -> int) returns (b: Backend)
    requires bs != [] && forall n | n > 0 :: 0 <= intn(n) < n
    ensures b == bs[Pick(Weights(bs), intn(Total(Weights(bs))))]
  {
    ghost var ws := Weights(bs);
    var totalWeight := 0;
    for i := 0 to |bs|
      invariant totalWeight == Total(ws[..i])
    {
      var weight := bs[i].weight;
      if weight <= 0 {
        weight := 1;
      }
      TotalAppend(ws[..i], ws[i]);
      assert ws[..i + 1] == ws[..i] + [ws[i]];
      totalWeight := totalWeight + weight;
    }
    assert ws[..|bs|] == ws;
    var r := intn(totalWeight);
    var k := 0;
    b := bs[0];
    while k < |bs|
      invariant 0 <= k <= |bs| && 0 <= r < Total(ws[k..])
      invariant Pick(ws, intn(Total(ws))) == k + Pick(ws[k..], r)
    {
      var weight := bs[k].weight;
      if weight <= 0 {
        weight := 1;
      }
      assert ws[k..][1..] == ws[k + 1..];
      r := r - weight;
      if r < 0 {
        return bs[k];
      }
      k := k + 1;
    }
    assert false;
  }

  lemma {:induction false} TotalAppend(ws: seq<int>, w: int)
    ensures Total(ws + [w]) == Total(ws) + Weight(w)
  {
    TotalSplits(ws + [w], |ws|);
    assert (ws + [w])[..|ws|] == ws && (ws + [w])[|ws|..] == [w];
    assert Total([w]) == Weight(w) + Total([]);
  }
}
