/** What the load balancer does for each backend: who is listed, and how often each one listed is chosen. */
module FairShares {
  import opened Backends
  import opened Balance
  import opened LoadBalancer

  // ----- Who is listed -----

  /** hs are the healthy ones of bs, in their order: place j of hs is place at[j] of bs. */
  ghost predicate HealthyPlaces(bs: seq<Backend>, hs: seq<Backend>, at: seq<nat>)
    reads set b | b in bs
  {
    && |at| == |hs|
    && (forall i, j | 0 <= i < j < |at| :: at[i] < at[j])
    && (forall j | 0 <= j < |at| :: at[j] < |bs| && hs[j] == bs[at[j]])
    && (forall i: nat | i < |bs| :: bs[i].healthy <==> i in at)
  }

  lemma PlacesStep(bs: seq<Backend>, hs: seq<Backend>, at: seq<nat>, b: Backend)
    requires HealthyPlaces(bs, hs, at)
    ensures b.healthy ==> HealthyPlaces(bs + [b], hs + [b], at + [|bs|])
    ensures !b.healthy ==> HealthyPlaces(bs + [b], hs, at)
  {
    var longer := bs + [b];
    assert longer[|bs|] == b && forall i | 0 <= i < |bs| :: longer[i] == bs[i];
  }

  /** The list kept is exactly that of the healthy places. */
  lemma {:induction false} ListsHealthyPlaces(bs: seq<Backend>) returns (at: seq<nat>)
    ensures HealthyPlaces(bs, HealthyOf(bs), at)
  {
    at := [];
    if bs != [] {
      var init, last := bs[..|bs| - 1], bs[|bs| - 1];
      assert bs == init + [last];
      at := ListsHealthyPlaces(init);
      PlacesStep(init, HealthyOf(init), at, last);
      assert HealthyOf(init) + [] == HealthyOf(init);
      hide HealthyPlaces;
      if last.healthy {
        at := at + [|init|];
      }
    }
  }

  /** A healthy backend is listed as often as it was given, and an unhealthy one not at all. */
  lemma {:induction false} ListedAsGiven(bs: seq<Backend>, b: Backend)
    ensures multiset(HealthyOf(bs))[b] == if b.healthy then multiset(bs)[b] else 0
  {
    if bs != [] {
      var n := |bs| - 1;
      assert bs == bs[..n] + [bs[n]];
      ListedAsGiven(bs[..n], b);
    }
  }

  lemma ListKeepsUniqueIds(bs: seq<Backend>)
    requires UniqueIds(bs)
    ensures UniqueIds(HealthyOf(bs))
  {
    var at := ListsHealthyPlaces(bs);
  }

  lemma ListStep(bs: seq<Backend>, b: Backend)
    ensures HealthyOf(bs + [b]) == HealthyOf(bs) + if b.healthy then [b] else []
  {
    assert (bs + [b])[..|bs|] == bs;
  }

  lemma {:induction false} AllHealthyListed(bs: seq<Backend>)
    requires forall i | 0 <= i < |bs| :: bs[i].healthy
    ensures HealthyOf(bs) == bs
  {
    if bs != [] {
      var init, last := bs[..|bs| - 1], bs[|bs| - 1];
      AllHealthyListed(init);
      ListStep(init, last);
      hide HealthyOf;
      assert bs == init + [last];
    }
  }

  // ----- Weighted selection, backend by backend -----

  /** The draws for which the weighted strategy chooses b. */
  function DrawsOf(hs: seq<Backend>, b: Backend): set<int>
    reads set x | x in hs
  {
    set draw | 0 <= draw < Total(Weights(hs)) && hs[Pick(Weights(hs), draw)] == b
  }

  lemma PickInit(ws: seq<int>, w: int, draw: int)
    requires 0 <= draw < Total(ws + [w])
    ensures Total(ws + [w]) == Total(ws) + if w <= 0 then 1 else w
    ensures Pick(ws + [w], draw) == if draw < Total(ws) then Pick(ws, draw) else |ws|
  {
    TotalAppend(ws, w);
    assert (ws + [w])[..|ws|] == ws;
    if draw < Total(ws) {
      var k := Pick(ws, draw);
      PickIff(ws, k, draw);
      assert (ws + [w])[..k] == ws[..k];
      PickIff(ws + [w], k, draw);
    } else {
      PickIff(ws + [w], |ws|, draw);
    }
  }

  lemma DrawsStep(hs: seq<Backend>, last: Backend, b: Backend)
    ensures |DrawsOf(hs + [last], b)|
         == |DrawsOf(hs, b)| + if last != b then 0 else if b.weight <= 0 then 1 else b.weight
  {
    var all, ws := hs + [last], Weights(hs);
    assert Weights(all) == ws + [last.weight];
    TotalAppend(ws, last.weight);
    var lo, hi := Total(ws), Total(ws + [last.weight]);
    forall draw | 0 <= draw < hi
      ensures all[Pick(Weights(all), draw)] == if draw < lo then hs[Pick(ws, draw)] else last
    {
      PickInit(ws, last.weight, draw);
    }
    hide Pick;
    assert DrawsOf(all, b) == DrawsOf(hs, b) + if last == b then Interval(lo, hi) else {};
  }

  lemma OneMore(listed: nat, w: int)
    ensures (listed + 1) * w == listed * w + w
  {}

  lemma ListedLonger(hs: seq<Backend>, last: Backend, b: Backend)
    ensures multiset(hs + [last])[b] == multiset(hs)[b] + if last == b then 1 else 0
  {}

  /** Of all draws below the total weight, each listed backend is chosen by its weight's many, at least by one, for
      every time it is listed. */
  lemma {:induction false} WeightedShare(hs: seq<Backend>, b: Backend)
    ensures |DrawsOf(hs, b)| == multiset(hs)[b] * if b.weight <= 0 then 1 else b.weight
  {
    if hs != [] {
      var init: seq<Backend>, last := hs[..|hs| - 1], hs[|hs| - 1];
      WeightedShare(init, b);
      DrawsStep(init, last, b);
      ListedLonger(init, last, b);
      OneMore(multiset(init)[b], if b.weight <= 0 then 1 else b.weight);
      hide DrawsOf;
      assert hs == init + [last];
    }
  }

  /** The healthy backends of a list share all draws by their weights, and the others have none. */
  lemma SharesOfGiven(bs: seq<Backend>, b: Backend)
    ensures |DrawsOf(HealthyOf(bs), b)|
         == if b.healthy then multiset(bs)[b] * (if b.weight <= 0 then 1 else b.weight) else 0
  {
    ListedAsGiven(bs, b);
    WeightedShare(HealthyOf(bs), b);
  }

  // ----- Round-robin, backend by backend -----

  predicate Within(served: seq<nat>, n: nat) {
    forall i | 0 <= i < |served| :: served[i] < n
  }

  /** The backends that the calls were answered, in their order. */
  function Answered(hs: seq<Backend>, served: seq<nat>): seq<Backend>
    requires Within(served, |hs|)
  {
    seq(|served|, i requires 0 <= i < |served| => hs[served[i]])
  }

  lemma {:induction false} AnsweredByPosition(hs: seq<Backend>, served: seq<nat>, p: nat)
    requires Within(served, |hs|) && p < |hs| && UniqueIds(hs)
    ensures multiset(Answered(hs, served))[hs[p]] == multiset(served)[p]
  {
    if served != [] {
      var init, last := served[..|served| - 1], served[|served| - 1];
      assert served == init + [last];
      AnsweredByPosition(hs, init, p);
      assert Answered(hs, served) == Answered(hs, init) + [hs[last]];
      assert last < |hs| && (hs[last].id == hs[p].id ==> last == p);
    }
  }

  lemma {:induction false} ServedPositions(n: nat, c: nat, acts: seq<Action>)
    requires n > 0
    ensures Within(Run(n, c, acts).served, n)
  {
    if acts != [] {
      ServedPositions(n, c, acts[..|acts| - 1]);
    }
  }

  lemma RotationOfList(hs: seq<Backend>, p: nat, c: nat, acts: seq<Action>)
    requires UniqueIds(hs) && p < |hs| && c < WORD && Run(|hs|, c, acts).pending == map[]
    requires Unwrapped(c + Tickets(|hs|, c, acts), |hs|)
    ensures var served := Run(|hs|, c, acts).served;
      Within(served, |hs|) && Share(multiset(Answered(hs, served))[hs[p]], |served|, |hs|)
  {
    hide Tickets, Unwrapped, Share, Run;
    ServedPositions(|hs|, c, acts);
    AnsweredByPosition(hs, Run(|hs|, c, acts).served, p);
    RoundRobinFair(|hs|, c, acts, p);
  }

  lemma ListedPlace(bs: seq<Backend>, b: Backend) returns (p: nat)
    requires b in bs && b.healthy
    ensures p < |HealthyOf(bs)| && HealthyOf(bs)[p] == b
  {
    p :| p < |HealthyOf(bs)| && HealthyOf(bs)[p] == b;
  }

  /** In every interleaving of round-robin calls on a list with unique ids, of which n backends are healthy, each of
      the healthy ones has been the answer of floor(m/n) or ceil(m/n) of the m finished calls, as long as the
      counter does not wrap or n divides its range. */
  lemma RotationShare(bs: seq<Backend>, b: Backend, c: nat, acts: seq<Action>)
    requires UniqueIds(bs) && b in bs && b.healthy
    requires var n := |HealthyOf(bs)|;
      c < WORD && Run(n, c, acts).pending == map[] && Unwrapped(c + Tickets(n, c, acts), n)
    ensures var hs, served := HealthyOf(bs), Run(|HealthyOf(bs)|, c, acts).served;
      Within(served, |hs|) && Share(multiset(Answered(hs, served))[b], |served|, |hs|)
  {
    ListKeepsUniqueIds(bs);
    var p := ListedPlace(bs, b);
    hide *;
    RotationOfList(HealthyOf(bs), p, c, acts);
  }
}
