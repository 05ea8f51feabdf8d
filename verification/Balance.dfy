/** Exact proportions of weighted selection, and fairness of round-robin under interleaving. */
module Balance {

  // ----- Weighted selection -----

  /** Weights below one count as one. */
  function Weight(w: int): (r: int)
    ensures r >= 1
  {
    if w <= 0 then 1 else w
  }

  function Total(ws: seq<int>): (t: int)
    ensures t >= |ws|
  {
    if ws == [] then 0 else Weight(ws[0]) + Total(ws[1..])
  }

  /** The position a draw falls on. */
  function Pick(ws: seq<int>, draw: int): (k: nat)
    requires 0 <= draw < Total(ws)
    ensures k < |ws|
  {
    if draw < Weight(ws[0]) then 0 else 1 + Pick(ws[1..], draw - Weight(ws[0]))
  }

  lemma {:induction false} TotalSplits(ws: seq<int>, k: nat)
    requires k <= |ws|
    ensures Total(ws) == Total(ws[..k]) + Total(ws[k..])
  {
    if k == 0 {
      assert ws[0..] == ws;
    } else {
      TotalSplits(ws[1..], k - 1);
      assert ws[..k][1..] == ws[1..][..k - 1] && ws[k..] == ws[1..][k - 1..];
    }
  }

  /** A position owns the draws between the totals before and after it. */
  lemma {:induction false} PickIff(ws: seq<int>, k: nat, draw: int)
    requires k < |ws| && 0 <= draw < Total(ws)
    ensures Pick(ws, draw) == k <==> Total(ws[..k]) <= draw < Total(ws[..k]) + Weight(ws[k])
  {
    if k == 0 {
      assert Total(ws[..0]) == 0;
    } else {
      assert ws[..k][1..] == ws[1..][..k - 1];
      if draw >= Weight(ws[0]) {
        PickIff(ws[1..], k - 1, draw - Weight(ws[0]));
      }
    }
  }

  function DrawsFor(ws: seq<int>, k: nat): set<int> {
    set draw | 0 <= draw < Total(ws) && Pick(ws, draw) == k
  }

  function Interval(lo: int, hi: int): (s: set<int>)
    requires lo <= hi
    ensures |s| == hi - lo
    ensures forall x :: x in s <==> lo <= x < hi
    decreases hi - lo
  {
    if lo == hi then {} else Interval(lo, hi - 1) + {hi - 1}
  }

  /** Out of all draws below the total weight, each position is chosen by exactly its weight's many. */
  lemma ExactProportions(ws: seq<int>, k: nat)
    requires k < |ws|
    ensures |DrawsFor(ws, k)| == if ws[k] <= 0 then 1 else ws[k]
  {
    var lo := Total(ws[..k]);
    TotalSplits(ws, k);
    assert Total(ws[k..]) >= Weight(ws[k]) by { assert ws[k..][0] == ws[k]; }
    forall draw | 0 <= draw < Total(ws) ensures Pick(ws, draw) == k <==> draw in Interval(lo, lo + Weight(ws[k])) {
      PickIff(ws, k, draw);
    }
    assert DrawsFor(ws, k) == Interval(lo, lo + Weight(ws[k]));
  }

  // ----- Round-robin -----

  const WORD := 0x1_0000_0000_0000_0000

  /** The position a ticket falls on. */
  function Position(ticket: nat, n: nat): (p: nat)
    requires n > 0
    ensures p < n
  {
    ticket % n
  }

  /** How many of the m tickets after c fall on position p of n. */
  function Hits(c: nat, m: nat, n: nat, p: nat): nat
    requires n > 0
  {
    if m == 0 then 0 else Hits(c, m - 1, n, p) + if Position(c + m, n) == p then 1 else 0
  }

  lemma {:induction false} HitsShift(c: nat, m: nat, n: nat, p: nat)
    requires n > 0
    ensures Hits(c, m + 1, n, p) == (if Position(c + 1, n) == p then 1 else 0) + Hits(c + 1, m, n, p)
  {
    hide Position;
    if m > 0 {
      HitsShift(c, m - 1, n, p);
      assert c + 1 + m == c + (m + 1);
    } else {
      assert Hits(c, 1, n, p) == Hits(c, 0, n, p) + if Position(c + 1, n) == p then 1 else 0;
    }
  }

  lemma {:induction false} HitsSplit(c: nat, m: nat, more: nat, n: nat, p: nat)
    requires n > 0
    ensures Hits(c, m + more, n, p) == Hits(c, m, n, p) + Hits(c + m, more, n, p)
  {
    hide Position;
    if more > 0 {
      HitsSplit(c, m, more - 1, n, p);
      assert c + (m + more) == c + m + more;
    }
  }

  lemma MulAtLeast(n: nat, d: int)
    ensures d >= 1 ==> n * d >= n
    ensures d <= -1 ==> n * d + n <= 0
  {}

  /** Quotient and remainder are unique. */
  lemma DivMod(x: int, q: int, r: int, n: nat)
    requires n > 0 && x == n * q + r && 0 <= r < n
    ensures x / n == q && x % n == r
  {
    var d := x / n - q;
    assert n * d == n * (x / n) - n * q;
    MulAtLeast(n, d);
  }

  lemma ModWraps(x: nat, n: nat)
    requires n > 0
    ensures (x + n) % n == x % n
  {
    assert n * (x / n + 1) == n * (x / n) + n;
    DivMod(x + n, x / n + 1, x % n, n);
  }

  lemma {:induction false} FirstRound(j: nat, n: nat, p: nat)
    requires p < n && j < n
    ensures Hits(0, j, n, p) == if 1 <= p <= j then 1 else 0
  {
    if j > 0 {
      FirstRound(j - 1, n, p);
      DivMod(j, 0, j, n);
      assert 0 + j == j;
    }
  }

  /** Any n consecutive tickets visit every position once. */
  lemma {:induction false} EveryRoundVisitsAll(c: nat, n: nat, p: nat)
    requires p < n
    ensures Hits(c, n, n, p) == 1
  {
    if c == 0 {
      FirstRound(n - 1, n, p);
      DivMod(n, 1, 0, n);
      assert 0 + n == n;
    } else {
      EveryRoundVisitsAll(c - 1, n, p);
      HitsShift(c - 1, n - 1, n, p);
      ModWraps(c, n);
      assert Hits(c, n, n, p) == Hits(c, n - 1, n, p) + if Position(c + n, n) == p then 1 else 0;
    }
  }

  lemma {:induction false} HitsGrow(c: nat, m: nat, more: nat, n: nat, p: nat)
    requires n > 0 && m <= more
    ensures Hits(c, m, n, p) <= Hits(c, more, n, p)
    decreases more - m
  {
    if m < more {
      HitsGrow(c, m + 1, more, n, p);
    }
  }

  /** hits is floor(m/n) or ceil(m/n). */
  predicate Share(hits: nat, m: nat, n: nat)
    requires n > 0
  {
    m / n <= hits <= (m + n - 1) / n
  }

  lemma DivLess(x: int, n: nat)
    requires n > 0
    ensures (x + n) / n == x / n + 1
  {
    assert n * (x / n + 1) == n * (x / n) + n;
    DivMod(x + n, x / n + 1, x % n, n);
  }

  lemma DivStep(m: nat, n: nat)
    requires n > 0 && m >= n
    ensures m / n == (m - n) / n + 1
    ensures (m + n - 1) / n == (m - n + n - 1) / n + 1
  {
    DivLess(m - n, n);
    DivLess(m - 1, n);
    assert (m - n) + n == m && (m - 1) + n == m + n - 1 && m - n + n - 1 == m - 1;
  }

  lemma DivSmall(m: nat, n: nat)
    requires 0 < m < n
    ensures m / n == 0 && (m + n - 1) / n == 1
  {
    assert m + n - 1 == n + (m - 1);
    ModSmall(m - 1, n);
  }

  lemma ModSmall(x: nat, n: nat)
    requires x < n
    ensures (n + x) / n == 1
  {}

  /** m tickets give each position floor(m/n) or ceil(m/n) visits. */
  lemma {:induction false} Fair(c: nat, m: nat, n: nat, p: nat)
    requires p < n
    ensures Share(Hits(c, m, n, p), m, n)
    decreases m
  {
    if m >= n {
      Fair(c + n, m - n, n, p);
      EveryRoundVisitsAll(c, n, p);
      HitsSplit(c, n, m - n, n, p);
      DivStep(m, n);
    } else if m > 0 {
      HitsGrow(c, m, n, n, p);
      EveryRoundVisitsAll(c, n, p);
      DivSmall(m, n);
    } else {
      assert (n - 1) / n == 0;
    }
  }

  /** Concurrent calls: each takes a ticket atomically and later uses it; `served` lists the positions
      in the order in which calls return. */
  datatype Rotation = Rotation(counter: nat, pending: map<nat, nat>, served: seq<nat>)

  datatype Action = TakeTicket(caller: nat) | Return(caller: nat)

  /** The counter is a 64-bit word. */
  function Next(counter: nat): nat {
    (counter + 1) % WORD
  }

  function Step(n: nat, s: Rotation, a: Action): Rotation
    requires n > 0
  {
    match a
    case TakeTicket(i) =>
      if i in s.pending then s
      else
        var ticket := Next(s.counter);
        s.(counter := ticket, pending := s.pending[i := ticket])
    case Return(i) =>
      if i !in s.pending then s
      else s.(pending := s.pending - {i}, served := s.served + [Position(s.pending[i], n)])
  }

  function Run(n: nat, c: nat, acts: seq<Action>): Rotation
    requires n > 0
  {
    if acts == [] then Rotation(c, map[], [])
    else Step(n, Run(n, c, acts[..|acts| - 1]), acts[|acts| - 1])
  }

  function Waiting(s: Rotation, n: nat, p: nat): set<nat>
    requires n > 0
  {
    set i | i in s.pending && Position(s.pending[i], n) == p
  }

  /** How many tickets the calls of this run have taken. */
  function Tickets(n: nat, c: nat, acts: seq<Action>): nat
    requires n > 0
  {
    if acts == [] then 0
    else
      var before, last := acts[..|acts| - 1], acts[|acts| - 1];
      Tickets(n, c, before) + if last.TakeTicket? && last.caller !in Run(n, c, before).pending then 1 else 0
  }

  /** Every ticket taken is either served or still held by one caller. */
  ghost predicate Accounted(s: Rotation, c: nat, taken: nat, n: nat, p: nat)
    requires n > 0
  {
    && s.counter == (c + taken) % WORD
    && |s.served| + |s.pending| == taken
    && multiset(s.served)[p] + |Waiting(s, n, p)| == Hits(c, taken, n, p)
  }

  /** The number of backends divides the counter's range. */
  predicate DividesRange(n: nat)
    requires n > 0
  {
    WORD % n == 0
  }

  /** Up to the wrap of the counter, or when n divides its range, a ticket's position does not show it. */
  predicate Unwrapped(x: nat, n: nat)
    requires n > 0
  {
    x < WORD || DividesRange(n)
  }

  lemma WrapKeepsPosition(x: nat, n: nat)
    requires n > 0 && Unwrapped(x, n)
    ensures Position(x % WORD, n) == Position(x, n)
  {
    if x < WORD {
      DivMod(x, 0, x, WORD);
    } else {
      var turns, rest := x / WORD, x % WORD;
      assert WORD == n * (WORD / n);
      MulSwap(n, WORD / n, turns);
      MulSum(n, (WORD / n) * turns, rest / n);
      DivMod(x, (WORD / n) * turns + rest / n, rest % n, n);
    }
  }

  lemma MulSwap(n: nat, a: nat, b: nat)
    ensures (n * a) * b == n * (a * b)
  {}

  lemma MulSum(n: nat, a: nat, b: nat)
    ensures n * (a + b) == n * a + n * b
  {}

  lemma NextTicket(x: nat)
    ensures Next(x % WORD) == (x + 1) % WORD
  {}

  lemma WaitingGrows(s: Rotation, i: nat, ticket: nat, n: nat, p: nat)
    requires n > 0 && i !in s.pending
    ensures var t := s.(pending := s.pending[i := ticket]);
      && |t.pending| == |s.pending| + 1
      && |Waiting(t, n, p)| == |Waiting(s, n, p)| + if Position(ticket, n) == p then 1 else 0
  {
    hide Position;
    var t := s.(pending := s.pending[i := ticket]);
    assert t.pending.Keys == s.pending.Keys + {i};
    assert |t.pending| == |t.pending.Keys| && |s.pending| == |s.pending.Keys|;
    assert i !in Waiting(s, n, p);
    if Position(ticket, n) == p {
      assert Waiting(t, n, p) == Waiting(s, n, p) + {i};
    } else {
      assert Waiting(t, n, p) == Waiting(s, n, p);
    }
  }

  lemma TakeAccounted(s: Rotation, i: nat, c: nat, taken: nat, n: nat, p: nat)
    requires n > 0 && i !in s.pending && Accounted(s, c, taken, n, p) && Unwrapped(c + taken + 1, n)
    ensures Accounted(Step(n, s, TakeTicket(i)), c, taken + 1, n, p)
  {
    hide Position;
    NextTicket(c + taken);
    var ticket := (c + taken + 1) % WORD;
    assert Step(n, s, TakeTicket(i)) == s.(counter := ticket, pending := s.pending[i := ticket]);
    hide Step;
    WrapKeepsPosition(c + taken + 1, n);
    WaitingGrows(s, i, ticket, n, p);
    hide Waiting;
    assert c + (taken + 1) == c + taken + 1;
  }

  lemma ReturnAccounted(s: Rotation, i: nat, c: nat, taken: nat, n: nat, p: nat)
    requires n > 0 && i in s.pending && Accounted(s, c, taken, n, p)
    ensures Accounted(Step(n, s, Return(i)), c, taken, n, p)
  {
    hide Position;
    var t := Step(n, s, Return(i));
    assert t.pending.Keys == s.pending.Keys - {i};
    assert |t.pending| == |t.pending.Keys| && |s.pending| == |s.pending.Keys|;
    assert Waiting(t, n, p) == Waiting(s, n, p) - {i};
    assert i in Waiting(s, n, p) <==> Position(s.pending[i], n) == p;
  }

  lemma {:induction false} RunAccounted(n: nat, c: nat, acts: seq<Action>, p: nat)
    requires n > 0 && c < WORD && Unwrapped(c + Tickets(n, c, acts), n)
    ensures Accounted(Run(n, c, acts), c, Tickets(n, c, acts), n, p)
  {
    if acts == [] {
      DivMod(c, 0, c, WORD);
    } else {
      hide Accounted, Hits, Waiting;
      var before := acts[..|acts| - 1];
      var s := Run(n, c, before);
      RunAccounted(n, c, before, p);
      match acts[|acts| - 1]
      case TakeTicket(i) =>
        if i !in s.pending {
          TakeAccounted(s, i, c, Tickets(n, c, before), n, p);
        }
      case Return(i) =>
        if i in s.pending {
          ReturnAccounted(s, i, c, Tickets(n, c, before), n, p);
        }
    }
  }

  /** Position p has been given floor(m/n) or ceil(m/n) of the m calls served. */
  predicate FairShare(served: seq<nat>, n: nat, p: nat)
    requires n > 0
  {
    Share(multiset(served)[p], |served|, n)
  }

  /** Once all calls have returned, position p has served the tickets that fall on it. */
  lemma ServedHits(n: nat, c: nat, acts: seq<Action>, p: nat)
    requires p < n && c < WORD && Run(n, c, acts).pending == map[]
    requires Unwrapped(c + Tickets(n, c, acts), n)
    ensures var served := Run(n, c, acts).served;
      |served| == Tickets(n, c, acts) && multiset(served)[p] == Hits(c, |served|, n, p)
  {
    var s := Run(n, c, acts);
    RunAccounted(n, c, acts, p);
    assert Waiting(s, n, p) == {};
    hide *;
  }

  /** In every interleaving, finished calls on a fixed list of n backends have given each position its
      fair share, as long as the tickets taken do not wrap the counter or n divides its range. */
  lemma RoundRobinFair(n: nat, c: nat, acts: seq<Action>, p: nat)
    requires p < n && c < WORD && Run(n, c, acts).pending == map[]
    requires Unwrapped(c + Tickets(n, c, acts), n)
    ensures FairShare(Run(n, c, acts).served, n, p)
  {
    ServedHits(n, c, acts, p);
    hide Run, Tickets, Hits, Unwrapped, Share;
    Fair(c, |Run(n, c, acts).served|, n, p);
  }

  // ----- Across the wrap of the counter -----

  ghost predicate AlwaysFair(n: nat)
    requires n > 0
  {
    forall c: nat, acts, p: nat | c < WORD && p < n && Run(n, c, acts).pending == map[] ::
      FairShare(Run(n, c, acts).served, n, p)
  }

  /** One caller calls k times. */
  function Calls(k: nat): seq<Action> {
    if k == 0 then [] else Calls(k - 1) + [TakeTicket(0)] + [Return(0)]
  }

  lemma RunOne(n: nat, c: nat, acts: seq<Action>, a: Action)
    requires n > 0
    ensures Run(n, c, acts + [a]) == Step(n, Run(n, c, acts), a)
  {
    hide Step;
    assert (acts + [a])[..|acts|] == acts;
  }

  lemma CallServes(n: nat, s: Rotation)
    requires n > 0 && s.pending == map[]
    ensures var ticket := Next(s.counter);
      Step(n, Step(n, s, TakeTicket(0)), Return(0)) == Rotation(ticket, map[], s.served + [Position(ticket, n)])
  {
    hide Position, Next;
    assert map[0 := Next(s.counter)] - {0} == map[];
  }

  /** What k calls of a round that starts two before the wrap have served. */
  predicate Skipping(n: nat, k: nat, s: Rotation) {
    && s.pending == map[] && |s.served| == k && n - 1 !in s.served
    && (if k == 0 then s.counter == WORD - 2 else if k == 1 then s.counter == WORD - 1 else s.counter <= k - 2)
  }

  /** The positions after the wrap start anew, so the last position is left out of the round. */
  lemma {:induction false} WrapSkipsLast(n: nat, k: nat)
    requires n > 0 && !DividesRange(n) && k <= n
    ensures Skipping(n, k, Run(n, WORD - 2, Calls(k)))
  {
    hide Position, Next, DividesRange, Step;
    if k == 0 {
    } else {
      WrapSkipsLast(n, k - 1);
      var s := Run(n, WORD - 2, Calls(k - 1));
      RunOne(n, WORD - 2, Calls(k - 1), TakeTicket(0));
      RunOne(n, WORD - 2, Calls(k - 1) + [TakeTicket(0)], Return(0));
      CallServes(n, s);
      hide Run;
      WrapTicket(n, k, s.counter);
    }
  }

  /** The ticket of call k of a round that starts two before the wrap. */
  lemma WrapTicket(n: nat, k: nat, counter: nat)
    requires n > 0 && !DividesRange(n) && 0 < k <= n
    requires if k == 1 then counter == WORD - 2 else if k == 2 then counter == WORD - 1 else counter <= k - 3
    ensures var ticket := Next(counter);
      && Position(ticket, n) != n - 1
      && (if k == 1 then ticket == WORD - 1 else ticket <= k - 2)
  {
    var ticket := Next(counter);
    if k == 1 {
      if Position(ticket, n) == n - 1 {
        var q := ticket / n;
        MulSum(n, q, 1);
        DivMod(WORD, q + 1, 0, n);
      }
    } else {
      assert ticket <= k - 2 by { if k > 2 { ModAtMost(counter + 1); } }
      DivMod(ticket, 0, ticket, n);
    }
  }

  lemma ModAtMost(x: nat)
    ensures x % WORD <= x
  {}

  /** Round-robin stays fair for good, over every wrap of its 64-bit counter, exactly when the number of
      backends divides the counter's range. */
  lemma AlwaysFairIff(n: nat)
    requires n > 0
    ensures AlwaysFair(n) <==> DividesRange(n)
  {
    if DividesRange(n) {
      forall c: nat, acts, p: nat | c < WORD && p < n && Run(n, c, acts).pending == map[]
        ensures FairShare(Run(n, c, acts).served, n, p)
      {
        RoundRobinFair(n, c, acts, p);
      }
    } else {
      WrapSkipsLast(n, n);
      DivMod(n, 1, 0, n);
      var served := Run(n, WORD - 2, Calls(n)).served;
      var last: nat := n - 1;
      assert last !in served;
      assert !FairShare(served, n, last);
    }
  }
}
