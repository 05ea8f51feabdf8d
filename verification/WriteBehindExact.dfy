/**
 Exactly when write-behind keeps the order and the place of Sets, on a fixed routing.  There are four ways in
 which it does not, each with the run that shows it: a retry, the fallback of a full queue, a Set that passes
 the queue by, and a routing hint.
 */
module WriteBehindExact {
  import opened Storage
  import opened WriteBehind
  import opened WriteBehindOrder

  /** Where a Set of a key with a hint is routed. */
  type Route = (string, string) -> string

  /** The worker routes without a hint. */
  function Unhinted(route: Route): string -> string {
    k => route(k, "")
  }

  /** What a run may do: fail an attempt, write a Set through because the queue is full, pass the queue by
      although it has room (an oversized value, or another mode), and give Sets a routing hint. */
  datatype Terms = Terms(mayFail: bool, mayFallBack: bool, mayPass: bool, mayHint: bool)

  const CLEAN := Terms(false, false, false, false)

  // ----- Sets in order -----

  /** The write that a Set asks for: where its own hint routes it.  `hintOf` gives the hint of the accepted
      Sets by their position. */
  function Request(s: Pipe, a: Action, hintOf: nat -> string, route: Route): seq<Write> {
    match a
    case Enqueue(e) => if Enabled(s, a) then [Write(route(e.key, hintOf(|s.accepted|)), e)] else []
    case DirectWrite(b, e) => [Write(b, e)]
    case _ => []
  }

  function Requests(s: Pipe, acts: seq<Action>, hintOf: nat -> string, route: Route): seq<Write> {
    if acts == [] then []
    else
      var before := acts[..|acts| - 1];
      Requests(s, before, hintOf, route) + Request(RunFrom(s, before), acts[|acts| - 1], hintOf, route)
  }

  const NO_HINT: nat -> string := _ => ""

  ghost predicate Allowed(s: Pipe, a: Action, terms: Terms, route: Route) {
    && (a.Process? && Enabled(s, a) ==>
          var home := route(s.batch[0].entry.key, "");
          match a.outcome
          case NoBackend => terms.mayFail
          case Refused(b, _) => terms.mayFail && b == home
          case Stored(b) => b == home)
    && (a.DirectWrite? ==>
          && (terms.mayPass || (terms.mayFallBack && |s.queue| == QUEUE_CAPACITY))
          && exists hint :: a.backend == route(a.written.key, hint) && (terms.mayHint || hint == ""))
  }

  ghost predicate AllAllowed(s: Pipe, acts: seq<Action>, terms: Terms, route: Route) {
    acts == []
    || (var before := acts[..|acts| - 1];
        AllAllowed(s, before, terms, route) && Allowed(RunFrom(s, before), acts[|acts| - 1], terms, route))
  }

  predicate Drained(s: Pipe) {
    s.queue == [] && s.batch == [] && s.sleeping == [] && s.gaveUp == []
  }

  /** Once everything has been delivered, the backends hold what writing the Sets through in their order
      would have left. */
  ghost predicate AlwaysRefines(terms: Terms, route: Route) {
    forall acts, init, hintOf: nat -> string |
      && AllAllowed(Init, acts, terms, route) && Drained(Run(acts))
      && (terms.mayHint || forall i :: hintOf(i) == "") ::
      Replay(init, Run(acts).writes) == Replay(init, Requests(Init, acts, hintOf, route))
  }

  /** No hint leads a key anywhere else than no hint does. */
  ghost predicate HintsIdle(route: Route) {
    forall k, hint :: route(k, hint) == route(k, "")
  }

  // ----- Without failures, fallbacks, bypasses and effective hints -----

  lemma AllowedStepIsClean(s: Pipe, a: Action, terms: Terms, route: Route)
    requires Clean(s.log, ALL, Unhinted(route)) && Allowed(s, a, terms, route) && !terms.mayFail
    ensures Clean(Step(s, a).log, ALL, Unhinted(route))
  {
    LogGrows(s, a);
    if a.Process? && Enabled(s, a) {
      assert Step(s, a).log == s.log + [Attempt(s.batch[0], a.outcome)];
    } else {
      LogStays(s, a);
    }
  }

  lemma LogStays(s: Pipe, a: Action)
    requires !(a.Process? && Enabled(s, a))
    ensures Step(s, a).log == s.log
  {}

  lemma {:induction false} AllowedIsClean(acts: seq<Action>, terms: Terms, route: Route)
    requires AllAllowed(Init, acts, terms, route) && !terms.mayFail && !terms.mayFallBack && !terms.mayPass
    ensures Clean(Run(acts).log, ALL, Unhinted(route)) && NoBypass(acts, ALL)
  {
    if acts != [] {
      hide Step, Clean;
      var before, last := acts[..|acts| - 1], acts[|acts| - 1];
      AllowedIsClean(before, terms, route);
      AllowedStepIsClean(Run(before), last, terms, route);
    } else {
      assert Clean([], ALL, Unhinted(route));
    }
  }

  lemma AcceptedStep(s: Pipe, a: Action)
    requires !a.DirectWrite?
    ensures Step(s, a).accepted == if a.Enqueue? && Enabled(s, a) then s.accepted + [a.entry] else s.accepted
  {}

  /** Without bypasses and effective hints the Sets are the accepted entries, each at home. */
  lemma {:induction false} RequestsWriteThrough(acts: seq<Action>, init: Cells, hintOf: nat -> string, route: Route)
    requires NoBypass(acts, ALL) && forall i, k :: route(k, hintOf(i)) == route(k, "")
    ensures Replay(init, Requests(Init, acts, hintOf, route)) == WriteThrough(init, Run(acts).accepted, Unhinted(route))
  {
    if acts != [] {
      var before, last := acts[..|acts| - 1], acts[|acts| - 1];
      RequestsWriteThrough(before, init, hintOf, route);
      var s := Run(before);
      var rs := Requests(Init, before, hintOf, route);
      assert !last.DirectWrite?;
      AcceptedStep(s, last);
      hide Step, RunFrom, Replay, WriteThrough;
      if last.Enqueue? && Enabled(s, last) {
        var e := last.entry;
        var b := route(e.key, hintOf(|s.accepted|));
        assert b == route(e.key, "");
        ReplayAppend(init, rs, Write(b, e));
        WriteThroughAppend(init, s.accepted, e, Unhinted(route));
      } else {
        assert rs + [] == rs;
      }
    }
  }

  // ----- Runs through known states -----

  ghost predicate Trace(acts: seq<Action>, states: seq<Pipe>, terms: Terms, route: Route) {
    && |states| == |acts| + 1
    && forall i | 0 <= i < |acts| ::
         Step(states[i], acts[i]) == states[i + 1] && Allowed(states[i], acts[i], terms, route)
  }

  lemma {:induction false} TraceRuns(acts: seq<Action>, states: seq<Pipe>, terms: Terms, route: Route)
    requires Trace(acts, states, terms, route)
    ensures RunFrom(states[0], acts) == states[|acts|] && AllAllowed(states[0], acts, terms, route)
  {
    hide Step, Allowed;
    if acts != [] {
      TraceRuns(acts[..|acts| - 1], states[..|acts|], terms, route);
    }
  }

  lemma AllowedOne(s: Pipe, acts: seq<Action>, a: Action, hintOf: nat -> string, terms: Terms, route: Route)
    ensures AllAllowed(s, acts + [a], terms, route)
       <==> AllAllowed(s, acts, terms, route) && Allowed(RunFrom(s, acts), a, terms, route)
    ensures Requests(s, acts + [a], hintOf, route)
         == Requests(s, acts, hintOf, route) + Request(RunFrom(s, acts), a, hintOf, route)
  {
    hide RunFrom, Allowed, Request;
    assert (acts + [a])[..|acts + [a]| - 1] == acts;
  }

  lemma Regroups(a: seq<Write>, b: seq<Write>, c: seq<Write>)
    ensures (a + b) + c == a + (b + c)
  {}

  lemma AllowedNothing(s: Pipe, acts: seq<Action>, hintOf: nat -> string, route: Route)
    ensures acts + [] == acts && Requests(s, acts, hintOf, route) + [] == Requests(s, acts, hintOf, route)
    ensures forall t :: Requests(t, [], hintOf, route) == []
  {}

  lemma {:induction false} AllowedAppend(
    s: Pipe, acts: seq<Action>, more: seq<Action>, hintOf: nat -> string, terms: Terms, route: Route)
    requires AllAllowed(s, acts, terms, route) && AllAllowed(RunFrom(s, acts), more, terms, route)
    ensures AllAllowed(s, acts + more, terms, route)
    ensures Requests(s, acts + more, hintOf, route)
         == Requests(s, acts, hintOf, route) + Requests(RunFrom(s, acts), more, hintOf, route)
  {
    hide AllAllowed, Allowed, Requests, Request, RunFrom;
    if more == [] {
      AllowedNothing(s, acts, hintOf, route);
    } else {
      var t, init, last := RunFrom(s, acts), more[..|more| - 1], more[|more| - 1];
      AllowedOne(t, init, last, hintOf, terms, route);
      assert more == init + [last];
      AllowedAppend(s, acts, init, hintOf, terms, route);
      RunAppend(s, acts, init);
      AllowedOne(s, acts + init, last, hintOf, terms, route);
      assert acts + more == (acts + init) + [last];
      Regroups(Requests(s, acts, hintOf, route), Requests(t, init, hintOf, route),
               Request(RunFrom(t, init), last, hintOf, route));
    }
  }

  // ----- Single steps -----

  lemma Enqueues(s: Pipe, e: Entry)
    requires |s.queue| < QUEUE_CAPACITY
    ensures Step(s, Enqueue(e))
         == s.(accepted := s.accepted + [e], queue := s.queue + [Item(|s.accepted|, e, 0)])
  {}

  lemma Receives(s: Pipe)
    requires s.phase.Selecting? && s.queue != [] && |s.batch| + 1 < BATCH_SIZE
    ensures Step(s, Receive) == s.(queue := s.queue[1..], batch := s.batch + [s.queue[0]])
  {}

  lemma Ticks(s: Pipe)
    requires s.phase.Selecting? && s.batch != []
    ensures Step(s, Tick) == s.(phase := Processing)
  {}

  lemma Stores(s: Pipe, b: string)
    requires s.phase.Processing? && s.batch != []
    ensures var x := s.batch[0];
      Step(s, Process(Stored(b)))
        == s.(batch := s.batch[1..], log := s.log + [Attempt(x, Stored(b))],
              writes := s.writes + [Write(b, x.entry)], delivered := s.delivered + [x])
  {}

  lemma Fails(s: Pipe)
    requires s.phase.Processing? && s.batch != [] && s.batch[0].retry < MAX_RETRY
    ensures var x := s.batch[0];
      Step(s, Process(NoBackend))
        == s.(batch := s.batch[1..], log := s.log + [Attempt(x, NoBackend)],
              sleeping := s.sleeping + [x.(retry := x.retry + 1)])
  {}

  lemma Ends(s: Pipe)
    requires s.phase.Processing? && s.batch == []
    ensures Step(s, EndBatch) == s.(phase := Selecting)
  {}

  lemma Wakes(s: Pipe, x: Item)
    requires s.queue == [] && s.sleeping == [x]
    ensures Step(s, Wake(0)) == s.(queue := [x], sleeping := [])
  {
    assert s.sleeping[..0] + s.sleeping[1..] == [];
  }

  lemma {:induction false} NoRequests(s: Pipe, acts: seq<Action>, hintOf: nat -> string, route: Route)
    requires forall i | 0 <= i < |acts| :: !acts[i].Enqueue? && !acts[i].DirectWrite?
    ensures Requests(s, acts, hintOf, route) == []
  {
    if acts != [] {
      NoRequests(s, acts[..|acts| - 1], hintOf, route);
    }
  }

  /** The worker takes, attempts and stores the head of the queue. */
  lemma StoreHead(s: Pipe, hintOf: nat -> string, terms: Terms, route: Route) returns (acts: seq<Action>, t: Pipe)
    requires s.phase.Selecting? && s.batch == [] && s.queue != []
    ensures AllAllowed(s, acts, terms, route) && RunFrom(s, acts) == t && Requests(s, acts, hintOf, route) == []
    ensures t.phase.Selecting? && t.batch == [] && t.queue == s.queue[1..]
    ensures t.sleeping == s.sleeping && t.gaveUp == s.gaveUp
    ensures var e := s.queue[0].entry; t.writes == s.writes + [Write(route(e.key, ""), e)]
  {
    var b := route(s.queue[0].entry.key, "");
    var s1 := Step(s, Receive);
    var s2 := Step(s1, Tick);
    var s3 := Step(s2, Process(Stored(b)));
    t := Step(s3, EndBatch);
    acts := [Receive, Tick, Process(Stored(b)), EndBatch];
    hide Step;
    Receives(s);
    Ticks(s1);
    Stores(s2, b);
    Ends(s3);
    hide RunFrom, AllAllowed;
    TraceRuns(acts, [s, s1, s2, s3, t], terms, route);
    NoRequests(s, acts, hintOf, route);
  }

  lemma AllowedAlone(s: Pipe, a: Action, hintOf: nat -> string, terms: Terms, route: Route)
    requires Allowed(s, a, terms, route)
    ensures AllAllowed(s, [a], terms, route) && RunFrom(s, [a]) == Step(s, a)
    ensures Requests(s, [a], hintOf, route) == Request(s, a, hintOf, route)
  {
    hide Step, Allowed, Request;
    assert [a][..0] == [];
    assert RunFrom(s, []) == s && AllAllowed(s, [], terms, route) && Requests(s, [], hintOf, route) == [];
  }

  /** A Set takes its slot in the queue. */
  lemma Accepts(s: Pipe, e: Entry, hintOf: nat -> string, terms: Terms, route: Route) returns (t: Pipe)
    requires |s.queue| < QUEUE_CAPACITY
    ensures AllAllowed(s, [Enqueue(e)], terms, route) && RunFrom(s, [Enqueue(e)]) == t
    ensures t == s.(accepted := s.accepted + [e], queue := s.queue + [Item(|s.accepted|, e, 0)])
    ensures Requests(s, [Enqueue(e)], hintOf, route) == [Write(route(e.key, hintOf(|s.accepted|)), e)]
  {
    Enqueues(s, e);
    t := Step(s, Enqueue(e));
    AllowedAlone(s, Enqueue(e), hintOf, terms, route);
  }

  /** A Set goes to the backend of its key at once. */
  lemma Bypasses(s: Pipe, e: Entry, terms: Terms, route: Route) returns (a: Action, t: Pipe)
    requires terms.mayPass || (terms.mayFallBack && |s.queue| == QUEUE_CAPACITY)
    ensures AllAllowed(s, [a], terms, route) && RunFrom(s, [a]) == t
    ensures Requests(s, [a], NO_HINT, route) == [Write(route(e.key, ""), e)]
    ensures t == s.(writes := s.writes + [Write(route(e.key, ""), e)])
  {
    a := DirectWrite(route(e.key, ""), e);
    t := Step(s, a);
    assert a.backend == route(a.written.key, "");
    AllowedAlone(s, a, NO_HINT, terms, route);
  }

  // ----- A retry -----

  const FAILING := Terms(true, false, false, false)

  /** Two writes of one batch, the first without a backend, the second stored. */
  lemma FirstBatch(first: Entry, second: Entry, route: Route) returns (acts: seq<Action>, t: Pipe)
    requires first.key == second.key
    ensures AllAllowed(Init, acts, FAILING, route) && Run(acts) == t
    ensures Requests(Init, acts, NO_HINT, route)
         == [Write(route(first.key, ""), first), Write(route(second.key, ""), second)]
    ensures t.phase.Processing? && t.queue == [] && t.batch == [] && t.gaveUp == []
    ensures t.sleeping == [Item(0, first, 1)] && t.writes == [Write(route(second.key, ""), second)]
  {
    hide RunFrom, Requests, AllAllowed, Step;
    var s1 := Accepts(Init, first, NO_HINT, FAILING, route);
    var s2 := Accepts(s1, second, NO_HINT, FAILING, route);
    AllowedAppend(Init, [Enqueue(first)], [Enqueue(second)], NO_HINT, FAILING, route);
    RunAppend(Init, [Enqueue(first)], [Enqueue(second)]);
    var more;
    more, t := FailsThenStores(s2, first, second, route);
    var start := [Enqueue(first)] + [Enqueue(second)];
    AllowedAppend(Init, start, more, NO_HINT, FAILING, route);
    RunAppend(Init, start, more);
    acts := start + more;
  }

  lemma FailsThenStores(s: Pipe, first: Entry, second: Entry, route: Route) returns (acts: seq<Action>, t: Pipe)
    requires s.phase.Selecting? && s.batch == [] && s.sleeping == [] && s.gaveUp == [] && s.writes == []
    requires s.queue == [Item(0, first, 0), Item(1, second, 0)]
    ensures AllAllowed(s, acts, FAILING, route) && RunFrom(s, acts) == t && Requests(s, acts, NO_HINT, route) == []
    ensures t.phase.Processing? && t.queue == [] && t.batch == [] && t.gaveUp == []
    ensures t.sleeping == [Item(0, first, 1)] && t.writes == [Write(route(second.key, ""), second)]
  {
    var b := route(second.key, "");
    acts := [Receive, Receive, Tick, Process(NoBackend), Process(Stored(b))];
    var s1 := Step(s, Receive);
    var s2 := Step(s1, Receive);
    var s3 := Step(s2, Tick);
    var s4 := Step(s3, Process(NoBackend));
    t := Step(s4, Process(Stored(b)));
    hide Step;
    Receives(s);
    Receives(s1);
    Ticks(s2);
    Fails(s3);
    Stores(s4, b);
    hide RunFrom, AllAllowed;
    TraceRuns(acts, [s, s1, s2, s3, s4, t], FAILING, route);
    NoRequests(s, acts, NO_HINT, route);
  }

  /** The write wakes and joins the empty queue. */
  lemma WakesAlone(s: Pipe, x: Item, route: Route) returns (acts: seq<Action>, t: Pipe)
    requires s.phase.Processing? && s.queue == [] && s.batch == [] && s.sleeping == [x]
    ensures AllAllowed(s, acts, FAILING, route) && RunFrom(s, acts) == t && Requests(s, acts, NO_HINT, route) == []
    ensures t == s.(phase := Selecting, queue := [x], sleeping := [])
  {
    acts := [EndBatch, Wake(0)];
    var s1 := Step(s, EndBatch);
    t := Step(s1, Wake(0));
    hide Step;
    Ends(s);
    Wakes(s1, x);
    hide RunFrom, AllAllowed;
    TraceRuns(acts, [s, s1, t], FAILING, route);
    NoRequests(s, acts, NO_HINT, route);
  }

  /** One failed attempt lets a later write of the same key overtake an earlier one, and the backend ends
      with the older value. */
  lemma RetryReorders(first: Entry, second: Entry, route: Route) returns (acts: seq<Action>)
    requires first.key == second.key
    ensures AllAllowed(Init, acts, FAILING, route) && Drained(Run(acts))
    ensures var b := route(first.key, "");
      && Requests(Init, acts, NO_HINT, route) == [Write(b, first), Write(b, second)]
      && Run(acts).writes == [Write(b, second), Write(b, first)]
  {
    hide Step, RunFrom, Requests, AllAllowed;
    var start, s := FirstBatch(first, second, route);
    var wake, mid := WakesAlone(s, Item(0, first, 1), route);
    AllowedAppend(Init, start, wake, NO_HINT, FAILING, route);
    RunAppend(Init, start, wake);
    var store, t := StoreHead(mid, NO_HINT, FAILING, route);
    AllowedAppend(Init, start + wake, store, NO_HINT, FAILING, route);
    RunAppend(Init, start + wake, store);
    acts := start + wake + store;
  }

  // ----- A full queue -----

  const OVERFLOWING := Terms(false, true, false, false)

  function Copies<T>(x: T, n: nat): seq<T> {
    seq(n, _ => x)
  }

  /** The same entry accepted n times. */
  function Filled(e: Entry, n: nat): Pipe {
    Init.(accepted := Copies(e, n), queue := seq(n, i requires 0 <= i < n => Item(i, e, 0)))
  }

  lemma CopiesNext<T>(x: T, n: nat)
    ensures Copies(x, n) + [x] == Copies(x, n + 1)
  {}

  lemma FilledNext(e: Entry, n: nat)
    ensures var s := Filled(e, n);
      s.(accepted := s.accepted + [e], queue := s.queue + [Item(|s.accepted|, e, 0)]) == Filled(e, n + 1)
      && |s.queue| == n
  {
    CopiesNext(e, n);
    assert Filled(e, n).queue + [Item(n, e, 0)] == Filled(e, n + 1).queue;
  }

  lemma {:induction false} Fill(e: Entry, n: nat, route: Route) returns (acts: seq<Action>)
    requires n <= QUEUE_CAPACITY
    ensures AllAllowed(Init, acts, OVERFLOWING, route) && Run(acts) == Filled(e, n)
    ensures Requests(Init, acts, NO_HINT, route) == Copies(Write(route(e.key, ""), e), n)
  {
    if n == 0 {
      acts := [];
      assert Filled(e, 0) == Init;
    } else {
      hide Step, RunFrom, Requests, AllAllowed, Filled, Copies;
      var before := Fill(e, n - 1, route);
      FilledNext(e, n - 1);
      CopiesNext(Write(route(e.key, ""), e), n - 1);
      var s := Filled(e, n - 1);
      var t := Accepts(s, e, NO_HINT, OVERFLOWING, route);
      AllowedAppend(Init, before, [Enqueue(e)], NO_HINT, OVERFLOWING, route);
      RunAppend(Init, before, [Enqueue(e)]);
      acts := before + [Enqueue(e)];
    }
  }

  /** The worker stores a queue of equal entries, one by one. */
  lemma {:induction false} StoreAll(s: Pipe, e: Entry, terms: Terms, route: Route)
    returns (acts: seq<Action>, t: Pipe)
    requires s.phase.Selecting? && s.batch == [] && s.sleeping == [] && s.gaveUp == []
    requires forall x | x in s.queue :: x.entry == e
    ensures AllAllowed(s, acts, terms, route) && RunFrom(s, acts) == t && Requests(s, acts, NO_HINT, route) == []
    ensures Drained(t)
    ensures s.queue == [] ==> t.writes == s.writes
    ensures s.queue != [] ==> t.writes != [] && t.writes[|t.writes| - 1] == Write(route(e.key, ""), e)
    decreases |s.queue|
  {
    if s.queue == [] {
      acts, t := [], s;
    } else {
      hide Step, RunFrom, Requests, AllAllowed;
      var first, mid := StoreHead(s, NO_HINT, terms, route);
      var rest;
      rest, t := StoreAll(mid, e, terms, route);
      AllowedAppend(s, first, rest, NO_HINT, terms, route);
      RunAppend(s, first, rest);
      acts := first + rest;
    }
  }

  /** From a queue of older writes of its key, a Set is written around it, and the worker then stores the
      older value over it. */
  lemma OlderStoredOver(s: Pipe, first: Entry, second: Entry, terms: Terms, route: Route)
    returns (acts: seq<Action>, t: Pipe)
    requires s.phase.Selecting? && s.batch == [] && s.sleeping == [] && s.gaveUp == [] && s.queue != []
    requires (forall x | x in s.queue :: x.entry == first) && first.key == second.key
    requires terms.mayPass || (terms.mayFallBack && |s.queue| == QUEUE_CAPACITY)
    ensures AllAllowed(s, acts, terms, route) && RunFrom(s, acts) == t && Drained(t)
    ensures Requests(s, acts, NO_HINT, route) == [Write(route(second.key, ""), second)]
    ensures t.writes != [] && t.writes[|t.writes| - 1] == Write(route(first.key, ""), first)
  {
    hide Step, RunFrom, Requests, AllAllowed;
    var a, mid := Bypasses(s, second, terms, route);
    var rest;
    rest, t := StoreAll(mid, first, terms, route);
    AllowedAppend(s, [a], rest, NO_HINT, terms, route);
    RunAppend(s, [a], rest);
    acts := [a] + rest;
  }

  /** A write that finds the queue full of older writes of its key is written at once, and then the worker
      stores the older value over it. */
  lemma FallbackReorders(first: Entry, second: Entry, route: Route) returns (acts: seq<Action>)
    requires first.key == second.key
    ensures AllAllowed(Init, acts, OVERFLOWING, route) && Drained(Run(acts))
    ensures Requests(Init, acts, NO_HINT, route)
         == Copies(Write(route(first.key, ""), first), QUEUE_CAPACITY) + [Write(route(second.key, ""), second)]
    ensures var ws := Run(acts).writes; ws != [] && ws[|ws| - 1] == Write(route(first.key, ""), first)
  {
    hide Step, RunFrom, Requests, AllAllowed;
    var fill := Fill(first, QUEUE_CAPACITY, route);
    var full := Filled(first, QUEUE_CAPACITY);
    assert forall x | x in full.queue :: x.entry == first;
    var rest, t := OlderStoredOver(full, first, second, OVERFLOWING, route);
    AllowedAppend(Init, fill, rest, NO_HINT, OVERFLOWING, route);
    RunAppend(Init, fill, rest);
    acts := fill + rest;
  }

  // ----- A Set that passes the queue by -----

  const PASSING := Terms(false, false, true, false)

  /** One older write of the key is queued; a newer one, oversized or of another mode, goes to the backend at
      once; then the worker stores the older value over it. */
  lemma PassReorders(first: Entry, second: Entry, route: Route) returns (acts: seq<Action>)
    requires first.key == second.key
    ensures AllAllowed(Init, acts, PASSING, route) && Drained(Run(acts))
    ensures Requests(Init, acts, NO_HINT, route)
         == [Write(route(first.key, ""), first), Write(route(second.key, ""), second)]
    ensures var ws := Run(acts).writes; ws != [] && ws[|ws| - 1] == Write(route(first.key, ""), first)
  {
    hide Step, RunFrom, Requests, AllAllowed;
    var s := Accepts(Init, first, NO_HINT, PASSING, route);
    var rest, t := OlderStoredOver(s, first, second, PASSING, route);
    AllowedAppend(Init, [Enqueue(first)], rest, NO_HINT, PASSING, route);
    RunAppend(Init, [Enqueue(first)], rest);
    acts := [Enqueue(first)] + rest;
  }

  // ----- A hint -----

  const HINTED := Terms(false, false, false, true)

  /** The worker delivers to where the key goes without the hint its Set was given. */
  lemma HintIsLost(e: Entry, hint: string, route: Route) returns (acts: seq<Action>)
    ensures AllAllowed(Init, acts, HINTED, route) && Drained(Run(acts))
    ensures Requests(Init, acts, _ => hint, route) == [Write(route(e.key, hint), e)]
    ensures Run(acts).writes == [Write(route(e.key, ""), e)]
  {
    hide Step, RunFrom, Requests, AllAllowed;
    var hintOf: nat -> string := _ => hint;
    var s := Accepts(Init, e, hintOf, HINTED, route);
    var store, t := StoreHead(s, hintOf, HINTED, route);
    AllowedAppend(Init, [Enqueue(e)], store, hintOf, HINTED, route);
    RunAppend(Init, [Enqueue(e)], store);
    acts := [Enqueue(e)] + store;
  }

  // ----- The theorem -----

  /** b permits all that a does. */
  predicate Within(a: Terms, b: Terms) {
    && (a.mayFail ==> b.mayFail) && (a.mayFallBack ==> b.mayFallBack)
    && (a.mayPass ==> b.mayPass) && (a.mayHint ==> b.mayHint)
  }

  lemma {:induction false} MayDoMore(s: Pipe, acts: seq<Action>, some: Terms, terms: Terms, route: Route)
    requires AllAllowed(s, acts, some, route) && Within(some, terms)
    ensures AllAllowed(s, acts, terms, route)
  {
    if acts != [] {
      MayDoMore(s, acts[..|acts| - 1], some, terms, route);
    }
  }

  lemma LastWriteStands(init: Cells, ws: seq<Write>)
    requires ws != []
    ensures var w := ws[|ws| - 1]; Lookup(Replay(init, ws), w.backend, w.entry.key) == Some(w.entry.value)
  {}

  /** A drained run whose last write is not the last write asked for. */
  lemma Refutes(acts: seq<Action>, some: Terms, terms: Terms, route: Route)
    requires AllAllowed(Init, acts, some, route) && Within(some, terms) && Drained(Run(acts))
    requires var ws, rs := Run(acts).writes, Requests(Init, acts, NO_HINT, route);
      && ws != [] && rs != []
      && var w, r := ws[|ws| - 1], rs[|rs| - 1];
         w.backend == r.backend && w.entry.key == r.entry.key && w.entry.value != r.entry.value
    ensures !AlwaysRefines(terms, route)
  {
    MayDoMore(Init, acts, some, terms, route);
    hide Step, RunFrom, Replay, Requests, AllAllowed;
    LastWriteStands(map[], Run(acts).writes);
    LastWriteStands(map[], Requests(Init, acts, NO_HINT, route));
  }

  lemma HintRefutes(terms: Terms, route: Route)
    requires terms.mayHint && !HintsIdle(route)
    ensures !AlwaysRefines(terms, route)
  {
    var k, hint :| route(k, hint) != route(k, "");
    var e := Entry(k, [], 0, 0);
    var acts := HintIsLost(e, hint, route);
    MayDoMore(Init, acts, HINTED, terms, route);
    hide Step, RunFrom, Requests, AllAllowed;
    var ws, rs := [Write(route(k, ""), e)], [Write(route(k, hint), e)];
    LastWriteStands(map[], rs);
    assert ws[..0] == [];
    assert Replay(map[], ws) == map[(route(k, ""), k) := []];
    hide Replay;
    assert Replay(map[], ws) != Replay(map[], rs);
  }

  /** On a fixed routing, delivered write-behind equals write-through of the Sets in their order, in every run
      and from any contents, exactly when no attempt can fail, no Set finds the queue full, no Set passes the
      queue by, and no Set has a hint that leads it elsewhere. */
  lemma AlwaysRefinesIff(terms: Terms, route: Route)
    ensures AlwaysRefines(terms, route)
       <==> && !terms.mayFail && !terms.mayFallBack && !terms.mayPass && (terms.mayHint ==> HintsIdle(route))
  {
    var first, second := Entry("", [0], 0, 0), Entry("", [1], 0, 0);
    hide Step, RunFrom, Replay, Requests, AllAllowed;
    if terms.mayFail {
      var acts := RetryReorders(first, second, route);
      Refutes(acts, FAILING, terms, route);
    } else if terms.mayFallBack {
      var acts := FallbackReorders(first, second, route);
      Refutes(acts, OVERFLOWING, terms, route);
    } else if terms.mayPass {
      var acts := PassReorders(first, second, route);
      Refutes(acts, PASSING, terms, route);
    } else if terms.mayHint && !HintsIdle(route) {
      HintRefutes(terms, route);
    } else {
      forall acts, init, hintOf: nat -> string |
        && AllAllowed(Init, acts, terms, route) && Drained(Run(acts))
        && (terms.mayHint || forall i :: hintOf(i) == "")
        ensures Replay(init, Run(acts).writes) == Replay(init, Requests(Init, acts, hintOf, route))
      {
        AllowedIsClean(acts, terms, route);
        forall i, k ensures route(k, hintOf(i)) == route(k, "") {}
        RequestsWriteThrough(acts, init, hintOf, route);
        RunRefinesWriteThrough(acts, init, Unhinted(route));
      }
    }
  }
}
