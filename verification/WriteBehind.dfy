/**
 The write-behind pipeline of the cache service as a step system: a bounded queue, one batching
 worker, retries asleep in detached goroutines, and the drain on Close.  An action that is not
 enabled leaves the state alone, so a run is any sequence of actions.
 */
module WriteBehind {
  import opened Storage

  const QUEUE_CAPACITY := 10000
  const BATCH_SIZE := 100
  const MAX_RETRY := 3

  /** An accepted write; `id` is its position in the sequence of accepted entries. */
  datatype Item = Item(id: nat, entry: Entry, retry: int)

  /** Where the worker goroutine stands. */
  datatype Phase =
    | Selecting      // blocked in the select statement
    | Processing     // inside processWriteBehindBatch, returns to the select
    | DrainTest      // stop branch, about to evaluate the queue length
    | DrainReceive   // stop branch, about to receive
    | Finishing      // inside the last processWriteBehindBatch
    | Stopped        // the goroutine returned, so Close returns

  /** One call of processWriteBehindItem: no backend was routable, the backend refused the write
      (which may have landed all the same), or the backend took it. */
  datatype Outcome =
    | NoBackend
    | Refused(backend: string, landed: bool)
    | Stored(backend: string)

  datatype Attempt = Attempt(item: Item, outcome: Outcome)

  datatype Pipe = Pipe(
    accepted: seq<Entry>,     // every entry the queue has taken from a request
    queue: seq<Item>,
    batch: seq<Item>,         // while a batch is processed: the items still to attempt
    phase: Phase,
    sleeping: seq<Item>,      // retries asleep, or blocked on a full queue
    delivered: seq<Item>,
    gaveUp: seq<Item>,
    log: seq<Attempt>,        // every attempt so far
    writes: seq<Write>,       // every write that reached a backend so far
    closed: bool,
    mark: nat                 // |accepted| at the drain's last emptiness check
  )

  datatype Action =
    | Enqueue(entry: Entry)                  // a request offers an entry
    | DirectWrite(backend: string, written: Entry)  // any write that bypasses the queue
    | Receive
    | Tick
    | Process(outcome: Outcome)
    | EndBatch
    | Wake(j: nat)
    | Close
    | TakeStop
    | TestQueue
    | DrainOne

  const Init := Pipe([], [], [], Selecting, [], [], [], [], [], false, 0)

  // ----- The transition function -----

  function WithWrite(s: Pipe, o: Outcome, e: Entry): Pipe {
    match o
    case NoBackend => s
    case Refused(b, landed) => if landed then s.(writes := s.writes + [Write(b, e)]) else s
    case Stored(b) => s.(writes := s.writes + [Write(b, e)])
  }

  /** processWriteBehindItem on the first unprocessed item of the batch. */
  function ProcessHead(s: Pipe, o: Outcome): Pipe
    requires s.batch != []
  {
    var item := s.batch[0];
    var s1 := WithWrite(s.(batch := s.batch[1..], log := s.log + [Attempt(item, o)]), o, item.entry);
    if o.Stored? then
      s1.(delivered := s1.delivered + [item])
    else if item.retry < MAX_RETRY then
      s1.(sleeping := s1.sleeping + [item.(retry := item.retry + 1)])
    else
      s1.(gaveUp := s1.gaveUp + [item])
  }

  predicate Enabled(s: Pipe, a: Action) {
    match a
    case Enqueue(_) => |s.queue| < QUEUE_CAPACITY
    case DirectWrite(_, _) => true
    case Receive => s.phase.Selecting? && s.queue != []
    case Tick => s.phase.Selecting? && s.batch != []
    case Process(_) => (s.phase.Processing? || s.phase.Finishing?) && s.batch != []
    case EndBatch => (s.phase.Processing? || s.phase.Finishing?) && s.batch == []
    case Wake(j) => j < |s.sleeping| && |s.queue| < QUEUE_CAPACITY
    case Close => !s.closed
    case TakeStop => s.phase.Selecting? && s.closed
    case TestQueue => s.phase.DrainTest?
    case DrainOne => s.phase.DrainReceive? && s.queue != []
  }

  function Step(s: Pipe, a: Action): Pipe {
    if !Enabled(s, a) then s else
    match a
    case Enqueue(e) =>
      s.(accepted := s.accepted + [e], queue := s.queue + [Item(|s.accepted|, e, 0)])
    case DirectWrite(b, e) =>
      s.(writes := s.writes + [Write(b, e)])
    case Receive =>
      var batch := s.batch + [s.queue[0]];
      s.(queue := s.queue[1..], batch := batch,
         phase := if |batch| >= BATCH_SIZE then Processing else Selecting)
    case Tick => s.(phase := Processing)
    case Process(o) => ProcessHead(s, o)
    case EndBatch => s.(phase := if s.phase.Processing? then Selecting else Stopped)
    case Wake(j) =>
      s.(queue := s.queue + [s.sleeping[j]], sleeping := s.sleeping[..j] + s.sleeping[j + 1..])
    case Close => s.(closed := true)
    case TakeStop => s.(phase := DrainTest)
    case TestQueue =>
      if s.queue != [] then s.(phase := DrainReceive)
      else s.(phase := Finishing, mark := |s.accepted|)
    case DrainOne =>
      s.(queue := s.queue[1..], batch := s.batch + [s.queue[0]], phase := DrainTest)
  }

  function RunFrom(s: Pipe, acts: seq<Action>): Pipe {
    if acts == [] then s else Step(RunFrom(s, acts[..|acts| - 1]), acts[|acts| - 1])
  }

  function Run(acts: seq<Action>): Pipe {
    RunFrom(Init, acts)
  }

  lemma {:induction false} RunAppend(s: Pipe, acts: seq<Action>, more: seq<Action>)
    ensures RunFrom(s, acts + more) == RunFrom(RunFrom(s, acts), more)
  {
    hide Step;
    if more == [] {
      assert acts + more == acts;
    } else {
      var all := acts + more;
      assert all[..|all| - 1] == acts + more[..|more| - 1];
      RunAppend(s, acts, more[..|more| - 1]);
    }
  }

  lemma RunOne(s: Pipe, acts: seq<Action>, a: Action)
    ensures RunFrom(s, acts + [a]) == Step(RunFrom(s, acts), a)
  {
    hide Step;
    assert (acts + [a])[..|acts|] == acts;
  }

  // ----- Counting an item and its attempts -----

  /** How often an item with this id occurs. */
  function Occ(xs: seq<Item>, id: nat): nat {
    if xs == [] then 0 else (if xs[0].id == id then 1 else 0) + Occ(xs[1..], id)
  }

  /** In how many places of the pipeline the accepted write `id` is. */
  function Places(s: Pipe, id: nat): nat {
    Occ(s.queue, id) + Occ(s.batch, id) + Occ(s.sleeping, id) + Occ(s.delivered, id) + Occ(s.gaveUp, id)
  }

  function Failures(log: seq<Attempt>, id: nat): nat {
    if log == [] then 0
    else
      var last := log[|log| - 1];
      Failures(log[..|log| - 1], id) + (if last.item.id == id && !last.outcome.Stored? then 1 else 0)
  }

  function Successes(log: seq<Attempt>, id: nat): nat {
    if log == [] then 0
    else
      var last := log[|log| - 1];
      Successes(log[..|log| - 1], id) + (if last.item.id == id && last.outcome.Stored? then 1 else 0)
  }

  lemma {:induction false} OccConcat(xs: seq<Item>, ys: seq<Item>, id: nat)
    ensures Occ(xs + ys, id) == Occ(xs, id) + Occ(ys, id)
  {
    if xs == [] {
      assert xs + ys == ys;
    } else {
      assert (xs + ys)[1..] == xs[1..] + ys;
      OccConcat(xs[1..], ys, id);
    }
  }

  lemma OccAppend(xs: seq<Item>, x: Item, id: nat)
    ensures Occ(xs + [x], id) == Occ(xs, id) + if x.id == id then 1 else 0
  {
    OccConcat(xs, [x], id);
  }

  lemma OccRemove(xs: seq<Item>, j: nat, id: nat)
    requires j < |xs|
    ensures Occ(xs, id) == Occ(xs[..j] + xs[j + 1..], id) + if xs[j].id == id then 1 else 0
  {
    OccConcat(xs[..j], xs[j + 1..], id);
    OccConcat(xs[..j], [xs[j]] + xs[j + 1..], id);
    assert xs[..j] + ([xs[j]] + xs[j + 1..]) == xs;
  }

  lemma {:induction false} OccMember(xs: seq<Item>, x: Item)
    requires x in xs
    ensures Occ(xs, x.id) >= 1
  {
    if x != xs[0] {
      assert x in xs[1..];
      OccMember(xs[1..], x);
    }
  }

  lemma {:induction false} OccWitness(xs: seq<Item>, id: nat) returns (x: Item)
    requires Occ(xs, id) >= 1
    ensures x in xs && x.id == id
  {
    if xs[0].id == id {
      x := xs[0];
    } else {
      x := OccWitness(xs[1..], id);
    }
  }

  // ----- Conservation -----

  lemma EnqueueConserves(s: Pipe, e: Entry, id: nat)
    requires Enabled(s, Enqueue(e))
    ensures Places(Step(s, Enqueue(e)), id) == Places(s, id) + if id == |s.accepted| then 1 else 0
  {
    OccAppend(s.queue, Item(|s.accepted|, e, 0), id);
  }

  lemma TakeConserves(s: Pipe, a: Action, id: nat)
    requires Enabled(s, a) && (a.Receive? || a.DrainOne?)
    ensures Places(Step(s, a), id) == Places(s, id)
  {
    OccAppend(s.batch, s.queue[0], id);
  }

  lemma ProcessConserves(s: Pipe, o: Outcome, id: nat)
    requires s.batch != []
    ensures Places(ProcessHead(s, o), id) == Places(s, id)
  {
    var item := s.batch[0];
    if o.Stored? {
      OccAppend(s.delivered, item, id);
    } else if item.retry < MAX_RETRY {
      OccAppend(s.sleeping, item.(retry := item.retry + 1), id);
    } else {
      OccAppend(s.gaveUp, item, id);
    }
  }

  lemma WakeConserves(s: Pipe, j: nat, id: nat)
    requires Enabled(s, Wake(j))
    ensures Places(Step(s, Wake(j)), id) == Places(s, id)
  {
    OccRemove(s.sleeping, j, id);
    OccAppend(s.queue, s.sleeping[j], id);
  }

  /** One step moves an item between places but never copies or loses it. */
  lemma StepConserves(s: Pipe, a: Action, id: nat)
    ensures |Step(s, a).accepted| == |s.accepted| + if a.Enqueue? && Enabled(s, a) then 1 else 0
    ensures Places(Step(s, a), id)
         == Places(s, id) + if a.Enqueue? && Enabled(s, a) && id == |s.accepted| then 1 else 0
  {
    if Enabled(s, a) {
      match a
      case Enqueue(e) => EnqueueConserves(s, e, id);
      case Receive => TakeConserves(s, a, id);
      case Process(o) => ProcessConserves(s, o, id);
      case Wake(j) => WakeConserves(s, j, id);
      case DrainOne => TakeConserves(s, a, id);
      case _ =>
    }
  }

  /** Every accepted write is in exactly one place, in every interleaving; nothing else is anywhere. */
  lemma {:induction false} Conservation(acts: seq<Action>, id: nat)
    ensures Places(Run(acts), id) == if id < |Run(acts).accepted| then 1 else 0
  {
    if acts == [] {
    } else {
      hide Step, Occ;
      Conservation(acts[..|acts| - 1], id);
      StepConserves(Run(acts[..|acts| - 1]), acts[|acts| - 1], id);
    }
  }

  // ----- Every item carries its own entry and its own failure count -----

  predicate Pending(s: Pipe, x: Item) {
    x in s.queue || x in s.batch || x in s.sleeping
  }

  predicate Genuine(s: Pipe, x: Item) {
    x.id < |s.accepted| && x.entry == s.accepted[x.id] && 0 <= x.retry <= MAX_RETRY
  }

  /** The attempts on write `id` agree with the place it is in. */
  ghost predicate Tracked(s: Pipe, id: nat) {
    && (forall x | Pending(s, x) && x.id == id ::
          Genuine(s, x) && Failures(s.log, id) == x.retry && Successes(s.log, id) == 0)
    && (forall x | x in s.sleeping && x.id == id :: x.retry >= 1)
    && (forall x | x in s.delivered && x.id == id ::
          Genuine(s, x) && Failures(s.log, id) == x.retry && Successes(s.log, id) == 1)
    && (forall x | x in s.gaveUp && x.id == id ::
          Genuine(s, x) && Failures(s.log, id) == MAX_RETRY + 1 && Successes(s.log, id) == 0)
    && (|s.accepted| <= id ==> Failures(s.log, id) == 0 && Successes(s.log, id) == 0)
  }

  lemma AtMostOnce(s: Pipe, x: Item, y: Item)
    requires s.batch != [] && Places(s, x.id) <= 1
    requires x == s.batch[0] && y.id == x.id
    ensures y !in s.batch[1..] && y !in s.queue && y !in s.sleeping && y !in s.delivered && y !in s.gaveUp
  {
    if y in s.batch[1..] { OccMember(s.batch[1..], y); }
    if y in s.queue { OccMember(s.queue, y); }
    if y in s.sleeping { OccMember(s.sleeping, y); }
    if y in s.delivered { OccMember(s.delivered, y); }
    if y in s.gaveUp { OccMember(s.gaveUp, y); }
  }

  /** The attempt on the head of the batch changes only the counts of that head. */
  lemma ProcessLogs(s: Pipe, o: Outcome, id: nat)
    requires s.batch != []
    ensures var t := ProcessHead(s, o); var mine := s.batch[0].id == id;
      && Failures(t.log, id) == Failures(s.log, id) + (if mine && !o.Stored? then 1 else 0)
      && Successes(t.log, id) == Successes(s.log, id) + (if mine && o.Stored? then 1 else 0)
  {
    var t := ProcessHead(s, o);
    assert t.log == s.log + [Attempt(s.batch[0], o)];
    assert t.log[..|t.log| - 1] == s.log;
  }

  lemma ProcessTracksHead(s: Pipe, o: Outcome)
    requires s.batch != [] && Tracked(s, s.batch[0].id) && Places(s, s.batch[0].id) <= 1
    ensures Tracked(ProcessHead(s, o), s.batch[0].id)
  {
    hide Occ, Failures, Successes;
    var item := s.batch[0];
    assert Pending(s, item);
    var t := ProcessHead(s, o);
    ProcessLogs(s, o, item.id);
    forall y: Item | y.id == item.id
      ensures y !in s.batch[1..] && y !in s.queue && y !in s.sleeping && y !in s.delivered && y !in s.gaveUp
    {
      AtMostOnce(s, item, y);
    }
    assert forall y | Pending(t, y) && y.id == item.id :: y == item.(retry := item.retry + 1);
  }

  lemma ProcessTracksOthers(s: Pipe, o: Outcome, id: nat)
    requires s.batch != [] && Tracked(s, id) && s.batch[0].id != id
    ensures Tracked(ProcessHead(s, o), id)
  {
    hide Occ, Failures, Successes;
    var t := ProcessHead(s, o);
    ProcessLogs(s, o, id);
    assert forall y | Pending(t, y) && y.id == id :: Pending(s, y);
  }

  lemma ProcessTracks(s: Pipe, o: Outcome, id: nat)
    requires s.batch != [] && Tracked(s, id) && Places(s, id) <= 1
    ensures Tracked(ProcessHead(s, o), id)
  {
    hide Occ, Failures, Successes, Tracked, ProcessHead, Places;
    if s.batch[0].id == id {
      ProcessTracksHead(s, o);
    } else {
      ProcessTracksOthers(s, o, id);
    }
  }

  /** A step that makes no attempt leaves the fate of a write alone. */
  lemma MoveTracks(s: Pipe, t: Pipe, id: nat)
    requires Tracked(s, id)
    requires s.accepted == t.accepted && s.log == t.log && s.delivered == t.delivered && s.gaveUp == t.gaveUp
    requires forall x | Pending(t, x) :: Pending(s, x)
    requires forall x | x in t.sleeping :: x in s.sleeping
    ensures Tracked(t, id)
  {}

  lemma EnqueueTracks(s: Pipe, e: Entry, id: nat)
    requires Enabled(s, Enqueue(e)) && Tracked(s, id)
    requires forall x | Pending(s, x) || x in s.delivered || x in s.gaveUp :: x.id < |s.accepted|
    ensures Tracked(Step(s, Enqueue(e)), id)
  {
    hide Occ, Failures, Successes;
    var t := Step(s, Enqueue(e));
    assert forall y | Pending(t, y) && y.id == id :: Pending(s, y) || y == Item(|s.accepted|, e, 0);
  }

  lemma StepTracks(s: Pipe, a: Action, id: nat)
    requires Tracked(s, id) && Places(s, id) <= 1
    requires forall x | Pending(s, x) || x in s.delivered || x in s.gaveUp :: x.id < |s.accepted|
    ensures Tracked(Step(s, a), id)
  {
    hide Occ, Failures, Successes, Tracked, Places, ProcessHead;
    if Enabled(s, a) {
      match a
      case Process(o) => ProcessTracks(s, o, id);
      case Enqueue(e) => EnqueueTracks(s, e, id);
      case _ => MoveTracks(s, Step(s, a), id);
    } else {
      MoveTracks(s, s, id);
    }
  }

  lemma InPlace(acts: seq<Action>, x: Item)
    requires var s := Run(acts); Pending(s, x) || x in s.delivered || x in s.gaveUp
    ensures x.id < |Run(acts).accepted|
  {
    hide Occ, Run;
    var s := Run(acts);
    Conservation(acts, x.id);
    if x in s.queue { OccMember(s.queue, x); }
    if x in s.batch { OccMember(s.batch, x); }
    if x in s.sleeping { OccMember(s.sleeping, x); }
    if x in s.delivered { OccMember(s.delivered, x); }
    if x in s.gaveUp { OccMember(s.gaveUp, x); }
  }

  lemma {:induction false} RunTracks(acts: seq<Action>, id: nat)
    ensures Tracked(Run(acts), id)
  {
    hide Occ, Failures, Successes, Step, Places;
    if acts != [] {
      var before := acts[..|acts| - 1];
      var s := Run(before);
      RunTracks(before, id);
      Conservation(before, id);
      forall x | Pending(s, x) || x in s.delivered || x in s.gaveUp ensures x.id < |s.accepted| {
        InPlace(before, x);
      }
      StepTracks(s, acts[|acts| - 1], id);
    } else {
      assert Failures([], id) == 0 && Successes([], id) == 0 by { EmptyLog(id); }
    }
  }

  lemma EmptyLog(id: nat)
    ensures Failures([], id) == 0 && Successes([], id) == 0
  {}

  /** A write is delivered exactly when an attempt on it succeeded, given up exactly when four
      attempts on it failed, and otherwise still pending with at most three failures. */
  lemma FateOfAWrite(acts: seq<Action>, id: nat)
    requires id < |Run(acts).accepted|
    ensures var s := Run(acts);
      && (Occ(s.delivered, id) == 1 <==> Successes(s.log, id) == 1)
      && (Occ(s.gaveUp, id) == 1 <==> Failures(s.log, id) == 4)
      && Successes(s.log, id) <= 1 && Failures(s.log, id) <= 4
      && Failures(s.log, id) + Successes(s.log, id) <= 4
  {
    var s := Run(acts);
    Conservation(acts, id);
    RunTracks(acts, id);
    var x: Item;
    if Occ(s.queue, id) >= 1 { x := OccWitness(s.queue, id); assert Pending(s, x); }
    else if Occ(s.batch, id) >= 1 { x := OccWitness(s.batch, id); assert Pending(s, x); }
    else if Occ(s.sleeping, id) >= 1 { x := OccWitness(s.sleeping, id); assert Pending(s, x); }
    else if Occ(s.delivered, id) >= 1 { x := OccWitness(s.delivered, id); }
    else { x := OccWitness(s.gaveUp, id); }
  }

  /** Every pending item is the entry that was accepted, with retry in 0..3. */
  lemma PendingIsGenuine(acts: seq<Action>, x: Item)
    requires Pending(Run(acts), x)
    ensures Genuine(Run(acts), x) && Failures(Run(acts).log, x.id) == x.retry
  {
    RunTracks(acts, x.id);
  }

  // ----- Capacity, batch size, and a drain that never blocks -----

  predicate Bounded(s: Pipe) {
    && |s.queue| <= 10000
    && (s.phase.Selecting? ==> |s.batch| < 100)
    && (s.phase.Processing? ==> |s.batch| <= 100)
    && (s.phase.DrainReceive? ==> s.queue != [])
    && (s.phase.Stopped? ==> s.batch == [])
    && (s.phase.DrainTest? || s.phase.DrainReceive? || s.phase.Finishing? || s.phase.Stopped? ==> s.closed)
  }

  lemma StepBounded(s: Pipe, a: Action)
    requires Bounded(s)
    ensures Bounded(Step(s, a))
  {}

  /** The queue never exceeds its capacity, and whenever the drain is about to receive there is an
      item to receive, because only the worker takes items out. */
  lemma {:induction false} DrainNeverBlocks(acts: seq<Action>)
    ensures Bounded(Run(acts))
  {
    if acts == [] {
    } else {
      hide Step, Bounded;
      DrainNeverBlocks(acts[..|acts| - 1]);
      StepBounded(Run(acts[..|acts| - 1]), acts[|acts| - 1]);
    }
  }
}
