/** Termination of the write-behind pipeline, and what Close guarantees when it returns. */
module WriteBehindProgress {
  import opened Storage
  import opened WriteBehind

  // ----- A measure that falls at every internal step -----

  /** Each retry still allowed costs four moves, plus the moves left in the current round. */
  function Load(xs: seq<Item>, base: int): int {
    if xs == [] then 0 else 4 * (MAX_RETRY - xs[0].retry) + base + Load(xs[1..], base)
  }

  function Work(s: Pipe): int {
    Load(s.sleeping, 3) + Load(s.queue, 2) + Load(s.batch, 1)
  }

  function Rank(s: Pipe): int {
    match s.phase
    case Stopped => 0
    case Finishing => 1
    case DrainReceive => 2
    case DrainTest => 3
    case Selecting => if s.batch == [] then 4 else 6
    case Processing => 5
  }

  function Measure(s: Pipe): int {
    3 * Work(s) + Rank(s)
  }

  ghost predicate RetriesInRange(s: Pipe) {
    forall x | Pending(s, x) :: 0 <= x.retry <= MAX_RETRY
  }

  /** The steps of the worker and of the retry goroutines, as opposed to requests and Close. */
  predicate Internal(a: Action) {
    !a.Enqueue? && !a.DirectWrite? && !a.Close?
  }

  lemma {:induction false} LoadConcat(xs: seq<Item>, ys: seq<Item>, base: int)
    ensures Load(xs + ys, base) == Load(xs, base) + Load(ys, base)
  {
    if xs == [] {
      assert xs + ys == ys;
    } else {
      assert (xs + ys)[1..] == xs[1..] + ys;
      LoadConcat(xs[1..], ys, base);
    }
  }

  lemma LoadAppend(xs: seq<Item>, x: Item, base: int)
    ensures Load(xs + [x], base) == Load(xs, base) + 4 * (MAX_RETRY - x.retry) + base
  {
    LoadConcat(xs, [x], base);
  }

  lemma LoadRemove(xs: seq<Item>, j: nat, base: int)
    requires j < |xs|
    ensures Load(xs, base) == Load(xs[..j] + xs[j + 1..], base) + 4 * (MAX_RETRY - xs[j].retry) + base
  {
    LoadConcat(xs[..j], xs[j + 1..], base);
    LoadConcat(xs[..j], [xs[j]] + xs[j + 1..], base);
    assert xs[..j] + ([xs[j]] + xs[j + 1..]) == xs;
  }

  lemma {:induction false} LoadBounds(xs: seq<Item>, base: nat)
    requires base <= 3 && forall x | x in xs :: 0 <= x.retry <= MAX_RETRY
    ensures 0 <= Load(xs, base) <= 15 * |xs|
  {
    if xs != [] {
      LoadBounds(xs[1..], base);
      assert |xs| == 1 + |xs[1..]|;
    }
  }

  lemma MeasureBounds(s: Pipe)
    requires RetriesInRange(s)
    ensures 0 <= Work(s)
    ensures 0 <= Measure(s) <= 45 * (|s.sleeping| + |s.queue| + |s.batch|) + 6
  {
    LoadBounds(s.sleeping, 3);
    LoadBounds(s.queue, 2);
    LoadBounds(s.batch, 1);
  }

  lemma ProcessKeepsRange(s: Pipe, o: Outcome)
    requires s.batch != [] && RetriesInRange(s)
    ensures RetriesInRange(ProcessHead(s, o))
  {
    var t := ProcessHead(s, o);
    assert Pending(s, s.batch[0]);
    forall x | Pending(t, x) ensures 0 <= x.retry <= MAX_RETRY {
      assert Pending(s, x) || x == s.batch[0].(retry := s.batch[0].retry + 1);
    }
  }

  lemma StepKeepsRange(s: Pipe, a: Action)
    requires RetriesInRange(s)
    ensures RetriesInRange(Step(s, a))
  {
    hide ProcessHead;
    if Enabled(s, a) {
      var t := Step(s, a);
      match a
      case Process(o) => ProcessKeepsRange(s, o);
      case Enqueue(e) =>
        assert forall x | Pending(t, x) :: Pending(s, x) || x == Item(|s.accepted|, e, 0);
      case _ =>
        assert forall x | Pending(t, x) :: Pending(s, x);
    }
  }

  lemma ProcessFalls(s: Pipe, o: Outcome)
    requires s.batch != [] && RetriesInRange(s)
    ensures Work(ProcessHead(s, o)) < Work(s)
  {
    var item := s.batch[0];
    assert Pending(s, item);
    LoadAppend(s.sleeping, item.(retry := item.retry + 1), 3);
    assert Load(s.batch, 1) == 4 * (MAX_RETRY - item.retry) + 1 + Load(s.batch[1..], 1);
  }

  lemma TakeFalls(s: Pipe)
    requires s.queue != []
    ensures Load(s.batch + [s.queue[0]], 1) + Load(s.queue[1..], 2) == Load(s.batch, 1) + Load(s.queue, 2) - 1
  {
    LoadAppend(s.batch, s.queue[0], 1);
  }

  lemma WakeFalls(s: Pipe, j: nat)
    requires j < |s.sleeping|
    ensures Load(s.queue + [s.sleeping[j]], 2) + Load(s.sleeping[..j] + s.sleeping[j + 1..], 3)
         == Load(s.queue, 2) + Load(s.sleeping, 3) - 1
  {
    LoadRemove(s.sleeping, j, 3);
    LoadAppend(s.queue, s.sleeping[j], 2);
  }

  /** Every enabled step of the worker or of a retry goroutine lowers the measure, in every phase. */
  lemma InternalStepFalls(s: Pipe, a: Action)
    requires RetriesInRange(s) && Internal(a) && Enabled(s, a)
    ensures Measure(Step(s, a)) < Measure(s)
  {
    hide Load, ProcessHead;
    match a
    case Receive => TakeFalls(s);
    case DrainOne => TakeFalls(s);
    case Wake(j) => WakeFalls(s, j);
    case Process(o) =>
      ProcessFalls(s, o);
      ProcessPhase(s, o);
    case _ =>
  }

  lemma ProcessPhase(s: Pipe, o: Outcome)
    requires s.batch != []
    ensures ProcessHead(s, o).phase == s.phase
  {}

  function InternalSteps(s: Pipe, acts: seq<Action>): nat {
    if acts == [] then 0
    else
      var last := acts[|acts| - 1];
      var before := acts[..|acts| - 1];
      InternalSteps(s, before) + if Internal(last) && Enabled(RunFrom(s, before), last) then 1 else 0
  }

  lemma OtherStepKeeps(s: Pipe, a: Action)
    requires !a.Enqueue? && (!Internal(a) || !Enabled(s, a))
    ensures Measure(Step(s, a)) == Measure(s)
  {}

  /** Once no entry is accepted any more, the pipeline makes at most Measure(s) further steps of its
      own, whatever the backends answer and however the goroutines interleave. */
  lemma {:induction false} BoundedSteps(s: Pipe, acts: seq<Action>)
    requires RetriesInRange(s)
    requires forall a | a in acts :: !a.Enqueue?
    ensures RetriesInRange(RunFrom(s, acts))
    ensures InternalSteps(s, acts) + Measure(RunFrom(s, acts)) <= Measure(s)
    ensures InternalSteps(s, acts) <= 45 * (|s.sleeping| + |s.queue| + |s.batch|) + 6
  {
    hide Measure, Step, RetriesInRange, Internal, Enabled;
    if acts != [] {
      var before := acts[..|acts| - 1];
      var last := acts[|acts| - 1];
      var t := RunFrom(s, before);
      BoundedSteps(s, before);
      StepKeepsRange(t, last);
      assert !last.Enqueue?;
      if Internal(last) && Enabled(t, last) {
        InternalStepFalls(t, last);
      } else {
        OtherStepKeeps(t, last);
      }
    }
    MeasureBounds(s);
    MeasureBounds(RunFrom(s, acts));
  }

  /** When no step is left, a running pipeline holds nothing and a closed one has stopped. */
  lemma StuckMeansFinished(s: Pipe)
    requires Bounded(s)
    requires forall a | Internal(a) :: !Enabled(s, a)
    ensures s.closed ==> s.phase.Stopped?
    ensures !s.closed ==> s.queue == [] && s.batch == [] && s.sleeping == []
  {
    assert !Enabled(s, Receive) && !Enabled(s, Tick) && !Enabled(s, Process(NoBackend)) && !Enabled(s, EndBatch);
    assert !Enabled(s, TakeStop) && !Enabled(s, TestQueue) && !Enabled(s, DrainOne) && !Enabled(s, Wake(0));
  }

  /** Without Close, every accepted write ends up delivered or given up once no step is left, and by
      BoundedSteps that point is reached after boundedly many steps. */
  lemma EveryWriteSettles(acts: seq<Action>, id: nat)
    requires !Run(acts).closed && id < |Run(acts).accepted|
    requires forall a | Internal(a) :: !Enabled(Run(acts), a)
    ensures Occ(Run(acts).delivered, id) + Occ(Run(acts).gaveUp, id) == 1
  {
    DrainNeverBlocks(acts);
    StuckMeansFinished(Run(acts));
    Conservation(acts, id);
  }

  // ----- Close -----

  ghost predicate Attempted(s: Pipe, x: Item, from: nat) {
    exists i :: from <= i < |s.log| && s.log[i].item == x
  }

  /** After the stop branch: x has been attempted, or the drain has yet to reach it. */
  ghost predicate OnTheWayOut(s: Pipe, x: Item, from: nat) {
    && from <= |s.log|
    && !s.phase.Selecting? && !s.phase.Processing?
    && (s.phase.Stopped? ==> s.batch == [])
    && (Attempted(s, x, from) || x in s.batch
        || (x in s.queue && (s.phase.DrainTest? || s.phase.DrainReceive?)))
  }

  lemma StepOnTheWayOut(s: Pipe, a: Action, x: Item, from: nat)
    requires OnTheWayOut(s, x, from)
    ensures OnTheWayOut(Step(s, a), x, from)
  {
    StepKeepsAttempts(s, a, x, from);
    hide Attempted, WithWrite;
  }

  /** Attempts stay on the log, and an attempt on the head of the batch is put there. */
  lemma StepKeepsAttempts(s: Pipe, a: Action, x: Item, from: nat)
    requires from <= |s.log|
    ensures from <= |Step(s, a).log|
    ensures Attempted(s, x, from) ==> Attempted(Step(s, a), x, from)
    ensures Enabled(s, a) && a.Process? && x == s.batch[0] ==> Attempted(Step(s, a), x, from)
  {
    var t := Step(s, a);
    assert |s.log| <= |t.log| && forall i | 0 <= i < |s.log| :: t.log[i] == s.log[i];
    if Attempted(s, x, from) {
      var i :| from <= i < |s.log| && s.log[i].item == x;
      assert t.log[i].item == x;
    } else if Enabled(s, a) && a.Process? && x == s.batch[0] {
      assert t.log[|s.log|].item == x;
    }
  }

  lemma {:induction false} RunOnTheWayOut(s: Pipe, acts: seq<Action>, x: Item, from: nat)
    requires OnTheWayOut(s, x, from)
    ensures OnTheWayOut(RunFrom(s, acts), x, from)
  {
    if acts != [] {
      hide OnTheWayOut, Step;
      RunOnTheWayOut(s, acts[..|acts| - 1], x, from);
      StepOnTheWayOut(RunFrom(s, acts[..|acts| - 1]), acts[|acts| - 1], x, from);
    }
  }

  /** Whatever was in the queue or the batch when the worker took the stop branch has been attempted
      by the time the worker has stopped, whatever else ran in between. */
  lemma CloseAttemptsEverything(acts: seq<Action>, rest: seq<Action>, x: Item)
    requires Enabled(Run(acts), TakeStop)
    requires x in Run(acts).queue || x in Run(acts).batch
    requires RunFrom(Step(Run(acts), TakeStop), rest).phase.Stopped?
    ensures Attempted(RunFrom(Step(Run(acts), TakeStop), rest), x, |Run(acts).log|)
  {
    RunOnTheWayOut(Step(Run(acts), TakeStop), rest, x, |Run(acts).log|);
  }

  ghost predicate LateOrTried(s: Pipe) {
    && s.mark <= |s.accepted|
    && (forall x | x in s.sleeping :: x.retry >= 1)
    && (forall x | Pending(s, x) :: x.retry >= 0)
    && (s.phase.Finishing? || s.phase.Stopped? ==>
          forall x | x in s.queue :: x.retry >= 1 || x.id >= s.mark)
  }

  lemma ProcessKeepsLate(s: Pipe, o: Outcome)
    requires s.batch != [] && LateOrTried(s)
    ensures LateOrTried(ProcessHead(s, o))
  {
    var t := ProcessHead(s, o);
    assert Pending(s, s.batch[0]);
    forall x | Pending(t, x) ensures x.retry >= 0 {
      assert Pending(s, x) || x == s.batch[0].(retry := s.batch[0].retry + 1);
    }
  }

  lemma StepKeepsLate(s: Pipe, a: Action)
    requires LateOrTried(s)
    ensures LateOrTried(Step(s, a))
  {
    hide ProcessHead;
    if Enabled(s, a) {
      var t := Step(s, a);
      match a
      case Process(o) => ProcessKeepsLate(s, o);
      case Enqueue(e) =>
        assert forall x | Pending(t, x) :: Pending(s, x) || x == Item(|s.accepted|, e, 0);
      case _ =>
        assert forall x | Pending(t, x) :: Pending(s, x);
    }
  }

  lemma {:induction false} RunKeepsLate(acts: seq<Action>)
    ensures LateOrTried(Run(acts))
  {
    if acts == [] {
    } else {
      hide LateOrTried, Step;
      RunKeepsLate(acts[..|acts| - 1]);
      StepKeepsLate(Run(acts[..|acts| - 1]), acts[|acts| - 1]);
    }
  }

  /** Whatever is unfinished after the worker stopped has already failed at least once, or was
      enqueued after the drain last found the queue empty. */
  lemma UnfinishedAfterClose(acts: seq<Action>, x: Item)
    requires Run(acts).phase.Stopped? && Pending(Run(acts), x)
    ensures Failures(Run(acts).log, x.id) >= 1 || Run(acts).mark <= x.id < |Run(acts).accepted|
  {
    RunKeepsLate(acts);
    PendingIsGenuine(acts, x);
    DrainNeverBlocks(acts);
  }
}
