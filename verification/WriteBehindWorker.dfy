/**
 The write-behind worker as imperative code: the queue, the batch it appends to and resets, the
 retries it sends to sleep.  Every method is proved to perform a run of named actions of the step system,
 so what WriteBehind, WriteBehindProgress and WriteBehindOrder prove of all runs holds of it.
 The answers of router and backends are parameters.
 */
module WriteBehindWorker {
  import opened Storage
  import opened WriteBehind

  /** The actions of one pass over a batch. */
  function Passes(outcomes: seq<Outcome>): seq<Action> {
    seq(|outcomes|, i requires 0 <= i < |outcomes| => Process(outcomes[i]))
  }

  /** The actions of a drain that finds n items in the queue. */
  function Drains(n: nat): seq<Action> {
    if n == 0 then [TestQueue] else [TestQueue, DrainOne] + Drains(n - 1)
  }

  /** Steps of the worker alone: no request, no retry goroutine, no Close takes part. */
  predicate OwnSteps(acts: seq<Action>) {
    forall i | 0 <= i < |acts| :: !acts[i].Enqueue? && !acts[i].DirectWrite? && !acts[i].Close? && !acts[i].Wake?
  }

  /** What the worker's methods are pinned to are steps of its own. */
  lemma {:induction false} WorkerActsAlone(n: nat, outcomes: seq<Outcome>)
    ensures OwnSteps([Receive] + Passes(outcomes) + [EndBatch]) && OwnSteps([Tick] + Passes(outcomes) + [EndBatch])
    ensures OwnSteps(Drains(n)) && OwnSteps([TakeStop] + Drains(n) + Passes(outcomes) + [EndBatch])
  {
    if n > 0 {
      WorkerActsAlone(n - 1, outcomes);
      assert forall i | 2 <= i < |Drains(n)| :: Drains(n)[i] == Drains(n - 1)[i - 2];
    }
  }

  lemma OnlyEnqueueAccepts(s: Pipe, a: Action)
    requires !a.Enqueue?
    ensures Step(s, a).accepted == s.accepted
  {}

  lemma {:induction false} OwnStepsAccept(s: Pipe, acts: seq<Action>)
    requires OwnSteps(acts)
    ensures RunFrom(s, acts).accepted == s.accepted
  {
    hide Step;
    if acts != [] {
      OwnStepsAccept(s, acts[..|acts| - 1]);
      OnlyEnqueueAccepts(RunFrom(s, acts[..|acts| - 1]), acts[|acts| - 1]);
    }
  }

  /** The attempts of one pass over a batch. */
  function Attempts(items: seq<Item>, outcomes: seq<Outcome>): seq<Attempt>
    requires |items| <= |outcomes|
  {
    seq(|items|, i requires 0 <= i < |items| => Attempt(items[i], outcomes[i]))
  }

  lemma ProcessEffect(s: Pipe, o: Outcome)
    requires Enabled(s, Process(o))
    ensures var item := s.batch[0];
      Step(s, Process(o)) == s.(
        batch := s.batch[1..],
        log := s.log + [Attempt(item, o)],
        writes := s.writes + Landed(o, item.entry),
        delivered := s.delivered + (if o.Stored? then [item] else []),
        sleeping := s.sleeping
          + (if !o.Stored? && item.retry < MAX_RETRY then [item.(retry := item.retry + 1)] else []),
        gaveUp := s.gaveUp + (if !o.Stored? && item.retry >= MAX_RETRY then [item] else []))
  {
    hide RunFrom;
    assert s.writes + [] == s.writes && s.delivered + [] == s.delivered;
    assert s.sleeping + [] == s.sleeping && s.gaveUp + [] == s.gaveUp;
  }

  lemma CanProcess(s: Pipe, o: Outcome)
    requires (s.phase.Processing? || s.phase.Finishing?) && s.batch != []
    ensures Enabled(s, Process(o))
  {}

  /** The write an attempt leaves behind, if any. */
  function Landed(o: Outcome, e: Entry): seq<Write> {
    if (o.Refused? && o.landed) || o.Stored? then [Write(o.backend, e)] else []
  }

  lemma DrainsOn(acts: seq<Action>, n: nat)
    ensures n > 0 ==> acts + [TestQueue] + [DrainOne] + Drains(n - 1) == acts + Drains(n)
    ensures n == 0 ==> acts + [TestQueue] == acts + Drains(n)
  {}

  lemma DrainStep(s: Pipe)
    requires s.phase.DrainTest? && s.queue != []
    ensures Step(Step(s, TestQueue), DrainOne)
         == s.(queue := s.queue[1..], batch := s.batch + [s.queue[0]])
  {}

  lemma NoSteps(s: Pipe)
    ensures RunFrom(s, []) == s
  {}

  lemma StopStep(s: Pipe)
    requires s.phase.Finishing? && s.batch == []
    ensures Step(s, EndBatch) == s.(phase := Stopped)
  {}

  lemma StopTaken(s: Pipe)
    requires Enabled(s, TakeStop)
    ensures RunFrom(s, [TakeStop]) == s.(phase := DrainTest)
  {
    assert RunFrom(s, [TakeStop]) == Step(RunFrom(s, []), TakeStop);
  }

  lemma EmptyTest(s: Pipe)
    requires s.phase.DrainTest? && s.queue == []
    ensures Step(s, TestQueue) == s.(phase := Finishing, mark := |s.accepted|)
  {}

  class Worker {
    var queue: seq<Item>
    var batch: seq<Item>
    var sleeping: seq<Item>
    var cells: Cells              // what the backends hold
    var closed: bool
    var nextId: nat               // tells items apart; the proxy tells them apart by their address
    ghost var done: nat           // how much of the batch the current pass has processed
    ghost var phase: Phase
    ghost var accepted: seq<Entry>
    ghost var delivered: seq<Item>
    ghost var gaveUp: seq<Item>
    ghost var log: seq<Attempt>
    ghost var writes: seq<Write>
    ghost var mark: nat
    ghost const initial: Cells

    ghost predicate Valid()
      reads this
    {
      done <= |batch| && cells == Replay(initial, writes) && nextId == |accepted|
    }

    /** The state of the step system this object stands for. */
    ghost function Snapshot(): Pipe
      reads this
      requires Valid()
    {
      Pipe(accepted, queue, batch[done..], phase, sleeping, delivered, gaveUp, log, writes, closed, mark)
    }

    constructor (initialCells: Cells)
      ensures Valid() && Snapshot() == Init && done == 0 && initial == initialCells
    {
      queue, batch, sleeping, closed, nextId := [], [], [], false, 0;
      cells := initialCells;
      initial := initialCells;
      done, phase, accepted, delivered, gaveUp, log, writes, mark := 0, Selecting, [], [], [], [], [], 0;
    }

    /** The select of setWriteBehind: take a free slot of the queue, or report that there is none. */
    method TryEnqueue(e: Entry) returns (queued: bool)
      requires Valid()
      modifies this
      ensures Valid() && Snapshot() == Step(old(Snapshot()), Enqueue(e)) && done == old(done)
      ensures queued <==> |old(queue)| < 10000
    {
      queued := |queue| < QUEUE_CAPACITY;
      if queued {
        queue := queue + [Item(nextId, e, 0)];
        nextId := nextId + 1;
        accepted := accepted + [e];
      }
    }

    /** A retry goroutine's send, once its sleep is over and the queue has room. */
    method SendRetry(j: nat)
      requires Valid() && j < |sleeping| && |queue| < QUEUE_CAPACITY
      modifies this
      ensures Valid() && Snapshot() == Step(old(Snapshot()), Wake(j)) && done == old(done)
    {
      queue := queue + [sleeping[j]];
      sleeping := sleeping[..j] + sleeping[j + 1..];
    }

    /** backend.Set of a worker: the write may land even when it is refused. */
    method SetBackend(e: Entry, o: Outcome)
      requires Valid()
      modifies `cells, `writes
      ensures Valid() && writes == old(writes) + Landed(o, e)
    {
      hide Replay;
      if (o.Refused? && o.landed) || o.Stored? {
        ReplayAppend(initial, writes, Write(o.backend, e));
        cells := cells[(o.backend, e.key) := e.value];
        writes := writes + [Write(o.backend, e)];
      }
    }

    /** processWriteBehindItem: a failed item goes to sleep with one more retry, three times at most. */
    method ProcessItem(item: Item, o: Outcome)
      requires Valid() && done < |batch| && item == batch[done]
      requires phase.Processing? || phase.Finishing?
      modifies this
      ensures Valid() && Snapshot() == Step(old(Snapshot()), Process(o))
      ensures batch == old(batch) && done == old(done) + 1 && phase == old(phase)
      ensures queue == old(queue) && log == old(log) + [Attempt(item, o)]
    {
      hide Step, RunFrom, Replay, Landed, Enabled;
      CanProcess(Snapshot(), o);
      ProcessEffect(Snapshot(), o);
      assert batch[done..][0] == item && batch[done..][1..] == batch[done + 1..];
      SetBackend(item.entry, o);
      if !o.Stored? {
        if item.retry < MAX_RETRY {
          sleeping := sleeping + [item.(retry := item.retry + 1)];
        } else {
          gaveUp := gaveUp + [item];
        }
      } else {
        delivered := delivered + [item];
      }
      log := log + [Attempt(item, o)];
      done := done + 1;
    }

    /** processWriteBehindBatch: one attempt on each item, in order. */
    method ProcessBatch(outcomes: seq<Outcome>)
      requires Valid() && done == 0 && |outcomes| == |batch|
      requires phase.Processing? || phase.Finishing?
      modifies this
      ensures Valid() && done == |batch| && batch == old(batch) && phase == old(phase)
      ensures Snapshot() == RunFrom(old(Snapshot()), Passes(outcomes))
      ensures queue == old(queue) && log == old(log) + Attempts(old(batch), outcomes)
    {
      hide Step;
      ghost var before := Snapshot();
      var i := 0;
      while i < |batch|
        invariant 0 <= i <= |batch| && Valid() && done == i
        invariant batch == old(batch) && phase == old(phase) && queue == old(queue)
        invariant Snapshot() == RunFrom(before, Passes(outcomes)[..i])
        invariant log == old(log) + Attempts(old(batch), outcomes)[..i]
      {
        ghost var all := Passes(outcomes);
        assert all[..i + 1] == all[..i] + [Process(outcomes[i])];
        RunOne(before, all[..i], Process(outcomes[i]));
        assert Attempts(old(batch), outcomes)[..i + 1]
            == Attempts(old(batch), outcomes)[..i] + [Attempt(batch[i], outcomes[i])];
        ProcessItem(batch[i], outcomes[i]);
        i := i + 1;
      }
      assert Passes(outcomes)[..|batch|] == Passes(outcomes);
      assert Attempts(old(batch), outcomes)[..|batch|] == Attempts(old(batch), outcomes);
    }

    /** The end of a pass over the batch in the select loop: the batch is reset. */
    method ResetBatch()
      requires Valid() && done == |batch| && phase.Processing?
      modifies this
      ensures Valid() && done == 0 && batch == [] && phase == Selecting
      ensures queue == old(queue) && log == old(log)
      ensures Snapshot() == Step(old(Snapshot()), EndBatch)
    {
      batch, done, phase := [], 0, Selecting;
    }

    /** A whole pass in the select loop: process the batch, then reset it. */
    method Flush(outcomes: seq<Outcome>) returns (ghost acts: seq<Action>)
      requires Valid() && done == 0 && phase.Processing? && |outcomes| == |batch|
      modifies this
      ensures Valid() && done == 0 && batch == [] && phase == Selecting && queue == old(queue)
      ensures acts == Passes(outcomes) + [EndBatch] && Snapshot() == RunFrom(old(Snapshot()), acts)
      ensures log == old(log) + Attempts(old(batch), outcomes)
    {
      hide Step;
      ProcessBatch(outcomes);
      RunOne(old(Snapshot()), Passes(outcomes), EndBatch);
      acts := Passes(outcomes) + [EndBatch];
      ResetBatch();
    }

    /** The receive branch: append, and process the batch once it holds a hundred items. */
    method OnReceive(outcomes: seq<Outcome>) returns (ghost acts: seq<Action>)
      requires Valid() && done == 0 && phase.Selecting? && queue != []
      requires |batch| < 100 && |outcomes| == 100
      modifies this
      ensures Valid() && done == 0 && phase.Selecting? && |batch| < 100
      ensures queue == old(queue)[1..]
      ensures batch == if |old(batch)| + 1 < 100 then old(batch) + [old(queue)[0]] else []
      ensures batch == [] ==> log == old(log) + Attempts(old(batch) + [old(queue)[0]], outcomes)
      ensures acts == [Receive]
                + if |old(batch)| + 1 < 100 then [] else Passes(outcomes) + [EndBatch]
      ensures Snapshot() == RunFrom(old(Snapshot()), acts)
    {
      ghost var before := Snapshot();
      batch := batch + [queue[0]];
      queue := queue[1..];
      phase := if |batch| >= BATCH_SIZE then Processing else Selecting;
      assert Snapshot() == Step(before, Receive);
      assert RunFrom(before, [Receive]) == Step(RunFrom(before, []), Receive);
      hide Step;
      acts := [Receive];
      if |batch| >= BATCH_SIZE {
        ghost var more := Flush(outcomes);
        RunAppend(before, acts, more);
        acts := acts + more;
      }
    }

    /** The ticker branch: process whatever the batch holds. */
    method OnTick(outcomes: seq<Outcome>) returns (ghost acts: seq<Action>)
      requires Valid() && done == 0 && phase.Selecting? && |outcomes| == |batch|
      modifies this
      ensures Valid() && done == 0 && phase.Selecting? && batch == [] && queue == old(queue)
      ensures log == old(log) + Attempts(old(batch), outcomes)
      ensures acts == if old(batch) == [] then [] else [Tick] + Passes(outcomes) + [EndBatch]
      ensures Snapshot() == RunFrom(old(Snapshot()), acts)
    {
      ghost var before := Snapshot();
      acts := [];
      if |batch| > 0 {
        phase := Processing;
        assert Snapshot() == Step(before, Tick);
        assert RunFrom(before, [Tick]) == Step(RunFrom(before, []), Tick);
        hide Step;
        ghost var more := Flush(outcomes);
        RunAppend(before, [Tick], more);
        acts := [Tick] + more;
        assert acts == [Tick] + Passes(outcomes) + [EndBatch];
      }
    }

    /** One turn of the drain loop. */
    method DrainItem()
      requires Valid() && done == 0 && phase.DrainTest? && queue != []
      modifies `queue, `batch
      ensures Valid() && Snapshot() == Step(Step(old(Snapshot()), TestQueue), DrainOne)
      ensures queue == old(queue)[1..] && batch == old(batch) + [old(queue)[0]]
    {
      DrainStep(Snapshot());
      var item := queue[0];
      queue := queue[1..];
      batch := batch + [item];
    }

    /** The drain loop of the stop branch, up to its last emptiness check. */
    method Drain() returns (ghost acts: seq<Action>)
      requires Valid() && done == 0 && phase.DrainTest?
      modifies `queue, `batch, `phase, `mark
      ensures Valid() && phase.Finishing? && queue == []
      ensures batch == old(batch) + old(queue) && mark == |accepted|
      ensures acts == Drains(|old(queue)|) && Snapshot() == RunFrom(old(Snapshot()), acts)
    {
      hide Step, Replay, RunFrom, Drains;
      ghost var before := Snapshot();
      ghost var all := Drains(|queue|);
      acts := [];
      NoSteps(before);
      while |queue| > 0
        invariant Valid() && phase.DrainTest?
        invariant batch + queue == old(batch) + old(queue)
        invariant Snapshot() == RunFrom(before, acts)
        invariant acts + Drains(|queue|) == all
      {
        DrainsOn(acts, |queue|);
        RunOne(before, acts, TestQueue);
        RunOne(before, acts + [TestQueue], DrainOne);
        acts := acts + [TestQueue] + [DrainOne];
        DrainItem();
      }
      EmptyTest(Snapshot());
      RunOne(before, acts, TestQueue);
      DrainsOn(acts, 0);
      acts := acts + [TestQueue];
      phase, mark := Finishing, |accepted|;
    }

    /** The stop branch: drain the queue into the batch, attempt all of it once, and stop. */
    method OnStop(outcomes: seq<Outcome>) returns (ghost acts: seq<Action>)
      requires Valid() && done == 0 && phase.Selecting? && closed
      requires |outcomes| == |batch| + |queue|
      modifies this
      ensures Valid() && phase.Stopped? && queue == [] && done == |batch|
      ensures log == old(log) + Attempts(old(batch) + old(queue), outcomes)
      ensures acts == [TakeStop] + Drains(|old(queue)|) + Passes(outcomes) + [EndBatch]
      ensures Snapshot() == RunFrom(old(Snapshot()), acts)
    {
      hide Step, RunFrom, Replay, Drains;
      ghost var before := Snapshot();
      StopTaken(before);
      phase := DrainTest;
      ghost var drain := Drain();
      RunAppend(before, [TakeStop], drain);
      acts := [TakeStop] + drain;
      if |batch| > 0 {
        ProcessBatch(outcomes);
        RunAppend(before, acts, Passes(outcomes));
        acts := acts + Passes(outcomes);
      } else {
        assert Attempts(old(batch) + old(queue), outcomes) == [] && Passes(outcomes) == [];
        assert acts + [] == acts;
      }
      StopStep(Snapshot());
      RunOne(before, acts, EndBatch);
      acts := acts + [EndBatch];
      phase := Stopped;
    }

    /** Close: signal the worker.  Waiting for it is the rest of the run. */
    method SignalClose()
      requires Valid() && !closed
      modifies this
      ensures Valid() && Snapshot() == Step(old(Snapshot()), Close) && done == old(done)
    {
      closed := true;
    }
  }
}
