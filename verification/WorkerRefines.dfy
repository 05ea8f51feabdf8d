/** The write-behind object against write-through: a worker filled, closed and drained without failures. */
module WorkerRefines {
  import opened Storage
  import opened WriteBehind
  import opened WriteBehindOrder
  import opened WriteBehindWorker

  function Items(es: seq<Entry>): seq<Item> {
    seq(|es|, i requires 0 <= i < |es| => Item(i, es[i], 0))
  }

  function Outcomes(es: seq<Entry>, route: string -> string): seq<Outcome> {
    seq(|es|, i requires 0 <= i < |es| => Stored(route(es[i].key)))
  }

  function Filled(es: seq<Entry>): Pipe {
    Init.(accepted := es, queue := Items(es))
  }

  lemma FilledStep(es: seq<Entry>, k: nat)
    requires k < |es| <= QUEUE_CAPACITY
    ensures Step(Filled(es[..k]), Enqueue(es[k])) == Filled(es[..k + 1])
  {
    assert es[..k] + [es[k]] == es[..k + 1];
    assert Items(es[..k]) + [Item(k, es[k], 0)] == Items(es[..k + 1]);
  }

  /** A request per entry, none of which finds the queue full. */
  method EnqueueAll(w: Worker, es: seq<Entry>) returns (ghost acts: seq<Action>)
    requires w.Valid() && w.Snapshot() == Init && w.done == 0 && |es| <= QUEUE_CAPACITY
    modifies w
    ensures w.Valid() && w.done == 0 && w.Snapshot() == Filled(es) == Run(acts)
    ensures NoBypass(acts, ALL)
  {
    hide Step, RunFrom;
    acts := [];
    NoSteps(Init);
    assert es[..0] == [] && Items([]) == [];
    for k := 0 to |es|
      invariant w.Valid() && w.done == 0 && w.Snapshot() == Filled(es[..k]) == Run(acts)
      invariant NoBypass(acts, ALL)
    {
      FilledStep(es, k);
      RunOne(Init, acts, Enqueue(es[k]));
      acts := acts + [Enqueue(es[k])];
      var queued := w.TryEnqueue(es[k]);
    }
    assert es[..|es|] == es;
  }

  /** Entries that a fresh worker accepts, and attempts without a failure when it is closed, leave its
      backends as writing them through in order would. */
  method FillAndClose(w: Worker, es: seq<Entry>, route: string -> string)
    requires w.Valid() && w.Snapshot() == Init && w.done == 0 && |es| <= QUEUE_CAPACITY
    modifies w
    ensures w.Valid() && w.phase.Stopped?
    ensures w.cells == WriteThrough(w.initial, es, route)
  {
    hide Step, RunFrom, Replay, WriteThrough, Drains, NoBypass, OwnSteps, Clean;
    ghost var acts := EnqueueAll(w, es);
    ghost var filled := w.Snapshot();
    w.SignalClose();
    ClosingEffect(es);
    var outcomes := Outcomes(es, route);
    ghost var more := w.OnStop(outcomes);
    ghost var all := ClosedRun(acts, more, filled, es);
    WorkerActsAlone(|es|, outcomes);
    OwnStepsAccept(Filled(es).(closed := true), more);
    OwnBypassesNothing(acts, more);
    CleanAttempts(es, route);
    RunRefinesWriteThrough(all, w.initial, route);
  }

  lemma ClosingEffect(es: seq<Entry>)
    ensures Step(Filled(es), Close) == Filled(es).(closed := true)
  {}

  lemma ClosedRun(acts: seq<Action>, more: seq<Action>, filled: Pipe, es: seq<Entry>) returns (all: seq<Action>)
    requires filled == Filled(es) == Run(acts)
    ensures all == acts + [Close] + more && Run(all) == RunFrom(Filled(es).(closed := true), more)
  {
    hide Step, RunFrom;
    all := acts + [Close] + more;
    RunOne(Init, acts, Close);
    ClosingEffect(es);
    RunAppend(Init, acts + [Close], more);
  }

  lemma OwnBypassesNothing(acts: seq<Action>, more: seq<Action>)
    requires NoBypass(acts, ALL) && OwnSteps(more)
    ensures NoBypass(acts + [Close] + more, ALL)
  {
    var all := acts + [Close] + more;
    forall i | 0 <= i < |all| ensures !all[i].DirectWrite? {
      if i > |acts| {
        assert all[i] == more[i - |acts| - 1];
      } else if i < |acts| {
        assert all[i] == acts[i];
      }
    }
  }

  lemma CleanAttempts(es: seq<Entry>, route: string -> string)
    ensures Clean([] + Attempts([] + Items(es), Outcomes(es, route)), ALL, route)
  {}
}
