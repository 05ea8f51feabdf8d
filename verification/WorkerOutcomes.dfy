/** The write-behind worker inside the service: what it may attempt under the view of the moment, and what its
    attempts leave in the backends. */
module WorkerOutcomes {
  import opened Storage
  import opened Routing
  import opened CacheService
  import WB = WriteBehind

  /** The router, asked without a hint, can give the attempt this end: no backend only while none is healthy, and
      else one that it may name for the key, which takes the write or refuses it. */
  ghost predicate Routable(v: View, key: string, o: WB.Outcome) {
    match o
    case NoBackend => v.healthy == map[]
    case Refused(b, _) => CanWrite(v, key, "", Some(b))
    case Stored(b) => CanWrite(v, key, "", Some(b))
  }

  /** A step of the worker makes an attempt exactly when it is in a pass with an item left and the router can give
      the attempt this end; the attempt is on the first item left. */
  lemma AttemptsIff(cfg: Config, s: Service, w: WB.Action)
    ensures var t := Step(cfg, s, Worker(w));
      if w.Process? && (s.pipe.phase.Processing? || s.pipe.phase.Finishing?) && s.pipe.batch != []
         && Routable(s.view, s.pipe.batch[0].entry.key, w.outcome)
      then t.pipe.log == s.pipe.log + [WB.Attempt(s.pipe.batch[0], w.outcome)]
      else t.pipe.log == s.pipe.log
  {
    if w.Process? && s.pipe.batch != [] {
      ResolvedIsHealthy(s.view, s.pipe.batch[0].entry.key, "");
    }
    hide CanRead, Resolve;
  }

  /** What a step of the worker changes in the backends is exactly the writes that arrive by it. */
  lemma WritesArrive(cfg: Config, s: Service, w: WB.Action)
    ensures var t := Step(cfg, s, Worker(w));
      && s.pipe.writes <= t.pipe.writes
      && t.cells == Replay(s.cells, t.pipe.writes[|s.pipe.writes|..])
  {
    hide CanWrite, CanRead;
    var t := Step(cfg, s, Worker(w));
    var more := t.pipe.writes[|s.pipe.writes|..];
    if WorkerMay(s, w) && Lands(s, w) {
      var write := Write(w.outcome.backend, s.pipe.batch[0].entry);
      assert t.pipe.writes == s.pipe.writes + [write];
      assert more == [write];
      ReplayAppend(s.cells, [], write);
      assert [] + [write] == [write];
    } else {
      assert t.pipe.writes == s.pipe.writes;
      assert more == [];
    }
  }

  /** Receiving, waking up, the end of a pass, the tick and the drain are the pipeline's own steps, and offering to the
      queue or passing it by is not the worker's. */
  lemma OtherSteps(cfg: Config, s: Service, w: WB.Action)
    requires !w.Process?
    ensures Step(cfg, s, Worker(w))
         == if w.Enqueue? || w.DirectWrite? then s else s.(pipe := WB.Step(s.pipe, w))
  {
    hide CanWrite, CanRead, WB.Step;
  }
}
