/**
 First in, first tried: whatever fails and whenever retries wake up, the worker attempts the items in the order
 in which they were sent to the queue, and the log of its attempts says where every item has gone.
 */
module WriteBehindFifo {
  import opened Storage
  import opened WriteBehind

  /** What the requests and the retries have sent to the queue, in order. */
  function Sent(acts: seq<Action>): seq<Item> {
    if acts == [] then []
    else
      var before, last := acts[..|acts| - 1], acts[|acts| - 1];
      var s := Run(before);
      Sent(before) +
        if |s.queue| >= 10000 then []
        else
          match last
          case Enqueue(e) => [Item(|s.accepted|, e, 0)]
          case Wake(j) => if j < |s.sleeping| then [s.sleeping[j]] else []
          case _ => []
  }

  /** The retries among them. */
  function Woken(acts: seq<Action>): seq<Item> {
    if acts == [] then []
    else
      var before, last := acts[..|acts| - 1], acts[|acts| - 1];
      var s := Run(before);
      Woken(before) +
        if |s.queue| < 10000 && last.Wake? && last.j < |s.sleeping| then [s.sleeping[last.j]] else []
  }

  function Tried(log: seq<Attempt>): seq<Item> {
    seq(|log|, i requires 0 <= i < |log| => log[i].item)
  }

  /** The items whose last attempt succeeded. */
  function Taken(log: seq<Attempt>): seq<Item> {
    if log == [] then []
    else
      var last := log[|log| - 1];
      Taken(log[..|log| - 1]) + if last.outcome.Stored? then [last.item] else []
  }

  /** The items whose fourth attempt failed. */
  function Hopeless(log: seq<Attempt>): seq<Item> {
    if log == [] then []
    else
      var last := log[|log| - 1];
      Hopeless(log[..|log| - 1]) + if !last.outcome.Stored? && last.item.retry >= 3 then [last.item] else []
  }

  /** What the other failed attempts sent to sleep. */
  function Retried(log: seq<Attempt>): seq<Item> {
    if log == [] then []
    else
      var last := log[|log| - 1];
      Retried(log[..|log| - 1])
        + if !last.outcome.Stored? && last.item.retry < 3 then [last.item.(retry := last.item.retry + 1)] else []
  }

  /** The writes that reached a backend: those that bypassed the queue, and those of the attempts that the backend
      took or that landed although refused. */
  function Arrived(acts: seq<Action>): seq<Write> {
    if acts == [] then []
    else
      var before, last := acts[..|acts| - 1], acts[|acts| - 1];
      var was, now := Run(before).log, Run(acts).log;
      Arrived(before) +
        match last
        case DirectWrite(b, e) => [Write(b, e)]
        case Process(Stored(b)) => if |now| > |was| then [Write(b, now[|now| - 1].item.entry)] else []
        case Process(Refused(b, landed)) =>
          if |now| > |was| && landed then [Write(b, now[|now| - 1].item.entry)] else []
        case _ => []
  }

  /** The whole state, said of what was sent, woken and written, and of what was tried. */
  ghost predicate Told(s: Pipe, sent: seq<Item>, woken: seq<Item>, arrived: seq<Write>) {
    && Tried(s.log) + s.batch + s.queue == sent
    && s.delivered == Taken(s.log) && s.gaveUp == Hopeless(s.log)
    && multiset(s.sleeping) + multiset(woken) == multiset(Retried(s.log))
    && s.writes == arrived
  }

  function NowSent(s: Pipe, a: Action): seq<Item> {
    if |s.queue| >= 10000 then []
    else
      match a
      case Enqueue(e) => [Item(|s.accepted|, e, 0)]
      case Wake(j) => if j < |s.sleeping| then [s.sleeping[j]] else []
      case _ => []
  }

  function NowWoken(s: Pipe, a: Action): seq<Item> {
    if |s.queue| < 10000 && a.Wake? && a.j < |s.sleeping| then [s.sleeping[a.j]] else []
  }

  function NowArrived(s: Pipe, a: Action): seq<Write> {
    if !Enabled(s, a) then []
    else
      match a
      case DirectWrite(b, e) => [Write(b, e)]
      case Process(Stored(b)) => [Write(b, s.batch[0].entry)]
      case Process(Refused(b, landed)) => if landed then [Write(b, s.batch[0].entry)] else []
      case _ => []
  }

  lemma LogGrows(s: Pipe, a: Action)
    ensures Step(s, a).log == s.log + if a.Process? && Enabled(s, a) then [Attempt(s.batch[0], a.outcome)] else []
  {}

  lemma NextAct(acts: seq<Action>, a: Action)
    ensures Run(acts + [a]) == Step(Run(acts), a)
    ensures Sent(acts + [a]) == Sent(acts) + NowSent(Run(acts), a)
    ensures Woken(acts + [a]) == Woken(acts) + NowWoken(Run(acts), a)
    ensures Arrived(acts + [a]) == Arrived(acts) + NowArrived(Run(acts), a)
  {
    var all := acts + [a];
    assert all[..|all| - 1] == acts && all[|all| - 1] == a;
    RunOne(Init, acts, a);
    assert Run(all) == Step(Run(acts), a);
    hide RunFrom, Run, Step;
    LogGrows(Run(acts), a);
  }

  lemma LogSteps(log: seq<Attempt>, a: Attempt)
    ensures Tried(log + [a]) == Tried(log) + [a.item]
    ensures Taken(log + [a]) == Taken(log) + if a.outcome.Stored? then [a.item] else []
    ensures Hopeless(log + [a]) == Hopeless(log) + if !a.outcome.Stored? && a.item.retry >= 3 then [a.item] else []
    ensures Retried(log + [a]) == Retried(log)
              + if !a.outcome.Stored? && a.item.retry < 3 then [a.item.(retry := a.item.retry + 1)] else []
  {
    assert (log + [a])[..|log|] == log;
  }

  lemma HeadGoes(s: Pipe, o: Outcome)
    requires s.batch != []
    ensures var item, t := s.batch[0], ProcessHead(s, o);
      && t.batch == s.batch[1..] && t.queue == s.queue && t.log == s.log + [Attempt(item, o)]
      && t.delivered == s.delivered + (if o.Stored? then [item] else [])
      && t.gaveUp == s.gaveUp + (if !o.Stored? && item.retry >= 3 then [item] else [])
      && t.sleeping == s.sleeping
           + (if !o.Stored? && item.retry < 3 then [item.(retry := item.retry + 1)] else [])
      && t.writes == s.writes
           + (if o.Stored? || (o.Refused? && o.landed) then [Write(o.backend, item.entry)] else [])
  {
    assert s.delivered + [] == s.delivered && s.gaveUp + [] == s.gaveUp;
    assert s.sleeping + [] == s.sleeping && s.writes + [] == s.writes;
  }

  lemma TriedNext(tried: seq<Item>, batch: seq<Item>, queue: seq<Item>)
    requires batch != []
    ensures (tried + [batch[0]]) + batch[1..] + queue == tried + batch + queue
  {
    assert batch == [batch[0]] + batch[1..];
  }

  lemma BagNext(sleeping: seq<Item>, woken: seq<Item>, retried: seq<Item>, more: seq<Item>)
    requires multiset(sleeping) + multiset(woken) == multiset(retried)
    ensures multiset(sleeping + more) + multiset(woken) == multiset(retried + more)
  {}

  lemma ProcessTold(s: Pipe, o: Outcome, sent: seq<Item>, woken: seq<Item>, arrived: seq<Write>)
    requires Told(s, sent, woken, arrived) && s.batch != []
    ensures Told(ProcessHead(s, o), sent, woken,
                 arrived + if o.Stored? || (o.Refused? && o.landed) then [Write(o.backend, s.batch[0].entry)] else [])
  {
    var item, t, tried := s.batch[0], ProcessHead(s, o), Attempt(s.batch[0], o);
    var rest := if !o.Stored? && item.retry < 3 then [item.(retry := item.retry + 1)] else [];
    HeadGoes(s, o);
    LogSteps(s.log, tried);
    hide Tried, Taken, Hopeless, Retried, ProcessHead;
    assert t.delivered == Taken(t.log);
    assert t.gaveUp == Hopeless(t.log);
    assert t.sleeping == s.sleeping + rest && Retried(t.log) == Retried(s.log) + rest;
    BagNext(s.sleeping, woken, Retried(s.log), rest);
    assert Tried(t.log) + t.batch + t.queue == sent by {
      TriedNext(Tried(s.log), s.batch, s.queue);
    }
  }

  lemma TakeTold(s: Pipe, a: Action, sent: seq<Item>, woken: seq<Item>, arrived: seq<Write>)
    requires Told(s, sent, woken, arrived) && Enabled(s, a) && (a.Receive? || a.DrainOne?)
    ensures Told(Step(s, a), sent, woken, arrived)
  {
    hide Tried, Taken, Hopeless, Retried;
    assert Tried(s.log) + s.batch + s.queue == Tried(s.log) + (s.batch + [s.queue[0]]) + s.queue[1..];
  }

  lemma WakeTold(s: Pipe, j: nat, sent: seq<Item>, woken: seq<Item>, arrived: seq<Write>)
    requires Told(s, sent, woken, arrived) && Enabled(s, Wake(j))
    ensures Told(Step(s, Wake(j)), sent + [s.sleeping[j]], woken + [s.sleeping[j]], arrived)
  {
    hide Tried, Taken, Hopeless, Retried;
    assert s.sleeping == s.sleeping[..j] + [s.sleeping[j]] + s.sleeping[j + 1..];
    assert Tried(s.log) + s.batch + (s.queue + [s.sleeping[j]]) == sent + [s.sleeping[j]];
  }

  lemma EnqueueTold(s: Pipe, e: Entry, sent: seq<Item>, woken: seq<Item>, arrived: seq<Write>)
    requires Told(s, sent, woken, arrived) && Enabled(s, Enqueue(e))
    ensures Told(Step(s, Enqueue(e)), sent + [Item(|s.accepted|, e, 0)], woken, arrived)
  {
    hide Tried, Taken, Hopeless, Retried;
    var item := Item(|s.accepted|, e, 0);
    assert Tried(s.log) + s.batch + (s.queue + [item]) == sent + [item];
  }

  lemma WriteTold(s: Pipe, b: string, e: Entry, sent: seq<Item>, woken: seq<Item>, arrived: seq<Write>)
    requires Told(s, sent, woken, arrived)
    ensures Told(Step(s, DirectWrite(b, e)), sent, woken, arrived + [Write(b, e)])
  {
    hide Tried, Taken, Hopeless, Retried;
  }

  lemma TurnTold(s: Pipe, a: Action, sent: seq<Item>, woken: seq<Item>, arrived: seq<Write>)
    requires Told(s, sent, woken, arrived) && (a.Tick? || a.EndBatch? || a.Close? || a.TakeStop? || a.TestQueue?)
    ensures Told(Step(s, a), sent, woken, arrived)
  {
    hide Tried, Taken, Hopeless, Retried;
  }

  lemma StepTold(s: Pipe, a: Action, sent: seq<Item>, woken: seq<Item>, arrived: seq<Write>)
    requires Told(s, sent, woken, arrived)
    ensures Told(Step(s, a), sent + NowSent(s, a), woken + NowWoken(s, a), arrived + NowArrived(s, a))
  {
    hide Told, ProcessHead;
    assert sent + [] == sent && woken + [] == woken && arrived + [] == arrived;
    if Enabled(s, a) {
      match a
      case Enqueue(e) => EnqueueTold(s, e, sent, woken, arrived);
      case Wake(j) => WakeTold(s, j, sent, woken, arrived);
      case DirectWrite(b, e) => WriteTold(s, b, e, sent, woken, arrived);
      case Process(o) => ProcessTold(s, o, sent, woken, arrived);
      case Receive => TakeTold(s, a, sent, woken, arrived);
      case DrainOne => TakeTold(s, a, sent, woken, arrived);
      case _ => TurnTold(s, a, sent, woken, arrived);
    }
  }

  lemma NextTold(acts: seq<Action>, a: Action)
    requires Told(Run(acts), Sent(acts), Woken(acts), Arrived(acts))
    ensures Told(Run(acts + [a]), Sent(acts + [a]), Woken(acts + [a]), Arrived(acts + [a]))
  {
    hide *;
    NextAct(acts, a);
    StepTold(Run(acts), a, Sent(acts), Woken(acts), Arrived(acts));
  }

  lemma StartTold()
    ensures Told(Run([]), Sent([]), Woken([]), Arrived([]))
  {
    assert Tried([]) == [];
  }

  lemma {:induction false} RunTold(acts: seq<Action>)
    ensures Told(Run(acts), Sent(acts), Woken(acts), Arrived(acts))
  {
    hide *;
    if acts == [] {
      StartTold();
    } else {
      var before, last := acts[..|acts| - 1], acts[|acts| - 1];
      RunTold(before);
      NextTold(before, last);
      assert before + [last] == acts;
    }
  }

  /** In every interleaving: the items tried, then those in the batch, then those in the queue, are the items sent to
      the queue in their order; what was delivered, given up, asleep or written is what the attempts made it. */
  lemma FirstInFirstTried(acts: seq<Action>)
    ensures var s := Run(acts);
      && Tried(s.log) + s.batch + s.queue == Sent(acts)
      && s.delivered == Taken(s.log) && s.gaveUp == Hopeless(s.log)
      && multiset(s.sleeping) + multiset(Woken(acts)) == multiset(Retried(s.log))
      && s.writes == Arrived(acts)
  {
    RunTold(acts);
  }
}
