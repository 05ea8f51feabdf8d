/**
 Write-behind against write-through: where no attempt fails, the pipeline delivers in the order of
 acceptance and leaves the backends as writing through the same entries in order would.
 Stated for any set of keys, so that failures and bypassing writes on other keys do not matter.
 */
module WriteBehindOrder {
  import opened Storage
  import opened WriteBehind

  /** A set of keys, as its membership test. */
  type Keys = string -> bool

  const ALL: Keys := _ => true

  function Entries(xs: seq<Item>): seq<Entry> {
    if xs == [] then [] else [xs[0].entry] + Entries(xs[1..])
  }

  function On(es: seq<Entry>, p: Keys): seq<Entry> {
    if es == [] then [] else (if p(es[0].key) then [es[0]] else []) + On(es[1..], p)
  }

  function ItemsOn(xs: seq<Item>, p: Keys): seq<Entry> {
    On(Entries(xs), p)
  }

  /** Synchronous writing: each entry goes, in order, to the backend its key is routed to. */
  function WriteThrough(init: Cells, es: seq<Entry>, route: string -> string): Cells {
    if es == [] then init
    else
      var last := es[|es| - 1];
      WriteThrough(init, es[..|es| - 1], route)[(route(last.key), last.key) := last.value]
  }

  lemma {:induction false} EntriesConcat(xs: seq<Item>, ys: seq<Item>)
    ensures Entries(xs + ys) == Entries(xs) + Entries(ys)
  {
    if xs == [] {
      assert xs + ys == ys;
    } else {
      var all := xs + ys;
      assert all[0] == xs[0] && all[1..] == xs[1..] + ys;
      EntriesConcat(xs[1..], ys);
    }
  }

  lemma {:induction false} OnConcat(es: seq<Entry>, fs: seq<Entry>, p: Keys)
    ensures On(es + fs, p) == On(es, p) + On(fs, p)
  {
    if es == [] {
      assert es + fs == fs;
    } else {
      var all := es + fs;
      assert all[0] == es[0] && all[1..] == es[1..] + fs;
      OnConcat(es[1..], fs, p);
      var head := if p(es[0].key) then [es[0]] else [];
      assert head + (On(es[1..], p) + On(fs, p)) == (head + On(es[1..], p)) + On(fs, p);
    }
  }

  lemma ItemsOnAppend(xs: seq<Item>, x: Item, p: Keys)
    ensures ItemsOn(xs + [x], p) == ItemsOn(xs, p) + if p(x.entry.key) then [x.entry] else []
  {
    EntriesConcat(xs, [x]);
    assert Entries([x]) == [x.entry];
    OnConcat(Entries(xs), [x.entry], p);
    assert On([x.entry], p) == if p(x.entry.key) then [x.entry] else [];
  }

  lemma ItemsOnHead(xs: seq<Item>, p: Keys)
    requires xs != []
    ensures ItemsOn(xs, p) == (if p(xs[0].entry.key) then [xs[0].entry] else []) + ItemsOn(xs[1..], p)
  {
    assert Entries(xs) == [xs[0].entry] + Entries(xs[1..]);
    assert Entries(xs)[1..] == Entries(xs[1..]);
  }

  lemma ItemsOnConcat(xs: seq<Item>, ys: seq<Item>, p: Keys)
    ensures ItemsOn(xs + ys, p) == ItemsOn(xs, p) + ItemsOn(ys, p)
  {
    EntriesConcat(xs, ys);
    OnConcat(Entries(xs), Entries(ys), p);
  }

  lemma {:induction false} OnAll(es: seq<Entry>)
    ensures On(es, ALL) == es
  {
    if es != [] {
      OnAll(es[1..]);
      assert es == [es[0]] + es[1..];
    }
  }

  lemma WriteThroughAppend(init: Cells, es: seq<Entry>, e: Entry, route: string -> string)
    ensures WriteThrough(init, es + [e], route)
         == WriteThrough(init, es, route)[(route(e.key), e.key) := e.value]
  {
    assert (es + [e])[..|es|] == es;
  }

  lemma OnAppend(es: seq<Entry>, e: Entry, p: Keys)
    ensures On(es + [e], p) == if p(e.key) then On(es, p) + [e] else On(es, p)
  {
    OnConcat(es, [e], p);
    assert On([e], p) == if p(e.key) then [e] else [];
    assert On(es, p) + [] == On(es, p);
  }

  lemma WriteThroughOnNext(
    init: Cells, es: seq<Entry>, e: Entry, p: Keys, route: string -> string, b: string, k: string)
    requires p(k)
    requires Lookup(WriteThrough(init, es, route), b, k) == Lookup(WriteThrough(init, On(es, p), route), b, k)
    ensures Lookup(WriteThrough(init, es + [e], route), b, k)
         == Lookup(WriteThrough(init, On(es + [e], p), route), b, k)
  {
    hide On, WriteThrough;
    OnAppend(es, e, p);
    WriteThroughAppend(init, es, e, route);
    if p(e.key) {
      WriteThroughAppend(init, On(es, p), e, route);
    } else {
      assert e.key != k;
    }
  }

  /** The cells of the keys in p depend only on the entries of the keys in p. */
  lemma {:induction false} WriteThroughOn(
    init: Cells, es: seq<Entry>, p: Keys, route: string -> string, b: string, k: string)
    requires p(k)
    ensures Lookup(WriteThrough(init, es, route), b, k) == Lookup(WriteThrough(init, On(es, p), route), b, k)
  {
    if es == [] {
    } else {
      hide On, WriteThrough, Lookup;
      var before, last := es[..|es| - 1], es[|es| - 1];
      WriteThroughOn(init, before, p, route, b, k);
      WriteThroughOnNext(init, before, last, p, route, b, k);
      assert es == before + [last];
    }
  }

  // ----- The invariant -----

  /** Every attempt on a key of p so far was taken by the backend the key is routed to. */
  predicate Clean(log: seq<Attempt>, p: Keys, route: string -> string) {
    forall i | 0 <= i < |log| ::
      p(log[i].item.entry.key) ==> log[i].outcome == Stored(route(log[i].item.entry.key))
  }

  /** No request writes a key of p around the queue. */
  predicate NoBypass(acts: seq<Action>, p: Keys) {
    forall i | 0 <= i < |acts| :: acts[i].DirectWrite? ==> !p(acts[i].written.key)
  }

  predicate InOrder(s: Pipe, p: Keys) {
    && ItemsOn(s.delivered, p) + ItemsOn(s.batch, p) + ItemsOn(s.queue, p) == On(s.accepted, p)
    && ItemsOn(s.sleeping, p) == []
    && ItemsOn(s.gaveUp, p) == []
  }

  /** The backends hold, on the keys of p, what writing the delivered entries through leaves. */
  ghost predicate Mirrors(s: Pipe, init: Cells, p: Keys, route: string -> string) {
    forall b, k | p(k) ::
      Lookup(Replay(init, s.writes), b, k)
        == Lookup(WriteThrough(init, ItemsOn(s.delivered, p), route), b, k)
  }

  lemma ProcessInOrder(s: Pipe, o: Outcome, p: Keys)
    requires s.batch != [] && InOrder(s, p)
    requires p(s.batch[0].entry.key) ==> o.Stored?
    ensures InOrder(ProcessHead(s, o), p)
  {
    hide ItemsOn, On;
    var item := s.batch[0];
    var head := if p(item.entry.key) then [item.entry] else [];
    ItemsOnHead(s.batch, p);
    if o.Stored? {
      ItemsOnAppend(s.delivered, item, p);
      Regroup(ItemsOn(s.delivered, p), head, ItemsOn(s.batch[1..], p), ItemsOn(s.queue, p));
    } else {
      ItemsOnAppend(s.sleeping, item.(retry := item.retry + 1), p);
      ItemsOnAppend(s.gaveUp, item, p);
      assert [] + ItemsOn(s.batch[1..], p) == ItemsOn(s.batch[1..], p);
    }
  }

  lemma Regroup(a: seq<Entry>, b: seq<Entry>, c: seq<Entry>, d: seq<Entry>)
    ensures a + (b + c) + d == (a + b) + c + d
  {}

  lemma TakeInOrder(s: Pipe, p: Keys)
    requires s.queue != []
    ensures ItemsOn(s.batch + [s.queue[0]], p) + ItemsOn(s.queue[1..], p)
         == ItemsOn(s.batch, p) + ItemsOn(s.queue, p)
  {
    hide ItemsOn;
    ItemsOnAppend(s.batch, s.queue[0], p);
    ItemsOnHead(s.queue, p);
    var head := if p(s.queue[0].entry.key) then [s.queue[0].entry] else [];
    Regroup(ItemsOn(s.batch, p), head, ItemsOn(s.queue[1..], p), []);
    var rest := ItemsOn(s.queue[1..], p);
    assert (ItemsOn(s.batch, p) + head) + rest == ItemsOn(s.batch, p) + (head + rest);
  }

  lemma WakeInOrder(s: Pipe, j: nat, p: Keys)
    requires j < |s.sleeping| && ItemsOn(s.sleeping, p) == []
    ensures ItemsOn(s.queue + [s.sleeping[j]], p) == ItemsOn(s.queue, p)
    ensures ItemsOn(s.sleeping[..j] + s.sleeping[j + 1..], p) == []
  {
    var x := s.sleeping[j];
    assert s.sleeping == s.sleeping[..j] + ([x] + s.sleeping[j + 1..]);
    ItemsOnConcat(s.sleeping[..j], [x] + s.sleeping[j + 1..], p);
    ItemsOnHead([x] + s.sleeping[j + 1..], p);
    assert ([x] + s.sleeping[j + 1..])[1..] == s.sleeping[j + 1..];
    ItemsOnConcat(s.sleeping[..j], s.sleeping[j + 1..], p);
    ItemsOnAppend(s.queue, x, p);
  }

  lemma EnqueueInOrder(s: Pipe, e: Entry, p: Keys)
    requires InOrder(s, p) && Enabled(s, Enqueue(e))
    ensures InOrder(Step(s, Enqueue(e)), p)
  {
    ItemsOnAppend(s.queue, Item(|s.accepted|, e, 0), p);
    OnConcat(s.accepted, [e], p);
    assert On([e], p) == if p(e.key) then [e] else [];
  }

  lemma StepInOrder(s: Pipe, a: Action, p: Keys)
    requires InOrder(s, p)
    requires a.Process? && Enabled(s, a) && p(s.batch[0].entry.key) ==> a.outcome.Stored?
    ensures InOrder(Step(s, a), p)
  {
    hide ItemsOn, ProcessHead, On;
    if Enabled(s, a) {
      match a
      case Enqueue(e) => EnqueueInOrder(s, e, p);
      case Receive => TakeInOrder(s, p);
        TakeKeeps(ItemsOn(s.delivered, p), ItemsOn(s.batch, p), ItemsOn(s.queue, p),
                  ItemsOn(s.batch + [s.queue[0]], p), ItemsOn(s.queue[1..], p));
      case DrainOne => TakeInOrder(s, p);
        TakeKeeps(ItemsOn(s.delivered, p), ItemsOn(s.batch, p), ItemsOn(s.queue, p),
                  ItemsOn(s.batch + [s.queue[0]], p), ItemsOn(s.queue[1..], p));
      case Process(o) => ProcessInOrder(s, o, p);
      case Wake(j) => WakeInOrder(s, j, p);
      case _ =>
    }
  }

  lemma TakeKeeps(a: seq<Entry>, b: seq<Entry>, c: seq<Entry>, b': seq<Entry>, c': seq<Entry>)
    requires b + c == b' + c'
    ensures a + b + c == a + b' + c'
  {
    assert a + b + c == a + (b + c);
    assert a + b' + c' == a + (b' + c');
  }

  lemma ProcessMirrors(s: Pipe, o: Outcome, init: Cells, p: Keys, route: string -> string)
    requires s.batch != [] && Mirrors(s, init, p, route)
    requires var k := s.batch[0].entry.key; p(k) ==> o == Stored(route(k))
    ensures Mirrors(ProcessHead(s, o), init, p, route)
  {
    hide ItemsOn, Replay, WriteThrough;
    var e := s.batch[0].entry;
    var t := ProcessHead(s, o);
    var was, now := Replay(init, s.writes), Replay(init, t.writes);
    var before, after := ItemsOn(s.delivered, p), ItemsOn(t.delivered, p);
    if !o.NoBackend? {
      ReplayAppend(init, s.writes, Write(o.backend, e));
    }
    if p(e.key) {
      assert o == Stored(route(e.key));
      ItemsOnAppend(s.delivered, s.batch[0], p);
      assert after == before + [e];
      WriteThroughAppend(init, before, e, route);
    } else {
      AttemptOutside(s, o, p);
    }
    forall b, k | p(k)
      ensures Lookup(now, b, k) == Lookup(WriteThrough(init, after, route), b, k)
    {
      assert Lookup(was, b, k) == Lookup(WriteThrough(init, before, route), b, k);
    }
  }

  lemma AttemptOutside(s: Pipe, o: Outcome, p: Keys)
    requires s.batch != [] && !p(s.batch[0].entry.key)
    ensures ItemsOn(ProcessHead(s, o).delivered, p) == ItemsOn(s.delivered, p)
  {
    if o.Stored? {
      ItemsOnAppend(s.delivered, s.batch[0], p);
      assert ItemsOn(s.delivered, p) + [] == ItemsOn(s.delivered, p);
    }
  }

  lemma StepMirrors(s: Pipe, a: Action, init: Cells, p: Keys, route: string -> string)
    requires Mirrors(s, init, p, route)
    requires a.Process? && Enabled(s, a) ==>
               var k := s.batch[0].entry.key; p(k) ==> a.outcome == Stored(route(k))
    requires a.DirectWrite? ==> !p(a.written.key)
    ensures Mirrors(Step(s, a), init, p, route)
  {
    hide ItemsOn, ProcessHead, Replay, WriteThrough;
    if Enabled(s, a) {
      match a
      case Process(o) => ProcessMirrors(s, o, init, p, route);
      case DirectWrite(b, e) => ReplayAppend(init, s.writes, Write(b, e));
      case _ =>
    }
  }

  lemma LogGrows(s: Pipe, a: Action)
    ensures s.log <= Step(s, a).log
    ensures a.Process? && Enabled(s, a) ==> Step(s, a).log == s.log + [Attempt(s.batch[0], a.outcome)]
  {}

  lemma {:induction false} RunInOrder(acts: seq<Action>, init: Cells, p: Keys, route: string -> string)
    requires Clean(Run(acts).log, p, route) && NoBypass(acts, p)
    ensures InOrder(Run(acts), p) && Mirrors(Run(acts), init, p, route)
  {
    if acts == [] {
    } else {
      hide Step, InOrder, Mirrors;
      var before := acts[..|acts| - 1];
      var last := acts[|acts| - 1];
      var s := Run(before);
      LogGrows(s, last);
      var log := Run(acts).log;
      assert forall i | 0 <= i < |s.log| :: s.log[i] == log[i];
      assert last.Process? && Enabled(s, last) ==> log[|s.log|] == Attempt(s.batch[0], last.outcome);
      RunInOrder(before, init, p, route);
      StepInOrder(s, last, p);
      StepMirrors(s, last, init, p, route);
    }
  }

  // ----- The refinement -----

  /** For any set of keys none of whose attempts failed and none of which was written around the
      queue: deliveries follow the order of acceptance, and once these keys have drained every
      backend holds on them exactly what write-through of the accepted entries leaves. */
  lemma KeysRefineWriteThrough(acts: seq<Action>, init: Cells, p: Keys, route: string -> string)
    requires Clean(Run(acts).log, p, route) && NoBypass(acts, p)
    ensures var s := Run(acts);
      && ItemsOn(s.delivered, p) + ItemsOn(s.batch, p) + ItemsOn(s.queue, p) == On(s.accepted, p)
      && (ItemsOn(s.batch, p) == [] && ItemsOn(s.queue, p) == [] ==>
            forall b, k | p(k) :: Lookup(Replay(init, s.writes), b, k)
                               == Lookup(WriteThrough(init, s.accepted, route), b, k))
  {
    var s := Run(acts);
    RunInOrder(acts, init, p, route);
    if ItemsOn(s.batch, p) == [] && ItemsOn(s.queue, p) == [] {
      assert ItemsOn(s.delivered, p) == On(s.accepted, p);
      forall b, k | p(k)
        ensures Lookup(Replay(init, s.writes), b, k) == Lookup(WriteThrough(init, s.accepted, route), b, k)
      {
        WriteThroughOn(init, s.accepted, p, route, b, k);
      }
    }
  }

  lemma SameLookups(m: Cells, n: Cells)
    requires forall b, k :: Lookup(m, b, k) == Lookup(n, b, k)
    ensures m == n
  {
    forall c: (string, string) ensures c in m <==> c in n {
      assert Lookup(m, c.0, c.1) == Lookup(n, c.0, c.1);
    }
    forall c: (string, string) | c in m ensures m[c] == n[c] {
      assert Lookup(m, c.0, c.1) == Lookup(n, c.0, c.1);
    }
  }

  /** A whole run without failures or bypassing writes: the delivered entries, the unprocessed batch
      and the queue are the accepted sequence, and a drained pipeline left the backends exactly as
      write-through would. */
  lemma RunRefinesWriteThrough(acts: seq<Action>, init: Cells, route: string -> string)
    requires Clean(Run(acts).log, ALL, route) && NoBypass(acts, ALL)
    ensures var s := Run(acts);
      && Entries(s.delivered) + Entries(s.batch) + Entries(s.queue) == s.accepted
      && s.sleeping == [] && s.gaveUp == []
      && (s.batch == [] && s.queue == [] ==> Replay(init, s.writes) == WriteThrough(init, s.accepted, route))
  {
    var p := ALL;
    var s := Run(acts);
    RunInOrder(acts, init, p, route);
    OnAll(Entries(s.delivered));
    OnAll(Entries(s.batch));
    OnAll(Entries(s.queue));
    OnAll(Entries(s.sleeping));
    OnAll(Entries(s.gaveUp));
    OnAll(s.accepted);
    EmptyEntries(s.sleeping);
    EmptyEntries(s.gaveUp);
    if s.batch == [] && s.queue == [] {
      KeysRefineWriteThrough(acts, init, p, route);
      SameLookups(Replay(init, s.writes), WriteThrough(init, s.accepted, route));
    }
  }

  lemma EmptyEntries(xs: seq<Item>)
    requires Entries(xs) == []
    ensures xs == []
  {}
}
