/**
 The in-memory store under concurrent requests.  Set raises the version and then writes the cache,
 Get reads the cache and then the version, each step under its own lock; the cache may apply a write
 late, drop it, or expire it.  A ghost ticket records which increment a value belongs to.
 */
module VersionedReads {
  import opened Storage

  datatype Stamped = Stamped(value: Bytes, ticket: nat)

  /** What a Get answered, with the ticket of the value. */
  datatype Answer = Answer(key: string, stamped: Stamped, version: nat)

  datatype Mem = Mem(
    versions: map<string, nat>,
    cells: map<string, Stamped>,
    setting: map<nat, (string, Stamped)>,   // Sets between increment and cache write
    buffered: seq<(string, Stamped)>,       // cache writes not applied yet
    getting: map<nat, (string, Stamped)>,   // Gets between cache read and version read
    answers: seq<Answer>)

  datatype Action =
    | Increment(setter: nat, key: string, value: Bytes)
    | Submit(setter: nat, refused: bool)
    | ApplyWrite(j: nat)
    | DropWrite(j: nat)
    | Expire(key: string)
    | ReadCell(getter: nat, key: string)
    | ReadVersion(getter: nat)
    | DeleteCell(key: string)
    | DeleteVersion(key: string)

  const Init := Mem(map[], map[], map[], [], map[], [])

  function VersionOf(m: Mem, key: string): nat {
    if key in m.versions then m.versions[key] else 0
  }

  function Without<T>(xs: seq<T>, j: nat): seq<T>
    requires j < |xs|
  {
    xs[..j] + xs[j + 1..]
  }

  function Step(m: Mem, a: Action): Mem {
    match a
    case Increment(i, k, v) =>
      if i in m.setting then m
      else
        var ticket := VersionOf(m, k) + 1;
        m.(versions := m.versions[k := ticket], setting := m.setting[i := (k, Stamped(v, ticket))])
    case Submit(i, refused) =>
      if i !in m.setting then m
      else
        var done := m.(setting := m.setting - {i});
        if refused then done else done.(buffered := m.buffered + [m.setting[i]])
    case ApplyWrite(j) =>
      if j >= |m.buffered| then m
      else m.(cells := m.cells[m.buffered[j].0 := m.buffered[j].1], buffered := Without(m.buffered, j))
    case DropWrite(j) =>
      if j >= |m.buffered| then m else m.(buffered := Without(m.buffered, j))
    case Expire(k) => m.(cells := m.cells - {k})
    case ReadCell(i, k) =>
      if i in m.getting || k !in m.cells then m
      else m.(getting := m.getting[i := (k, m.cells[k])])
    case ReadVersion(i) =>
      if i !in m.getting then m
      else
        var (k, stamped) := m.getting[i];
        m.(getting := m.getting - {i}, answers := m.answers + [Answer(k, stamped, VersionOf(m, k))])
    case DeleteCell(k) => m.(cells := m.cells - {k})
    case DeleteVersion(k) => m.(versions := m.versions - {k})
  }

  function Run(acts: seq<Action>): Mem {
    if acts == [] then Init else Step(Run(acts[..|acts| - 1]), acts[|acts| - 1])
  }

  /** No answer for k has a version below its value's ticket, and versions never fall. */
  ghost predicate Sound(answers: seq<Answer>, k: string) {
    && (forall i | 0 <= i < |answers| && answers[i].key == k :: answers[i].stamped.ticket <= answers[i].version)
    && (forall i, j | 0 <= i < j < |answers| && answers[i].key == k && answers[j].key == k ::
          answers[i].version <= answers[j].version)
  }

  /** Every ticket of k on its way into or out of the cache is at most the current version. */
  ghost predicate TicketsBelow(m: Mem, k: string) {
    var version := VersionOf(m, k);
    && (k in m.cells ==> m.cells[k].ticket <= version)
    && (forall i | i in m.setting && m.setting[i].0 == k :: m.setting[i].1.ticket <= version)
    && (forall x | x in m.buffered && x.0 == k :: x.1.ticket <= version)
    && (forall i | i in m.getting && m.getting[i].0 == k :: m.getting[i].1.ticket <= version)
    && (forall i | 0 <= i < |m.answers| && m.answers[i].key == k :: m.answers[i].version <= version)
  }

  predicate Deletes(acts: seq<Action>, k: string) {
    DeleteVersion(k) in acts
  }

  lemma IncrementSound(m: Mem, i: nat, key: string, v: Bytes, k: string)
    requires TicketsBelow(m, k) && Sound(m.answers, k)
    ensures TicketsBelow(Step(m, Increment(i, key, v)), k)
  {
    var t := Step(m, Increment(i, key, v));
    assert VersionOf(m, k) <= VersionOf(t, k);
  }

  lemma SubmitSound(m: Mem, i: nat, refused: bool, k: string)
    requires TicketsBelow(m, k)
    ensures TicketsBelow(Step(m, Submit(i, refused)), k)
  {
    var t := Step(m, Submit(i, refused));
    assert forall x | x in t.buffered :: x in m.buffered || (i in m.setting && x == m.setting[i]);
  }

  /** Applying or dropping a buffered write moves no ticket that was not there. */
  lemma UnbufferSound(m: Mem, j: nat, applied: bool, k: string)
    requires TicketsBelow(m, k)
    ensures TicketsBelow(Step(m, if applied then ApplyWrite(j) else DropWrite(j)), k)
  {
    if j < |m.buffered| {
      assert m.buffered[j] in m.buffered;
      assert forall x | x in Without(m.buffered, j) :: x in m.buffered;
    }
  }

  lemma ReadVersionSound(m: Mem, i: nat, k: string)
    requires TicketsBelow(m, k) && Sound(m.answers, k)
    ensures TicketsBelow(Step(m, ReadVersion(i)), k) && Sound(Step(m, ReadVersion(i)).answers, k)
  {
    var t := Step(m, ReadVersion(i));
    assert forall n | 0 <= n < |m.answers| :: t.answers[n] == m.answers[n];
  }

  lemma StepSound(m: Mem, a: Action, k: string)
    requires TicketsBelow(m, k) && Sound(m.answers, k) && a != DeleteVersion(k)
    ensures TicketsBelow(Step(m, a), k) && Sound(Step(m, a).answers, k)
  {
    hide TicketsBelow, Sound, Step;
    match a
    case Increment(i, key, v) => IncrementSound(m, i, key, v, k); KeepsAnswers(m, a);
    case Submit(i, refused) => SubmitSound(m, i, refused, k); KeepsAnswers(m, a);
    case ApplyWrite(j) => UnbufferSound(m, j, true, k); KeepsAnswers(m, a);
    case DropWrite(j) => UnbufferSound(m, j, false, k); KeepsAnswers(m, a);
    case ReadVersion(i) => ReadVersionSound(m, i, k);
    case _ => OtherSound(m, a, k);
  }

  lemma KeepsAnswers(m: Mem, a: Action)
    requires !a.ReadVersion?
    ensures Step(m, a).answers == m.answers
  {}

  lemma OtherSound(m: Mem, a: Action, k: string)
    requires a.Expire? || a.ReadCell? || a.DeleteCell? || (a.DeleteVersion? && a.key != k)
    requires TicketsBelow(m, k) && Sound(m.answers, k)
    ensures TicketsBelow(Step(m, a), k) && Sound(Step(m, a).answers, k)
  {
    KeepsAnswers(m, a);
  }

  lemma {:induction false} RunSound(acts: seq<Action>, k: string)
    requires !Deletes(acts, k)
    ensures TicketsBelow(Run(acts), k) && Sound(Run(acts).answers, k)
  {
    if acts == [] {
    } else {
      hide Step, TicketsBelow, Sound;
      assert acts[|acts| - 1] in acts;
      RunSound(acts[..|acts| - 1], k);
      StepSound(Run(acts[..|acts| - 1]), acts[|acts| - 1], k);
    }
  }

  ghost predicate AlwaysSound(deletable: set<string>, k: string) {
    forall acts | (forall key | DeleteVersion(key) in acts :: key in deletable) :: Sound(Run(acts).answers, k)
  }

  /** A Get whose version read comes after a Delete answers the value with version zero. */
  lemma DeleteResets(k: string) returns (acts: seq<Action>)
    ensures (forall key | DeleteVersion(key) in acts :: key == k)
    ensures !Sound(Run(acts).answers, k)
  {
    var one := Stamped([], 1);
    acts := [Increment(0, k, []), Submit(0, false), ApplyWrite(0), ReadCell(1, k), DeleteVersion(k), ReadVersion(1)];
    var m1 := Step(Init, Increment(0, k, []));
    assert m1.setting[0] == (k, one) && m1.buffered == [];
    var m2 := Step(m1, Submit(0, false));
    assert m2.buffered == [(k, one)] && m2.getting == map[] && m2.answers == [];
    var m6 := LateVersionRead(m2, k, one);
    var m3 := Step(m2, ApplyWrite(0));
    var m4 := Step(m3, ReadCell(1, k));
    hide Step, Run;
    Chain(acts, [Init, m1, m2, m3, m4, Step(m4, DeleteVersion(k)), m6]);
    assert Run(acts).answers[0] == Answer(k, one, 0);
  }

  lemma LateVersionRead(m: Mem, k: string, one: Stamped) returns (t: Mem)
    requires m.buffered == [(k, one)] && m.getting == map[] && m.answers == []
    ensures t == Step(Step(Step(Step(m, ApplyWrite(0)), ReadCell(1, k)), DeleteVersion(k)), ReadVersion(1))
    ensures t.answers == [Answer(k, one, 0)]
  {
    var m3 := Step(m, ApplyWrite(0));
    assert m3.cells[k] == one;
    var m4 := Step(m3, ReadCell(1, k));
    assert m4.getting[1] == (k, one);
    var m5 := Step(m4, DeleteVersion(k));
    assert VersionOf(m5, k) == 0 && m5.getting == m4.getting;
    t := Step(m5, ReadVersion(1));
  }

  /** A run through known states ends in the last of them. */
  lemma {:induction false} Chain(acts: seq<Action>, states: seq<Mem>)
    requires |states| == |acts| + 1 && states[0] == Init
    requires forall i | 0 <= i < |acts| :: Step(states[i], acts[i]) == states[i + 1]
    ensures Run(acts) == states[|acts|]
  {
    hide Step;
    if acts != [] {
      Chain(acts[..|acts| - 1], states[..|acts|]);
    }
  }

  /** Concurrent Sets and Gets of k keep every answer's version at or above its value's ticket, and
      versions never fall from one answer to the next, whatever the cache delays, drops or expires,
      exactly when no run may delete the version of k. */
  lemma SoundIff(deletable: set<string>, k: string)
    ensures AlwaysSound(deletable, k) <==> k !in deletable
  {
    if k !in deletable {
      forall acts | (forall key | DeleteVersion(key) in acts :: key in deletable)
        ensures Sound(Run(acts).answers, k)
      {
        assert !Deletes(acts, k);
        RunSound(acts, k);
      }
    } else {
      var acts := DeleteResets(k);
    }
  }
}
