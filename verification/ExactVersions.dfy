/** When a Get from the in-memory store reports the version its value was written under. */
module ExactVersions {
  import opened Storage
  import opened VersionedReads

  /** What may come between the steps of one call: the cache refuses or drops a write, it applies a write
      only after other steps, or another call's steps fall between the two of a Set, a Get or a Delete. */
  datatype Terms = Terms(mayRefuse: bool, mayLag: bool, mayOverlap: bool)

  predicate Allowed(acts: seq<Action>, a: Action, terms: Terms) {
    var m := Run(acts);
    var deleting := acts != [] && acts[|acts| - 1].DeleteCell?;
    && (a.DropWrite? || (a.Submit? && a.refused) ==> terms.mayRefuse)
    && (m.buffered != [] && !a.ApplyWrite? && !a.DropWrite? && !a.Expire? ==> terms.mayLag)
    && (m.setting != map[] && !a.Submit? && !a.Expire? ==> terms.mayOverlap)
    && (m.getting != map[] && !a.ReadVersion? && !a.Expire? ==> terms.mayOverlap)
    && (deleting && a != DeleteVersion(acts[|acts| - 1].key) ==> terms.mayOverlap)
    && (a.DeleteVersion? && !(deleting && acts[|acts| - 1].key == a.key) ==> terms.mayOverlap)
  }

  predicate AllAllowed(acts: seq<Action>, terms: Terms) {
    acts == [] || (AllAllowed(acts[..|acts| - 1], terms) && Allowed(acts[..|acts| - 1], acts[|acts| - 1], terms))
  }

  /** Every answer for k reports the version its value was written under. */
  predicate Exact(answers: seq<Answer>, k: string) {
    forall i | 0 <= i < |answers| && answers[i].key == k :: answers[i].version == answers[i].stamped.ticket
  }

  ghost predicate AlwaysExact(terms: Terms, k: string) {
    forall acts | AllAllowed(acts, terms) :: Exact(Run(acts).answers, k)
  }

  /** At most one call is between its steps, and all it carries is current; so is the cell unless a Set of
      its key is on the way. */
  ghost predicate Current(m: Mem, k: string) {
    var version := VersionOf(m, k);
    && |m.buffered| <= 1
    && (m.buffered != [] ==> m.setting == map[] && m.getting == map[])
    && (m.setting != map[] ==> m.getting == map[])
    && (forall i, j | i in m.setting && j in m.setting :: i == j)
    && (forall i | i in m.setting && m.setting[i].0 == k :: m.setting[i].1.ticket == version)
    && (forall x | x in m.buffered && x.0 == k :: x.1.ticket == version)
    && (forall i | i in m.getting && m.getting[i].0 == k :: m.getting[i].1.ticket == version)
    && (k in m.cells && (forall i | i in m.setting :: m.setting[i].0 != k) && (forall x | x in m.buffered :: x.0 != k)
        ==> m.cells[k].ticket == version)
  }

  const ORDERLY := Terms(false, false, false)

  lemma CurrentSet(acts: seq<Action>, a: Action, k: string)
    requires Current(Run(acts), k) && Allowed(acts, a, ORDERLY) && (a.Increment? || a.Submit?)
    ensures Current(Step(Run(acts), a), k)
  {
    hide Run;
    var m, t := Run(acts), Step(Run(acts), a);
    if a.Submit? && a.setter in m.setting {
      var x := m.setting[a.setter];
      assert t.setting == map[];
      assert t.buffered == [x];
    }
  }

  lemma CurrentCache(acts: seq<Action>, a: Action, k: string)
    requires Current(Run(acts), k) && Allowed(acts, a, ORDERLY) && (a.ApplyWrite? || a.Expire? || a.DeleteCell?)
    ensures Current(Step(Run(acts), a), k)
  {
    hide Run;
    var m := Run(acts);
    if a.ApplyWrite? && a.j < |m.buffered| {
      assert m.buffered[0] in m.buffered;
      assert Without(m.buffered, a.j) == [];
    }
  }

  lemma CurrentDelete(acts: seq<Action>, k: string, key: string)
    requires Current(Run(acts), k) && Allowed(acts, DeleteVersion(key), ORDERLY)
    ensures Current(Step(Run(acts), DeleteVersion(key)), k)
  {
    var before := acts[..|acts| - 1];
    assert Run(acts) == Step(Run(before), DeleteCell(key));
    assert key !in Run(acts).cells;
    hide Run;
  }

  lemma CurrentGet(acts: seq<Action>, a: Action, k: string)
    requires Current(Run(acts), k) && Allowed(acts, a, ORDERLY) && (a.ReadCell? || a.ReadVersion?)
    requires Exact(Run(acts).answers, k)
    ensures Current(Step(Run(acts), a), k) && Exact(Step(Run(acts), a).answers, k)
  {
    hide Run;
    var m, t := Run(acts), Step(Run(acts), a);
    assert forall n | 0 <= n < |m.answers| :: t.answers[n] == m.answers[n];
  }

  lemma {:induction false} RunCurrent(acts: seq<Action>, k: string)
    requires AllAllowed(acts, ORDERLY)
    ensures Current(Run(acts), k) && Exact(Run(acts).answers, k)
  {
    if acts == [] {
    } else {
      var before, a := acts[..|acts| - 1], acts[|acts| - 1];
      RunCurrent(before, k);
      hide Step, Current, Exact;
      match a
      case Increment(_, _, _) => CurrentSet(before, a, k); KeepsAnswers(Run(before), a);
      case Submit(_, _) => CurrentSet(before, a, k); KeepsAnswers(Run(before), a);
      case ReadCell(_, _) => CurrentGet(before, a, k);
      case ReadVersion(_) => CurrentGet(before, a, k);
      case DeleteVersion(key) => CurrentDelete(before, k, key); KeepsAnswers(Run(before), a);
      case DropWrite(_) => assert false;
      case _ => CurrentCache(before, a, k); KeepsAnswers(Run(before), a);
    }
  }

  // ----- The three ways for a value to come under another version -----

  /** A Set of k that has reached the cache. */
  function FirstSet(k: string): seq<Action> {
    [Increment(0, k, []), Submit(0, false), ApplyWrite(0)]
  }

  function OneSet(k: string): Mem {
    Mem(map[k := 1], map[k := Stamped([], 1)], map[], [], map[], [])
  }

  lemma SetsOnce(k: string, terms: Terms)
    ensures Run(FirstSet(k)) == OneSet(k) && AllAllowed(FirstSet(k), terms)
  {
    var a, b, c := Increment(0, k, []), Submit(0, false), ApplyWrite(0);
    assert [a][..0] == [] && [a, b][..1] == [a] && [a, b, c][..2] == [a, b];
    var m1 := Step(Init, a);
    assert m1 == Mem(map[k := 1], map[], map[0 := (k, Stamped([], 1))], [], map[], []);
    var m2 := Step(m1, b);
    assert m1.setting - {0} == map[];
    assert m2 == Mem(map[k := 1], map[], map[], [(k, Stamped([], 1))], map[], []);
    assert Without(m2.buffered, 0) == [];
    assert Step(m2, c) == OneSet(k);
    hide Step;
    assert Run([]) == Init && Run([a]) == m1 && Run([a, b]) == m2 && Run(FirstSet(k)) == OneSet(k);
    assert AllAllowed([], terms) && AllAllowed([a], terms) && AllAllowed([a, b], terms);
  }

  /** A Get that reads the first value, and then the version of the second Set. */
  lemma ReadsAhead(acts: seq<Action>, k: string, terms: Terms) returns (all: seq<Action>)
    requires AllAllowed(acts, terms)
    requires var m := Run(acts);
      && m.cells == map[k := Stamped([], 1)] && m.versions == map[k := 2] && m.getting == map[] && m.answers == []
      && (m.buffered != [] ==> terms.mayLag) && (m.setting != map[] ==> terms.mayOverlap)
    requires acts != [] && !acts[|acts| - 1].DeleteCell?
    ensures AllAllowed(all, terms) && !Exact(Run(all).answers, k)
  {
    var m := Run(acts);
    var look, count := ReadCell(1, k), ReadVersion(1);
    var one := acts + [look];
    all := one + [count];
    assert one[..|one| - 1] == acts && all[..|all| - 1] == one;
    var m1 := Step(m, look);
    assert m1 == m.(getting := map[1 := (k, Stamped([], 1))]);
    var m2 := Step(m1, count);
    assert m2.answers == [Answer(k, Stamped([], 1), 2)];
    hide Step;
    assert Run(one) == m1 && Run(all) == m2;
    assert Allowed(acts, look, terms) && Allowed(one, count, terms);
    hide Run;
    assert m2.answers[0].key == k;
  }

  /** The second Set has raised the version but not submitted its value. */
  lemma OverlapMisnames(k: string, terms: Terms) returns (acts: seq<Action>)
    requires terms.mayOverlap
    ensures AllAllowed(acts, terms) && !Exact(Run(acts).answers, k)
  {
    var more := Increment(2, k, [1]);
    acts := FirstSet(k) + [more];
    SecondRaise(k, terms);
    acts := ReadsAhead(acts, k, terms);
  }

  /** The version of k after a second Set has raised it. */
  lemma SecondRaise(k: string, terms: Terms)
    ensures var acts := FirstSet(k) + [Increment(2, k, [1])];
      && AllAllowed(acts, terms)
      && Run(acts) == OneSet(k).(versions := map[k := 2], setting := map[2 := (k, Stamped([1], 2))])
  {
    var more := Increment(2, k, [1]);
    var acts := FirstSet(k) + [more];
    SetsOnce(k, terms);
    assert acts[..|acts| - 1] == FirstSet(k);
    assert Step(OneSet(k), more) == OneSet(k).(versions := map[k := 2], setting := map[2 := (k, Stamped([1], 2))]);
    hide Step;
    assert Run(acts) == Step(Run(FirstSet(k)), more);
    assert Allowed(FirstSet(k), more, terms);
  }

  /** The second Set's value is refused, or waits in the cache's buffer. */
  lemma SubmitMisnames(k: string, refused: bool, terms: Terms) returns (acts: seq<Action>)
    requires if refused then terms.mayRefuse else terms.mayLag
    ensures AllAllowed(acts, terms) && !Exact(Run(acts).answers, k)
  {
    var start, submit := FirstSet(k) + [Increment(2, k, [1])], Submit(2, refused);
    SecondRaise(k, terms);
    var m := Run(start);
    acts := start + [submit];
    assert acts[..|acts| - 1] == start;
    assert m.setting - {2} == map[];
    assert Step(m, submit) == m.(setting := map[], buffered := if refused then [] else [(k, Stamped([1], 2))]);
    hide Step;
    assert Run(acts) == Step(m, submit);
    assert Allowed(start, submit, terms);
    hide Run;
    acts := ReadsAhead(acts, k, terms);
  }

  /** In every run of Sets, Gets, Deletes and expiries, every Get reports the version its value was written
      under, exactly when the cache refuses no write, applies each at once, and no call overlaps another. */
  lemma ExactIff(terms: Terms, k: string)
    ensures AlwaysExact(terms, k) <==> !terms.mayRefuse && !terms.mayLag && !terms.mayOverlap
  {
    hide Run, AllAllowed, Exact;
    if terms.mayOverlap {
      var acts := OverlapMisnames(k, terms);
    } else if terms.mayRefuse {
      var acts := SubmitMisnames(k, true, terms);
    } else if terms.mayLag {
      var acts := SubmitMisnames(k, false, terms);
    } else {
      forall acts | AllAllowed(acts, terms) ensures Exact(Run(acts).answers, k) {
        RunCurrent(acts, k);
      }
    }
  }
}
