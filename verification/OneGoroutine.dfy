/** Runs in which one request goes on alone, with given answers of the stores. */
module OneGoroutine {
  import opened Storage
  import opened CacheService

  /** These steps advance goroutine i alone, with the given answers of the stores; the router's vary. */
  predicate Follows(acts: seq<Action>, i: nat, ch: Choice) {
    forall n | 0 <= n < |acts| :: acts[n].Advance? && acts[n].i == i && FromStores(acts[n].choice, ch)
  }

  predicate FromStores(c: Choice, ch: Choice) {
    c.(route := None, order := []) == ch.(route := None, order := [])
  }

  /** From s, these steps advance goroutine i alone: while it reads a backend with that backend's answer,
      and otherwise with ch's. */
  ghost predicate Reads(
    cfg: Config, s: Service, acts: seq<Action>, i: nat, ch: Choice, answers: string -> Choice)
  {
    forall n | 0 <= n < |acts| :: ReadsAt(cfg, s, acts, n, i, ch, answers)
  }

  ghost predicate ReadsAt(
    cfg: Config, s: Service, acts: seq<Action>, n: nat, i: nat, ch: Choice, answers: string -> Choice)
    requires n < |acts|
  {
    && acts[n].Advance? && acts[n].i == i
    && AnswersRead(RunFrom(cfg, s, acts[..n]).tasks, i, acts[n].choice, ch, answers)
  }

  predicate AnswersRead(tasks: seq<Task>, i: nat, c: Choice, ch: Choice, answers: string -> Choice) {
    && i < |tasks|
    && if tasks[i].GetStore? && tasks[i].rest != [] then c == answers(tasks[i].rest[0]) else FromStores(c, ch)
  }

  lemma FollowsConcat(acts: seq<Action>, more: seq<Action>, i: nat, ch: Choice)
    requires Follows(acts, i, ch) && Follows(more, i, ch)
    ensures Follows(acts + more, i, ch)
  {}

  /** Appending to a run that starts with its request. */
  lemma RestConcat(acts: seq<Action>, more: seq<Action>, i: nat, ch: Choice)
    requires acts != [] && Follows(acts[1..], i, ch) && Follows(more, i, ch)
    ensures (acts + more)[0] == acts[0] && Follows((acts + more)[1..], i, ch)
  {
    assert (acts + more)[1..] == acts[1..] + more;
  }

  lemma SameStores(ch: Choice, route: Option<string>, order: seq<string>)
    ensures FromStores(ch.(route := route, order := order), ch) && FromStores(ch, ch)
  {}

  lemma FollowsOne(i: nat, c: Choice, ch: Choice)
    requires FromStores(c, ch)
    ensures Follows([Advance(i, c)], i, ch) && Follows([], i, ch)
  {}

  lemma ReadsOne(cfg: Config, s: Service, i: nat, c: Choice, ch: Choice, answers: string -> Choice)
    requires AnswersRead(s.tasks, i, c, ch, answers)
    ensures Reads(cfg, s, [Advance(i, c)], i, ch, answers) && Reads(cfg, s, [], i, ch, answers)
  {
    assert [Advance(i, c)][..0] == [];
    NoSteps(cfg, s);
  }

  lemma ReadsAtConcat(
    cfg: Config, s: Service, acts: seq<Action>, more: seq<Action>, n: nat,
    i: nat, ch: Choice, answers: string -> Choice)
    requires n < |acts + more|
    ensures ReadsAt(cfg, s, acts + more, n, i, ch, answers)
         == if n < |acts| then ReadsAt(cfg, s, acts, n, i, ch, answers)
            else ReadsAt(cfg, RunFrom(cfg, s, acts), more, n - |acts|, i, ch, answers)
  {
    hide RunFrom, AnswersRead;
    if n < |acts| {
      assert (acts + more)[..n] == acts[..n];
    } else {
      assert (acts + more)[..n] == acts + more[..n - |acts|];
      RunAppend(cfg, s, acts, more[..n - |acts|]);
    }
  }

  lemma ReadsConcat(
    cfg: Config, s: Service, acts: seq<Action>, more: seq<Action>, i: nat, ch: Choice, answers: string -> Choice)
    requires Reads(cfg, s, acts, i, ch, answers) && Reads(cfg, RunFrom(cfg, s, acts), more, i, ch, answers)
    ensures Reads(cfg, s, acts + more, i, ch, answers)
  {
    hide RunFrom, ReadsAt;
    forall n | 0 <= n < |acts + more| ensures ReadsAt(cfg, s, acts + more, n, i, ch, answers) {
      ReadsAtConcat(cfg, s, acts, more, n, i, ch, answers);
    }
  }

  lemma ReadsNext(
    cfg: Config, s: Service, acts: seq<Action>, i: nat, c: Choice, ch: Choice, answers: string -> Choice)
    requires Reads(cfg, s, acts, i, ch, answers)
    requires AnswersRead(RunFrom(cfg, s, acts).tasks, i, c, ch, answers)
    ensures Reads(cfg, s, acts + [Advance(i, c)], i, ch, answers)
    ensures RunFrom(cfg, s, acts + [Advance(i, c)]) == Step(cfg, RunFrom(cfg, s, acts), Advance(i, c))
  {
    hide Step, RunFrom, Reads, AnswersRead;
    RunOne(cfg, s, acts, Advance(i, c));
    ReadsOne(cfg, RunFrom(cfg, s, acts), i, c, ch, answers);
    ReadsConcat(cfg, s, acts, [Advance(i, c)], i, ch, answers);
  }

  lemma NoSteps(cfg: Config, s: Service)
    ensures RunFrom(cfg, s, []) == s
  {}

  lemma OneStep(cfg: Config, s: Service, a: Action)
    ensures RunFrom(cfg, s, [a]) == Step(cfg, s, a)
  {
    hide Step;
    assert [a][..0] == [];
  }
}
