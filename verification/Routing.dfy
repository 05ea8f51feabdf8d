/**
 Which backends a key may be routed to: hints first, then the rules in priority order, then a
 fallback.  A view holds what one routing decision sees; decisions are relations, because the
 fallback and the tail of a read route follow the order in which a map is iterated.
 */
module Routing {
  import opened Storage

  datatype Strategy = Exact | Wildcard | Hash | Blacklist | Whitelist | Unknown

  const WORD := 0x1_0000_0000_0000_0000

  type Int64 = x: int | -(WORD / 2) <= x < WORD / 2
  type Uint64 = x: int | 0 <= x < WORD

  datatype Rule = Rule(
    strategy: Strategy, pattern: string, backendId: string, priority: int,
    hashMod: Int64, hashRemainder: int)

  /** Pattern matching and hashing belong to libraries: any functions will do. */
  datatype Matcher = Matcher(wildcard: (string, string) -> bool, hash: string -> Uint64)

  /** int(hash % uint64(mod)): mod is read as unsigned, and the remainder as signed again. */
  function Remainder(hash: Uint64, mod: Int64): int
    requires mod != 0
  {
    var m := if mod >= 0 then mod else mod + WORD;
    var r := hash % m;
    if r < WORD / 2 then r else r - WORD
  }

  /** The pattern without one trailing star. */
  function TrimStar(pattern: string): string {
    if pattern != "" && pattern[|pattern| - 1] == '*' then pattern[..|pattern| - 1] else pattern
  }

  predicate Matches(m: Matcher, rule: Rule, key: string) {
    match rule.strategy
    case Exact => TrimStar(rule.pattern) <= key
    case Wildcard => m.wildcard(rule.pattern, key)
    case Hash => rule.hashMod != 0 && Remainder(m.hash(key), rule.hashMod) == rule.hashRemainder
    case Blacklist => m.wildcard(rule.pattern, key)
    case Whitelist => m.wildcard(rule.pattern, key)
    case Unknown => false
  }

  predicate Routes(m: Matcher, rule: Rule, key: string) {
    Matches(m, rule, key) && !rule.strategy.Blacklist?
  }

  /** `healthy` maps every healthy registered backend to its weight. */
  datatype View = View(
    healthy: map<string, int>, rules: seq<Rule>, hints: map<string, seq<string>>, matcher: Matcher)

  predicate ByPriority(rules: seq<Rule>) {
    forall i, j | 0 <= i < j < |rules| :: rules[i].priority >= rules[j].priority
  }

  function HintIds(v: View, hint: string): seq<string> {
    if hint != "" && hint in v.hints then v.hints[hint] else []
  }

  /** The backends the matching rules name, in order. */
  function RuleIds(m: Matcher, rules: seq<Rule>, key: string): seq<string> {
    if rules == [] then []
    else (if Routes(m, rules[0], key) then [rules[0].backendId] else []) + RuleIds(m, rules[1..], key)
  }

  function FirstHealthy(ids: seq<string>, healthy: set<string>): Option<string> {
    if ids == [] then None
    else if ids[0] in healthy then Some(ids[0])
    else FirstHealthy(ids[1..], healthy)
  }

  /** The backend a hint or a rule resolves to, if one does. */
  function Resolve(v: View, key: string, hint: string): Option<string> {
    var byHint := FirstHealthy(HintIds(v, hint), v.healthy.Keys);
    if byHint.Some? then byHint else FirstHealthy(RuleIds(v.matcher, v.rules, key), v.healthy.Keys)
  }

  /** What GetBackend may answer: the resolved backend, else any of maximal weight, else an error. */
  ghost predicate CanWrite(v: View, key: string, hint: string, r: Option<string>) {
    match Resolve(v, key, hint)
    case Some(b) => r == Some(b)
    case None =>
      if v.healthy == map[] then r == None
      else r.Some? && r.value in v.healthy && forall b | b in v.healthy :: v.healthy[b] <= v.healthy[r.value]
  }

  predicate NoDuplicates<T(==)>(xs: seq<T>) {
    forall i, j | 0 <= i < j < |xs| :: xs[i] != xs[j]
  }

  /** Append the healthy ids not yet in the route. */
  function Extend(route: seq<string>, ids: seq<string>, healthy: set<string>): seq<string>
    decreases |ids|
  {
    if ids == [] then route
    else Extend(if ids[0] in healthy && ids[0] !in route then route + [ids[0]] else route, ids[1..], healthy)
  }

  /** The part of a read route that hints and rules determine. */
  function ReadPrefix(v: View, key: string, hint: string): seq<string> {
    Extend(Extend([], HintIds(v, hint), v.healthy.Keys),
           RuleIds(v.matcher, v.rules, key), v.healthy.Keys)
  }

  function Elements<T>(xs: seq<T>): set<T> {
    set x | x in xs
  }

  /** What GetBackendsForRead may answer: that prefix, then the other healthy backends in any order. */
  ghost predicate CanRead(v: View, key: string, hint: string, route: seq<string>) {
    && ReadPrefix(v, key, hint) <= route
    && NoDuplicates(route)
    && Elements(route) == v.healthy.Keys
  }

  // ----- Single rules -----

  function HashRule(mod: Int64, remainder: int): Rule {
    Rule(Hash, "*", "", 0, mod, remainder)
  }

  /** Hash rules with one positive modulus and the remainders below it split the keys: every key
      matches exactly one of them. */
  lemma HashRulesPartition(m: Matcher, key: string, mod: Int64)
    requires mod > 0
    ensures exists r | 0 <= r < mod :: Matches(m, HashRule(mod, r), key)
    ensures forall r, q :: Matches(m, HashRule(mod, r), key) && Matches(m, HashRule(mod, q), key) ==> r == q
  {
    var r := Remainder(m.hash(key), mod);
    assert 0 <= r < mod;
    assert Matches(m, HashRule(mod, r), key);
  }

  // ----- Properties -----

  lemma {:induction false} FirstHealthyIsFirst(ids: seq<string>, healthy: set<string>)
    ensures match FirstHealthy(ids, healthy)
      case None => forall i | 0 <= i < |ids| :: ids[i] !in healthy
      case Some(b) => b in healthy && exists i | 0 <= i < |ids| ::
        ids[i] == b && forall j | 0 <= j < i :: ids[j] !in healthy
  {
    if ids != [] && ids[0] !in healthy {
      FirstHealthyIsFirst(ids[1..], healthy);
      match FirstHealthy(ids[1..], healthy)
      case None =>
        assert forall i | 1 <= i < |ids| :: ids[i] == ids[1..][i - 1];
      case Some(b) =>
        var i :| 0 <= i < |ids[1..]| && ids[1..][i] == b && forall j | 0 <= j < i :: ids[1..][j] !in healthy;
        assert ids[i + 1] == b;
        assert forall j | 1 <= j < i + 1 :: ids[j] == ids[1..][j - 1];
    }
  }

  lemma {:induction false} ExtendGrows(route: seq<string>, ids: seq<string>, healthy: set<string>)
    ensures route <= Extend(route, ids, healthy)
    ensures NoDuplicates(route) ==> NoDuplicates(Extend(route, ids, healthy))
    ensures Elements(route) <= healthy ==> Elements(Extend(route, ids, healthy)) <= healthy
    decreases |ids|
  {
    if ids != [] {
      ExtendGrows(if ids[0] in healthy && ids[0] !in route then route + [ids[0]] else route, ids[1..], healthy);
    }
  }

  /** From an empty route, the first healthy id comes first; without one the route stays empty. */
  lemma {:induction false} ExtendHead(ids: seq<string>, healthy: set<string>)
    ensures match FirstHealthy(ids, healthy)
      case None => Extend([], ids, healthy) == []
      case Some(b) => Extend([], ids, healthy) != [] && Extend([], ids, healthy)[0] == b
  {
    if ids != [] {
      if ids[0] in healthy {
        assert [] + [ids[0]] == [ids[0]];
        ExtendGrows([ids[0]], ids[1..], healthy);
      } else {
        ExtendHead(ids[1..], healthy);
      }
    }
  }

  /** A resolved backend heads every read route; nothing resolved leaves the prefix empty. */
  lemma ResolvedHeadsPrefix(v: View, key: string, hint: string)
    ensures match Resolve(v, key, hint)
      case None => ReadPrefix(v, key, hint) == []
      case Some(b) => ReadPrefix(v, key, hint) != [] && ReadPrefix(v, key, hint)[0] == b
  {
    var byHint := HintIds(v, hint);
    var byRule := RuleIds(v.matcher, v.rules, key);
    ExtendHead(byHint, v.healthy.Keys);
    if FirstHealthy(byHint, v.healthy.Keys).Some? {
      ExtendGrows(Extend([], byHint, v.healthy.Keys), byRule, v.healthy.Keys);
    } else {
      ExtendHead(byRule, v.healthy.Keys);
    }
  }

  lemma ResolvedIsHealthy(v: View, key: string, hint: string)
    ensures Resolve(v, key, hint).Some? ==> Resolve(v, key, hint).value in v.healthy
  {
    FirstHealthyIsFirst(HintIds(v, hint), v.healthy.Keys);
    FirstHealthyIsFirst(RuleIds(v.matcher, v.rules, key), v.healthy.Keys);
  }

  /** Reads and writes agree: the read route lists each healthy backend once and is empty exactly when
      a write has nowhere to go; a write's backend is always on it, and heads it once a hint or a rule
      resolves. */
  lemma ReadAndWriteAgree(v: View, key: string, hint: string, r: Option<string>, route: seq<string>)
    requires CanWrite(v, key, hint, r) && CanRead(v, key, hint, route)
    ensures |route| == |v.healthy|
    ensures route == [] <==> r == None
    ensures r.Some? ==> r.value in route
    ensures Resolve(v, key, hint).Some? ==> route[0] == r.value
  {
    ResolvedIsHealthy(v, key, hint);
    ResolvedHeadsPrefix(v, key, hint);
    DistinctCount(route);
    assert |v.healthy| == |v.healthy.Keys|;
    if route == [] {
      assert v.healthy.Keys == {};
    } else {
      assert route[0] in v.healthy.Keys;
    }
    if r.Some? {
      assert r.value in Elements(route);
    }
  }

  lemma {:induction false} DistinctCount(xs: seq<string>)
    requires NoDuplicates(xs)
    ensures |Elements(xs)| == |xs|
  {
    if xs != [] {
      DistinctCount(xs[1..]);
      assert Elements(xs) == {xs[0]} + Elements(xs[1..]);
      assert xs[0] !in Elements(xs[1..]);
    }
  }

  // ----- When the fallback agrees too -----

  ghost predicate AlwaysAgree(v: View, key: string, hint: string) {
    forall b, route | CanWrite(v, key, hint, Some(b)) && CanRead(v, key, hint, route) ::
      route != [] && route[0] == b
  }

  lemma Prepend(b: string, rest: seq<string>) returns (route: seq<string>)
    requires NoDuplicates(rest) && b !in Elements(rest)
    ensures route == [b] + rest && NoDuplicates(route) && Elements(route) == {b} + Elements(rest)
  {
    route := [b] + rest;
    assert forall x | x in rest :: x in Elements(rest);
    forall i, j | 0 <= i < j < |route| ensures route[i] != route[j] {
      assert route[j] == rest[j - 1];
    }
  }

  /** A route listing the given distinct backends exists with any of them in front. */
  lemma RouteStartingWith(ids: set<string>, b: string) returns (route: seq<string>)
    requires b in ids
    ensures NoDuplicates(route) && Elements(route) == ids && route[0] == b
  {
    var rest := Listing(ids - {b});
    route := Prepend(b, rest);
  }

  lemma {:induction false} Listing(ids: set<string>) returns (route: seq<string>)
    ensures NoDuplicates(route) && Elements(route) == ids
    decreases |ids|
  {
    if ids == {} {
      route := [];
    } else {
      var b :| b in ids;
      var rest := Listing(ids - {b});
      route := Prepend(b, rest);
    }
  }

  lemma ConcatDistinct(xs: seq<string>, ys: seq<string>)
    requires NoDuplicates(xs) && NoDuplicates(ys) && Elements(xs) !! Elements(ys)
    ensures NoDuplicates(xs + ys)
  {
    var zs := xs + ys;
    forall i, j | 0 <= i < j < |zs| ensures zs[i] != zs[j] {
      if i < |xs| <= j {
        assert zs[i] in Elements(xs) && zs[j] in Elements(ys);
      }
    }
  }

  /** A read route exists for every key. */
  lemma SomeRoute(v: View, key: string, hint: string) returns (route: seq<string>)
    ensures CanRead(v, key, hint, route) && (v.healthy != map[] ==> route != [])
  {
    var prefix := ReadPrefix(v, key, hint);
    ExtendGrows([], HintIds(v, hint), v.healthy.Keys);
    ExtendGrows(Extend([], HintIds(v, hint), v.healthy.Keys), RuleIds(v.matcher, v.rules, key), v.healthy.Keys);
    var rest := Listing(v.healthy.Keys - Elements(prefix));
    route := prefix + rest;
    assert Elements(route) == Elements(prefix) + Elements(rest);
    ConcatDistinct(prefix, rest);
    if route == [] {
      assert Elements(route) == {} && v.healthy.Keys == {};
    }
  }

  /** With something healthy every key can be written somewhere. */
  lemma SomeWrite(v: View, key: string, hint: string) returns (r: Option<string>)
    requires v.healthy != map[]
    ensures CanWrite(v, key, hint, r) && r.Some?
  {
    r := Resolve(v, key, hint);
    if r.None? {
      var b := Heaviest(v.healthy, v.healthy.Keys);
      r := Some(b);
    }
  }

  /** An unresolved key can be read from any healthy backend first. */
  lemma UnresolvedRoute(v: View, key: string, hint: string, b: string) returns (route: seq<string>)
    requires Resolve(v, key, hint).None? && b in v.healthy
    ensures CanRead(v, key, hint, route) && route != [] && route[0] == b
  {
    ResolvedHeadsPrefix(v, key, hint);
    route := RouteStartingWith(v.healthy.Keys, b);
  }

  lemma {:induction false} Heaviest(healthy: map<string, int>, ids: set<string>) returns (b: string)
    requires ids != {} && ids <= healthy.Keys
    ensures b in ids && forall x | x in ids :: healthy[x] <= healthy[b]
    decreases |ids|
  {
    var x :| x in ids;
    if ids == {x} {
      b := x;
    } else {
      var rest := ids - {x};
      assert ids == rest + {x};
      var y := Heaviest(healthy, rest);
      b := if healthy[x] >= healthy[y] then x else y;
      assert forall z | z in ids :: z == x || z in rest;
    }
  }

  /** The backend written to is certain to be the first one read exactly when a hint or a rule
      resolves, or there is at most one healthy backend: otherwise writes go by weight and reads by
      map order. */
  lemma AgreeIff(v: View, key: string, hint: string)
    ensures AlwaysAgree(v, key, hint) <==> Resolve(v, key, hint).Some? || |v.healthy| <= 1
  {
    ResolvedHeadsPrefix(v, key, hint);
    ResolvedIsHealthy(v, key, hint);
    assert |v.healthy| == |v.healthy.Keys|;
    if Resolve(v, key, hint).Some? {
      forall b, route | CanWrite(v, key, hint, Some(b)) && CanRead(v, key, hint, route)
        ensures route != [] && route[0] == b
      {
        ReadAndWriteAgree(v, key, hint, Some(b), route);
      }
    } else if |v.healthy| <= 1 {
      forall b, route | CanWrite(v, key, hint, Some(b)) && CanRead(v, key, hint, route)
        ensures route != [] && route[0] == b
      {
        ReadAndWriteAgree(v, key, hint, Some(b), route);
        assert |route| == 1;
      }
    } else {
      var b := Heaviest(v.healthy, v.healthy.Keys);
      assert CanWrite(v, key, hint, Some(b));
      var others := v.healthy.Keys - {b};
      assert v.healthy.Keys == others + {b};
      var c :| c in others;
      var route := RouteStartingWith(v.healthy.Keys, c);
      assert CanRead(v, key, hint, route);
    }
  }

  // ----- Priorities, blacklists -----

  /** One turn of a loop over the rules. */
  lemma RuleIdsStep(m: Matcher, rules: seq<Rule>, i: nat, key: string)
    requires i < |rules|
    ensures RuleIds(m, rules[i..], key)
         == (if Routes(m, rules[i], key) then [rules[i].backendId] else []) + RuleIds(m, rules[i + 1..], key)
  {
    assert rules[i..][0] == rules[i] && rules[i..][1..] == rules[i + 1..];
  }

  lemma FirstHealthyStep(x: string, ids: seq<string>, healthy: set<string>)
    ensures FirstHealthy([x] + ids, healthy) == if x in healthy then Some(x) else FirstHealthy(ids, healthy)
    ensures FirstHealthy([] + ids, healthy) == FirstHealthy(ids, healthy)
  {
    assert ([x] + ids)[1..] == ids && [] + ids == ids;
  }

  lemma ExtendStep(route: seq<string>, x: string, ids: seq<string>, healthy: set<string>)
    ensures Extend(route, [x] + ids, healthy)
         == Extend(if x in healthy && x !in route then route + [x] else route, ids, healthy)
    ensures Extend(route, [] + ids, healthy) == Extend(route, ids, healthy)
  {
    assert ([x] + ids)[1..] == ids && [] + ids == ids;
  }

  lemma {:induction false} RuleIdsNamesRule(m: Matcher, rules: seq<Rule>, key: string, healthy: set<string>)
    returns (i: nat)
    requires FirstHealthy(RuleIds(m, rules, key), healthy).Some?
    ensures i < |rules| && Routes(m, rules[i], key)
    ensures FirstHealthy(RuleIds(m, rules, key), healthy) == Some(rules[i].backendId)
    ensures forall j | 0 <= j < i :: Routes(m, rules[j], key) ==> rules[j].backendId !in healthy
  {
    if Routes(m, rules[0], key) && rules[0].backendId in healthy {
      i := 0;
    } else {
      var rest := RuleIds(m, rules[1..], key);
      if Routes(m, rules[0], key) {
        assert RuleIds(m, rules, key)[1..] == rest;
      } else {
        assert RuleIds(m, rules, key) == rest;
      }
      var k := RuleIdsNamesRule(m, rules[1..], key, healthy);
      i := k + 1;
      assert forall j | 1 <= j < i :: rules[j] == rules[1..][j - 1];
    }
  }

  /** A backend reached through a rule comes from a matching rule, and no matching rule of strictly
      higher priority that is not a blacklist names a healthy backend. */
  lemma HighestPriorityWins(v: View, key: string, hint: string) returns (rule: Rule)
    requires ByPriority(v.rules)
    requires FirstHealthy(HintIds(v, hint), v.healthy.Keys).None? && Resolve(v, key, hint).Some?
    ensures rule in v.rules && Routes(v.matcher, rule, key)
    ensures Resolve(v, key, hint) == Some(rule.backendId)
    ensures forall other | other in v.rules && other.priority > rule.priority && Routes(v.matcher, other, key) ::
              other.backendId !in v.healthy
  {
    var i := RuleIdsNamesRule(v.matcher, v.rules, key, v.healthy.Keys);
    rule := v.rules[i];
    forall other | other in v.rules && other.priority > rule.priority && Routes(v.matcher, other, key)
      ensures other.backendId !in v.healthy
    {
      var j :| 0 <= j < |v.rules| && v.rules[j] == other;
      assert j < i;
    }
  }

  function WithoutBlacklists(rules: seq<Rule>): (kept: seq<Rule>)
    ensures forall r :: r in kept <==> r in rules && !r.strategy.Blacklist?
  {
    if rules == [] then []
    else (if rules[0].strategy.Blacklist? then [] else [rules[0]]) + WithoutBlacklists(rules[1..])
  }

  lemma {:induction false} BlacklistsNameNobody(m: Matcher, rules: seq<Rule>, key: string)
    ensures RuleIds(m, rules, key) == RuleIds(m, WithoutBlacklists(rules), key)
  {
    if rules != [] {
      BlacklistsNameNobody(m, rules[1..], key);
      if !rules[0].strategy.Blacklist? {
        assert WithoutBlacklists(rules)[1..] == WithoutBlacklists(rules[1..]);
      } else {
        assert WithoutBlacklists(rules) == WithoutBlacklists(rules[1..]);
      }
    }
  }

  /** Blacklist rules keep no key away from any backend: dropping them all changes no decision. */
  lemma BlacklistsChangeNothing(v: View, key: string, hint: string, r: Option<string>, route: seq<string>)
    ensures var w := v.(rules := WithoutBlacklists(v.rules));
      && (CanWrite(v, key, hint, r) <==> CanWrite(w, key, hint, r))
      && (CanRead(v, key, hint, route) <==> CanRead(w, key, hint, route))
  {
    BlacklistsNameNobody(v.matcher, v.rules, key);
  }
}
