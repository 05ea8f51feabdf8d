/** The router: a table of backends, rules and hint routes, and the two selection loops. */
module Router {
  import opened Storage
  import opened Backends
  import opened Routing

  function Ids(bs: seq<Backend>): seq<string> {
    seq(|bs|, i requires 0 <= i < |bs| => bs[i].id)
  }

  /** The backends that rules of one strategy list for one pattern, in rule order. */
  function PatternIds(rules: seq<Rule>, strategy: Strategy, pattern: string): seq<string> {
    if rules == [] then []
    else
      var last := rules[|rules| - 1];
      PatternIds(rules[..|rules| - 1], strategy, pattern)
        + if last.strategy == strategy && last.pattern == pattern then [last.backendId] else []
  }

  /** Listed are exactly the backends that some rule of the strategy names for the pattern. */
  lemma {:induction false} PatternIdsIff(rules: seq<Rule>, strategy: Strategy, pattern: string, id: string)
    ensures id in PatternIds(rules, strategy, pattern)
       <==> exists r | r in rules :: r.strategy == strategy && r.pattern == pattern && r.backendId == id
  {
    if rules != [] {
      var init, last := rules[..|rules| - 1], rules[|rules| - 1];
      assert rules == init + [last];
      PatternIdsIff(init, strategy, pattern, id);
    }
  }

  function Listed(m: map<string, seq<string>>, pattern: string): seq<string> {
    if pattern in m then m[pattern] else []
  }

  function AddTo(m: map<string, seq<string>>, rule: Rule): map<string, seq<string>> {
    m[rule.pattern := Listed(m, rule.pattern) + [rule.backendId]]
  }

  /** m lists, for every pattern, the backends that rules of this strategy name for it. */
  ghost predicate Indexes(m: map<string, seq<string>>, rules: seq<Rule>, strategy: Strategy) {
    forall p :: Listed(m, p) == PatternIds(rules, strategy, p)
  }

  lemma IndexesStep(m: map<string, seq<string>>, rules: seq<Rule>, i: nat, strategy: Strategy)
    requires i < |rules| && Indexes(m, rules[..i], strategy)
    ensures Indexes(if rules[i].strategy == strategy then AddTo(m, rules[i]) else m, rules[..i + 1], strategy)
  {
    assert rules[..i + 1][..i] == rules[..i];
    var t := if rules[i].strategy == strategy then AddTo(m, rules[i]) else m;
    forall p ensures Listed(t, p) == PatternIds(rules[..i + 1], strategy, p) {
      assert Listed(m, p) == PatternIds(rules[..i], strategy, p);
      assert Listed(m, p) + [] == Listed(m, p);
    }
  }

  lemma InsertKeepsOrder(sorted: seq<Rule>, k: nat, rule: Rule)
    requires ByPriority(sorted) && k <= |sorted|
    requires forall j | 0 <= j < k :: sorted[j].priority >= rule.priority
    requires k < |sorted| ==> sorted[k].priority < rule.priority
    ensures ByPriority(sorted[..k] + [rule] + sorted[k..])
  {
    var r := sorted[..k] + [rule] + sorted[k..];
    assert forall j | 0 <= j < k :: r[j] == sorted[j];
    assert forall j | k < j < |r| :: r[j] == sorted[j - 1];
    assert forall j | k <= j < |sorted| :: sorted[j].priority <= rule.priority;
  }

  lemma InsertKeepsRules(sorted: seq<Rule>, k: nat, rule: Rule)
    requires k <= |sorted|
    ensures multiset(sorted[..k] + [rule] + sorted[k..]) == multiset(sorted) + multiset{rule}
  {
    assert sorted == sorted[..k] + sorted[k..];
    assert multiset(sorted) == multiset(sorted[..k]) + multiset(sorted[k..]);
  }

  method InsertByPriority(sorted: seq<Rule>, rule: Rule) returns (r: seq<Rule>)
    requires ByPriority(sorted)
    ensures ByPriority(r) && multiset(r) == multiset(sorted) + multiset{rule}
  {
    var k := 0;
    while k < |sorted| && sorted[k].priority >= rule.priority
      invariant 0 <= k <= |sorted|
      invariant forall j | 0 <= j < k :: sorted[j].priority >= rule.priority
    {
      k := k + 1;
    }
    InsertKeepsOrder(sorted, k, rule);
    InsertKeepsRules(sorted, k, rule);
    r := sorted[..k] + [rule] + sorted[k..];
  }

  /** sort.Slice by falling priority; callers may rely on the contract only, not on stability. */
  method SortByPriority(rules: seq<Rule>) returns (sorted: seq<Rule>)
    ensures ByPriority(sorted) && multiset(sorted) == multiset(rules)
  {
    sorted := [];
    for i := 0 to |rules|
      invariant ByPriority(sorted) && multiset(sorted) == multiset(rules[..i])
    {
      assert rules[..i + 1] == rules[..i] + [rules[i]];
      sorted := InsertByPriority(sorted, rules[i]);
    }
    assert rules[..|rules|] == rules;
  }

  class Router {
    var backends: map<string, Backend>
    var rules: seq<Rule>
    var hintRoutes: map<string, seq<string>>
    var blacklist: map<string, seq<string>>
    var whitelist: map<string, seq<string>>
    const matcher: Matcher

    ghost predicate Valid()
      reads this
    {
      && (forall id | id in backends :: backends[id].id == id)
      && ByPriority(rules)
    }

    ghost function View(): View
      reads this, backends.Values
    {
      Routing.View(map id | id in backends && backends[id].healthy :: backends[id].weight,
                   rules, hintRoutes, matcher)
    }

    constructor (matcher: Matcher)
      ensures Valid() && backends == map[] && rules == [] && hintRoutes == map[] && this.matcher == matcher
    {
      this.matcher := matcher;
      backends, rules, hintRoutes, blacklist, whitelist := map[], [], map[], map[], map[];
    }

    method RegisterBackend(backend: Backend)
      requires Valid()
      modifies `backends
      ensures Valid() && backends == old(backends)[backend.id := backend]
    {
      backends := backends[backend.id := backend];
    }

    method UnregisterBackend(id: string)
      requires Valid()
      modifies `backends
      ensures Valid() && backends == old(backends) - {id}
    {
      backends := backends - {id};
    }

    method SetHintRoute(hint: string, backendIds: seq<string>)
      requires Valid()
      modifies `hintRoutes
      ensures Valid() && hintRoutes == old(hintRoutes)[hint := backendIds]
    {
      hintRoutes := hintRoutes[hint := backendIds];
    }

    /** Installs the rules in priority order.  All hint routes are dropped with the old rules. */
    method SetRules(newRules: seq<Rule>)
      requires Valid()
      modifies `rules, `hintRoutes, `blacklist, `whitelist
      ensures Valid() && multiset(rules) == multiset(newRules)
      ensures hintRoutes == map[]
      ensures Indexes(blacklist, rules, Blacklist) && Indexes(whitelist, rules, Whitelist)
    {
      var sorted := SortByPriority(newRules);
      rules := sorted;
      hintRoutes, blacklist, whitelist := map[], map[], map[];
      for i := 0 to |sorted|
        invariant rules == sorted && hintRoutes == map[]
        invariant Indexes(blacklist, sorted[..i], Blacklist) && Indexes(whitelist, sorted[..i], Whitelist)
      {
        hide Indexes, AddTo;
        IndexesStep(blacklist, sorted, i, Blacklist);
        IndexesStep(whitelist, sorted, i, Whitelist);
        match sorted[i].strategy
        case Blacklist => blacklist := AddTo(blacklist, sorted[i]);
        case Whitelist => whitelist := AddTo(whitelist, sorted[i]);
        case _ =>
      }
      assert sorted[..|sorted|] == sorted;
    }

    predicate Offers(id: string)
      reads this, backends.Values
    {
      id in backends && backends[id].healthy
    }

    method GetBackend(key: string, hint: string) returns (r: Result<Backend>)
      requires Valid()
      ensures r.Ok? ==> r.value in backends.Values && r.value.healthy && r.value.id in View().healthy
      ensures r.Err? ==> r.error == BackendUnhealthy
      ensures CanWrite(View(), key, hint, if r.Ok? then Some(r.value.id) else None)
    {
      ghost var v := View();
      ghost var healthy := v.healthy.Keys;
      if hint != "" {
        if hint in hintRoutes && |hintRoutes[hint]| > 0 {
          var ids := hintRoutes[hint];
          for i := 0 to |ids|
            invariant FirstHealthy(ids, healthy) == FirstHealthy(ids[i..], healthy)
          {
            if Offers(ids[i]) {
              return Ok(backends[ids[i]]);
            }
            assert ids[i..][1..] == ids[i + 1..];
          }
        }
      }
      assert FirstHealthy(HintIds(v, hint), healthy) == None;
      ghost var all := RuleIds(matcher, rules, key);
      for i := 0 to |rules|
        invariant FirstHealthy(all, healthy) == FirstHealthy(RuleIds(matcher, rules[i..], key), healthy)
      {
        var rule := rules[i];
        RuleIdsStep(matcher, rules, i, key);
        FirstHealthyStep(rule.backendId, RuleIds(matcher, rules[i + 1..], key), healthy);
        if Matches(matcher, rule, key) {
          if rule.strategy == Blacklist {
            continue;
          }
          if Offers(rule.backendId) {
            return Ok(backends[rule.backendId]);
          }
        }
      }
      r := GetFallbackBackend();
    }

    /** A heaviest healthy backend, whichever the map's iteration meets first. */
    method GetFallbackBackend() returns (r: Result<Backend>)
      requires Valid()
      ensures r.Err? ==> r.error == BackendUnhealthy && View().healthy == map[]
      ensures r.Ok? ==> r.value in backends.Values && r.value.healthy && r.value.id in View().healthy
      ensures r.Ok? ==> forall id | id in View().healthy :: View().healthy[id] <= r.value.weight
    {
      var best: Backend? := null;
      var rest := backends.Keys;
      while rest != {}
        invariant rest <= backends.Keys
        invariant best == null ==> forall id | id in backends.Keys - rest :: !backends[id].healthy
        invariant best != null ==> best in backends.Values && best.healthy
        invariant best != null ==>
          forall id | id in backends.Keys - rest && backends[id].healthy :: backends[id].weight <= best.weight
        decreases |rest|
      {
        var id :| id in rest;
        rest := rest - {id};
        if backends[id].healthy {
          if best == null || backends[id].weight > best.weight {
            best := backends[id];
          }
        }
      }
      if best != null {
        return Ok(best);
      }
      return Err(BackendUnhealthy);
    }

    /** The hint loop of GetBackendsForRead: append what is healthy and not yet seen. */
    method AppendHinted(ids: seq<string>, start: seq<Backend>, startSeen: set<string>)
      returns (route: seq<Backend>, seen: set<string>)
      requires Valid() && startSeen == Elements(Ids(start))
      ensures seen == Elements(Ids(route)) && start <= route
      ensures Ids(route) == Extend(Ids(start), ids, View().healthy.Keys)
    {
      ghost var healthy := View().healthy.Keys;
      route, seen := start, startSeen;
      for i := 0 to |ids|
        invariant seen == Elements(Ids(route)) && start <= route
        invariant Extend(Ids(route), ids[i..], healthy) == Extend(Ids(start), ids, healthy)
      {
        var id := ids[i];
        assert ids[i..][1..] == ids[i + 1..];
        if Offers(id) && id !in seen {
          assert Ids(route + [backends[id]]) == Ids(route) + [id];
          route := route + [backends[id]];
          seen := seen + {id};
        }
      }
    }

    /** The rule loop of GetBackendsForRead. */
    method AppendRuled(key: string, start: seq<Backend>, startSeen: set<string>)
      returns (route: seq<Backend>, seen: set<string>)
      requires Valid() && startSeen == Elements(Ids(start))
      ensures seen == Elements(Ids(route)) && start <= route
      ensures Ids(route) == Extend(Ids(start), RuleIds(matcher, rules, key), View().healthy.Keys)
    {
      ghost var healthy := View().healthy.Keys;
      ghost var goal := Extend(Ids(start), RuleIds(matcher, rules, key), healthy);
      route, seen := start, startSeen;
      assert rules[0..] == rules;
      for i := 0 to |rules|
        invariant seen == Elements(Ids(route)) && start <= route
        invariant Extend(Ids(route), RuleIds(matcher, rules[i..], key), healthy) == goal
      {
        var rule := rules[i];
        RuleIdsStep(matcher, rules, i, key);
        ExtendStep(Ids(route), rule.backendId, RuleIds(matcher, rules[i + 1..], key), healthy);
        if Matches(matcher, rule, key) {
          if rule.strategy == Blacklist {
            continue;
          }
          var id := rule.backendId;
          if Offers(id) && id !in seen {
            assert Ids(route + [backends[id]]) == Ids(route) + [id];
            route := route + [backends[id]];
            seen := seen + {id};
          }
        }
      }
    }

    /** The last loop of GetBackendsForRead: the other healthy backends, in the map's order. */
    method AppendRest(start: seq<Backend>, startSeen: set<string>) returns (route: seq<Backend>)
      requires Valid() && startSeen == Elements(Ids(start)) && NoDuplicates(Ids(start))
      requires Elements(Ids(start)) <= View().healthy.Keys
      ensures Ids(start) <= Ids(route) && NoDuplicates(Ids(route))
      ensures Elements(Ids(route)) == View().healthy.Keys
    {
      hide NoDuplicates, Elements;
      ghost var healthy := View().healthy.Keys;
      route := start;
      var seen := startSeen;
      var rest := backends.Keys;
      while rest != {}
        invariant rest <= backends.Keys && seen == Elements(Ids(route))
        invariant Ids(start) <= Ids(route) && NoDuplicates(Ids(route)) && Elements(Ids(route)) <= healthy
        invariant forall id | id in healthy && id !in rest :: id in seen
        decreases |rest|
      {
        var id :| id in rest;
        rest := rest - {id};
        if backends[id].healthy && id !in seen {
          AppendNew(Ids(route), id);
          assert Ids(route + [backends[id]]) == Ids(route) + [id];
          route := route + [backends[id]];
          seen := seen + {id};
        }
      }
    }

    method GetBackendsForRead(key: string, hint: string) returns (route: seq<Backend>)
      requires Valid()
      ensures CanRead(View(), key, hint, Ids(route))
    {
      hide Extend, RuleIds, NoDuplicates;
      ghost var healthy := View().healthy.Keys;
      var hinted := if hint != "" && hint in hintRoutes then hintRoutes[hint] else [];
      assert hinted == HintIds(View(), hint);
      var seen: set<string>;
      route, seen := AppendHinted(hinted, [], {});
      assert Ids([]) == [];
      ExtendGrows([], hinted, healthy);
      NothingRepeats();
      ExtendGrows(Ids(route), RuleIds(matcher, rules, key), healthy);
      route, seen := AppendRuled(key, route, seen);
      route := AppendRest(route, seen);
    }
  }

  lemma AppendNew(ids: seq<string>, id: string)
    requires NoDuplicates(ids) && id !in Elements(ids)
    ensures NoDuplicates(ids + [id]) && Elements(ids + [id]) == Elements(ids) + {id}
  {
    assert forall x | x in ids :: x in Elements(ids);
  }

  lemma NothingRepeats()
    ensures NoDuplicates<string>([])
  {}
}
