/** When a rule applies to a key, which backend a write goes to, and in which order backends are read. */
module RouteDecisions {
  import opened Storage
  import opened Routing
  import Balance

  // ----- Single rules -----

  /** The part of an exact pattern that a key must start with: all of it but one trailing star. */
  predicate IsStem(stem: string, pattern: string) {
    pattern == stem + "*" || (pattern == stem && (stem == "" || stem[|stem| - 1] != '*'))
  }

  predicate Splits(hash: nat, q: nat, m: nat, r: nat) {
    hash == q * m + r && r < m
  }

  /** The hash leaves this remainder: mod is read as an unsigned number of 64 bits, and the remainder as a signed
      one. */
  ghost predicate Leaves(hash: Uint64, mod: Int64, remainder: int) {
    exists q: nat, m: nat, r: nat | Splits(hash, q, m, r) ::
      && m == (if mod >= 0 then mod else mod + 0x1_0000_0000_0000_0000)
      && remainder == if r < 0x8000_0000_0000_0000 then r else r - 0x1_0000_0000_0000_0000
  }

  /** The rule names its backend for this key. */
  ghost predicate Applies(m: Matcher, rule: Rule, key: string) {
    match rule.strategy
    case Exact => exists stem, rest :: IsStem(stem, rule.pattern) && key == stem + rest
    case Wildcard => m.wildcard(rule.pattern, key)
    case Whitelist => m.wildcard(rule.pattern, key)
    case Hash => Leaves(m.hash(key), rule.hashMod, rule.hashRemainder)
    case Blacklist => false
    case Unknown => false
  }

  lemma StemIsTrimmed(stem: string, pattern: string)
    ensures IsStem(stem, pattern) <==> stem == TrimStar(pattern)
  {
    if pattern != "" && pattern[|pattern| - 1] == '*' {
      assert pattern == pattern[..|pattern| - 1] + "*";
      assert pattern == stem + "*" ==> stem == pattern[..|pattern| - 1];
    } else {
      assert |stem + "*"| == |stem| + 1 && (stem + "*")[|stem|] == '*';
    }
  }

  function Unsigned(mod: Int64): nat {
    if mod >= 0 then mod else mod + WORD
  }

  function Signed(r: nat): int {
    if r < WORD / 2 then r else r - WORD
  }

  lemma SplitsOnce(hash: Uint64, mod: Int64, q: nat, r: nat)
    requires Splits(hash, q, Unsigned(mod), r)
    ensures mod != 0 && Remainder(hash, mod) == Signed(r)
  {
    Balance.DivMod(hash, q, r, Unsigned(mod));
  }

  lemma SplitsSome(hash: Uint64, mod: Int64) returns (q: nat, r: nat)
    requires mod != 0
    ensures Splits(hash, q, Unsigned(mod), r) && Remainder(hash, mod) == Signed(r)
  {
    q, r := hash / Unsigned(mod), hash % Unsigned(mod);
  }

  lemma LeavesIff(hash: Uint64, mod: Int64, remainder: int)
    ensures Leaves(hash, mod, remainder) <==> mod != 0 && Remainder(hash, mod) == remainder
  {
    hide Remainder, Splits;
    if mod != 0 {
      var q, r := SplitsSome(hash, mod);
    }
    if Leaves(hash, mod, remainder) {
      var q: nat, m: nat, r: nat :| Splits(hash, q, m, r) && m == Unsigned(mod) && remainder == Signed(r);
      SplitsOnce(hash, mod, q, r);
    }
  }

  /** A rule names its backend for exactly the keys it applies to; a blacklist rule names it for none. */
  lemma RoutesIff(m: Matcher, rule: Rule, key: string)
    ensures Routes(m, rule, key) <==> Applies(m, rule, key)
  {
    match rule.strategy
    case Exact =>
      var trimmed := TrimStar(rule.pattern);
      forall stem ensures IsStem(stem, rule.pattern) <==> stem == trimmed {
        StemIsTrimmed(stem, rule.pattern);
      }
      if trimmed <= key {
        assert key == trimmed + key[|trimmed|..];
      }
    case Hash => LeavesIff(m.hash(key), rule.hashMod, rule.hashRemainder);
    case _ =>
  }

  /** An exact rule with a stem and at most one star applies to exactly the keys that start with the stem. */
  lemma ExactIff(m: Matcher, rule: Rule, stem: string, key: string)
    requires rule.strategy == Exact
    requires rule.pattern == stem + "*" || (rule.pattern == stem && (stem == "" || stem[|stem| - 1] != '*'))
    ensures Routes(m, rule, key) <==> |stem| <= |key| && key[..|stem|] == stem
  {
    StemIsTrimmed(stem, rule.pattern);
  }

  // ----- Where a write goes -----

  /** Place n of the hinted backends, or else rule n less their number, names b. */
  ghost predicate Named(v: View, key: string, hint: string, n: nat, b: string) {
    if hint != "" && hint in v.hints then NamedAfter(v, key, v.hints[hint], n, b) else NamedAfter(v, key, [], n, b)
  }

  ghost predicate NamedAfter(v: View, key: string, hinted: seq<string>, n: nat, b: string) {
    if n < |hinted| then hinted[n] == b
    else
      && n - |hinted| < |v.rules|
      && Applies(v.matcher, v.rules[n - |hinted|], key) && v.rules[n - |hinted|].backendId == b
  }

  /** The first healthy backend that is named. */
  ghost predicate FirstNamed(v: View, key: string, hint: string, n: nat, b: string) {
    && Named(v, key, hint, n, b) && b in v.healthy
    && forall m: nat, c | m < n && Named(v, key, hint, m, c) :: c !in v.healthy
  }

  ghost predicate Heaviest(v: View, b: string) {
    b in v.healthy && forall c | c in v.healthy :: v.healthy[c] <= v.healthy[b]
  }

  ghost predicate NobodyNamed(v: View, key: string, hint: string) {
    forall n: nat, c | Named(v, key, hint, n, c) :: c !in v.healthy
  }

  lemma {:induction false} FirstRule(m: Matcher, rules: seq<Rule>, key: string, healthy: set<string>) returns (i: nat)
    ensures match FirstHealthy(RuleIds(m, rules, key), healthy)
      case None => forall j | 0 <= j < |rules| :: Applies(m, rules[j], key) ==> rules[j].backendId !in healthy
      case Some(b) =>
        && i < |rules| && Applies(m, rules[i], key) && rules[i].backendId == b && b in healthy
        && forall j | 0 <= j < i :: Applies(m, rules[j], key) ==> rules[j].backendId !in healthy
  {
    i := 0;
    if rules != [] {
      RoutesIff(m, rules[0], key);
      hide Applies, Routes;
      FirstHealthyStep(rules[0].backendId, RuleIds(m, rules[1..], key), healthy);
      if !(Routes(m, rules[0], key) && rules[0].backendId in healthy) {
        var k := FirstRule(m, rules[1..], key, healthy);
        i := k + 1;
        assert forall j | 1 <= j < |rules| :: rules[j] == rules[1..][j - 1];
      }
    }
  }

  lemma NamedIs(v: View, key: string, hint: string, n: nat, b: string)
    ensures Named(v, key, hint, n, b) <==> NamedAfter(v, key, HintIds(v, hint), n, b)
  {
    hide NamedAfter;
  }

  /** What a hint or a rule resolves to is the first healthy backend named. */
  lemma ResolvesTo(v: View, key: string, hint: string) returns (n: nat)
    ensures match Resolve(v, key, hint)
      case None => NobodyNamed(v, key, hint)
      case Some(b) => FirstNamed(v, key, hint, n, b)
  {
    var hinted := HintIds(v, hint);
    FirstHealthyIsFirst(hinted, v.healthy.Keys);
    var i := FirstRule(v.matcher, v.rules, key, v.healthy.Keys);
    hide Applies, Named;
    forall m, c ensures Named(v, key, hint, m, c) <==> NamedAfter(v, key, hinted, m, c) {
      NamedIs(v, key, hint, m, c);
    }
    match FirstHealthy(hinted, v.healthy.Keys)
    case None => n := |hinted| + i;
    case Some(b) =>
      var m :| 0 <= m < |hinted| && hinted[m] == b && forall j | 0 <= j < m :: hinted[j] !in v.healthy.Keys;
      n := m;
  }

  /** One place names one backend. */
  lemma NamesOne(v: View, key: string, hint: string, n: nat, b: string, c: string)
    requires Named(v, key, hint, n, b) && Named(v, key, hint, n, c)
    ensures b == c
  {
    hide Applies;
  }

  lemma FirstNamedOnce(v: View, key: string, hint: string, n: nat, b: string, m: nat, c: string)
    requires FirstNamed(v, key, hint, n, b) && FirstNamed(v, key, hint, m, c)
    ensures b == c
  {
    hide Named;
    if m == n {
      NamesOne(v, key, hint, n, b, c);
    }
  }

  /** A write may go to the first healthy backend that the hint, or then the rules in their order, name; to any
      healthy backend of maximal weight if they name none; and nowhere only if none is healthy. */
  lemma WritesIff(v: View, key: string, hint: string, r: Option<string>)
    ensures CanWrite(v, key, hint, r) <==>
      || (r.Some? && exists n: nat :: FirstNamed(v, key, hint, n, r.value))
      || (NobodyNamed(v, key, hint) && if r.Some? then Heaviest(v, r.value) else v.healthy == map[])
  {
    hide Named;
    var n := ResolvesTo(v, key, hint);
    if Resolve(v, key, hint).Some? && r.Some? {
      if m: nat :| FirstNamed(v, key, hint, m, r.value) {
        FirstNamedOnce(v, key, hint, n, Resolve(v, key, hint).value, m, r.value);
      }
    }
  }

  /** With one exact rule, to a healthy backend, and no hint, that backend is resolved for exactly the keys that
      start with the stem of its pattern. */
  lemma OneExactRule(v: View, rule: Rule, stem: string, key: string)
    requires v.rules == [rule] && rule.strategy == Exact && rule.backendId in v.healthy
    requires rule.pattern == stem + "*" || (rule.pattern == stem && (stem == "" || stem[|stem| - 1] != '*'))
    ensures Resolve(v, key, "") == (if |stem| <= |key| && key[..|stem|] == stem then Some(rule.backendId) else None)
  {
    ExactIff(v.matcher, rule, stem, key);
    hide Matches;
    RuleIdsStep(v.matcher, v.rules, 0, key);
    FirstHealthyStep(rule.backendId, [], v.healthy.Keys);
  }

  // ----- In which order backends are read -----

  ghost predicate NamedBefore(v: View, key: string, hint: string, n: nat, b: string) {
    exists m: nat :: m < n && Named(v, key, hint, m, b)
  }

  /** Wherever c is named, b has been named before. */
  ghost predicate Ahead(v: View, key: string, hint: string, b: string, c: string) {
    forall n: nat | Named(v, key, hint, n, c) :: NamedBefore(v, key, hint, n, b)
  }

  ghost predicate InOrder(v: View, key: string, hint: string, route: seq<string>) {
    forall i, j | 0 <= i < j < |route| :: Ahead(v, key, hint, route[i], route[j])
  }

  lemma {:induction false} ExtendAppend(route: seq<string>, xs: seq<string>, x: string, healthy: set<string>)
    ensures var e := Extend(route, xs, healthy);
      Extend(route, xs + [x], healthy) == if x in healthy && x !in e then e + [x] else e
    decreases |xs|
  {
    if xs == [] {
      assert xs + [x] == [x] && [x][1..] == [];
    } else {
      assert (xs + [x])[0] == xs[0] && (xs + [x])[1..] == xs[1..] + [x];
      ExtendAppend(if xs[0] in healthy && xs[0] !in route then route + [xs[0]] else route, xs[1..], x, healthy);
    }
  }

  lemma {:induction false} RuleIdsAppend(m: Matcher, rules: seq<Rule>, rule: Rule, key: string)
    ensures RuleIds(m, rules + [rule], key)
         == RuleIds(m, rules, key) + if Routes(m, rule, key) then [rule.backendId] else []
  {
    hide Routes;
    if rules == [] {
      assert rules + [rule] == [rule] && [rule][1..] == [];
    } else {
      assert (rules + [rule])[0] == rules[0] && (rules + [rule])[1..] == rules[1..] + [rule];
      RuleIdsAppend(m, rules[1..], rule, key);
    }
  }

  /** The route so far, after n places. */
  function Part(v: View, key: string, hint: string, n: nat): seq<string>
    requires n <= |HintIds(v, hint)| + |v.rules|
  {
    var hinted := HintIds(v, hint);
    if n <= |hinted| then Extend([], hinted[..n], v.healthy.Keys)
    else Extend(Extend([], hinted, v.healthy.Keys),
                RuleIds(v.matcher, v.rules[..n - |hinted|], key), v.healthy.Keys)
  }

  lemma HintStep(v: View, key: string, hint: string, n: nat) returns (b: Option<string>)
    requires n < |HintIds(v, hint)|
    ensures AddsTo(v, key, hint, n, Part(v, key, hint, n), b, Part(v, key, hint, n + 1))
  {
    var hinted, part := HintIds(v, hint), Part(v, key, hint, n);
    forall c ensures Named(v, key, hint, n, c) <==> NamedAfter(v, key, hinted, n, c) {
      NamedIs(v, key, hint, n, c);
    }
    hide Named, Applies, HintIds;
    assert hinted[..n + 1] == hinted[..n] + [hinted[n]];
    ExtendAppend([], hinted[..n], hinted[n], v.healthy.Keys);
    b := if hinted[n] in v.healthy && hinted[n] !in part then Some(hinted[n]) else None;
  }

  lemma RuleNames(v: View, key: string, hint: string, i: nat, b: string)
    requires i < |v.rules|
    ensures Named(v, key, hint, |HintIds(v, hint)| + i, b)
       <==> Routes(v.matcher, v.rules[i], key) && v.rules[i].backendId == b
  {
    NamedIs(v, key, hint, |HintIds(v, hint)| + i, b);
    RoutesIff(v.matcher, v.rules[i], key);
    hide Named, Applies, Routes, HintIds;
  }

  lemma RuleStep(v: View, key: string, hint: string, i: nat) returns (b: Option<string>)
    requires i < |v.rules|
    ensures var n := |HintIds(v, hint)| + i;
      AddsTo(v, key, hint, n, Part(v, key, hint, n), b, Part(v, key, hint, n + 1))
  {
    var hinted, rule := HintIds(v, hint), v.rules[i];
    var n, start := |hinted| + i, Extend([], hinted, v.healthy.Keys);
    var ids := RuleIds(v.matcher, v.rules[..i], key);
    assert v.rules[..i + 1] == v.rules[..i] + [rule];
    RuleIdsAppend(v.matcher, v.rules[..i], rule, key);
    PartAtRules(v, key, hint, i);
    PartAtRules(v, key, hint, i + 1);
    ExtendAppend(start, ids, rule.backendId, v.healthy.Keys);
    hide Named, Routes, Part, HintIds, Extend, RuleIds;
    forall c ensures Named(v, key, hint, n, c) <==> Routes(v.matcher, rule, key) && rule.backendId == c {
      RuleNames(v, key, hint, i, c);
    }
    var named := Routes(v.matcher, rule, key) && rule.backendId in v.healthy;
    b := if named && rule.backendId !in Extend(start, ids, v.healthy.Keys) then Some(rule.backendId) else None;
    assert ids + [] == ids;
  }

  /** Place n adds the backend it names, if that is healthy and new. */
  ghost predicate AddsTo(
    v: View, key: string, hint: string, n: nat, part: seq<string>, b: Option<string>, longer: seq<string>)
  {
    && (b.Some? ==> b.value in v.healthy && b.value !in part && Named(v, key, hint, n, b.value))
    && longer == part + (if b.Some? then [b.value] else [])
    && forall c | Named(v, key, hint, n, c) && c in v.healthy :: c in longer
  }

  lemma PartStep(v: View, key: string, hint: string, n: nat) returns (b: Option<string>)
    requires n < |HintIds(v, hint)| + |v.rules|
    ensures AddsTo(v, key, hint, n, Part(v, key, hint, n), b, Part(v, key, hint, n + 1))
  {
    hide Part, AddsTo, HintIds;
    if n < |HintIds(v, hint)| {
      b := HintStep(v, key, hint, n);
    } else {
      b := RuleStep(v, key, hint, n - |HintIds(v, hint)|);
    }
  }

  lemma PartAtRules(v: View, key: string, hint: string, i: nat)
    requires i <= |v.rules|
    ensures Part(v, key, hint, |HintIds(v, hint)| + i)
         == Extend(Extend([], HintIds(v, hint), v.healthy.Keys),
                   RuleIds(v.matcher, v.rules[..i], key), v.healthy.Keys)
  {
    if i == 0 {
      assert HintIds(v, hint)[..|HintIds(v, hint)|] == HintIds(v, hint);
    }
  }

  /** The route so far holds exactly the healthy backends named so far, each once and in the order in which they
      were first named. */
  ghost predicate Orderly(v: View, key: string, hint: string, n: nat, part: seq<string>) {
    && NoDuplicates(part)
    && (forall b | b in part :: b in v.healthy && NamedBefore(v, key, hint, n, b))
    && (forall b | NamedBefore(v, key, hint, n, b) && b in v.healthy :: b in part)
    && InOrder(v, key, hint, part)
  }

  lemma BeforeStep(v: View, key: string, hint: string, n: nat, b: string)
    ensures NamedBefore(v, key, hint, n + 1, b)
       <==> NamedBefore(v, key, hint, n, b) || Named(v, key, hint, n, b)
    ensures !NamedBefore(v, key, hint, 0, b)
  {
    hide Named;
  }

  lemma LastIsBehind(v: View, key: string, hint: string, n: nat, b: string, c: string)
    requires NamedBefore(v, key, hint, n, b) && !NamedBefore(v, key, hint, n, c)
    ensures Ahead(v, key, hint, b, c)
  {
    hide Named;
  }

  lemma OrderStep(v: View, key: string, hint: string, n: nat, part: seq<string>, b: string)
    requires Orderly(v, key, hint, n, part) && b in v.healthy && b !in part
    ensures InOrder(v, key, hint, part + [b])
  {
    hide NamedBefore, Ahead, NoDuplicates;
    var longer := part + [b];
    forall i, j | 0 <= i < j < |longer| ensures Ahead(v, key, hint, longer[i], longer[j]) {
      assert longer[i] == part[i];
      if j == |part| {
        assert part[i] in part;
        LastIsBehind(v, key, hint, n, part[i], b);
      } else {
        assert longer[j] == part[j];
      }
    }
  }

  lemma OrderlyStep(v: View, key: string, hint: string, n: nat, part: seq<string>, b: string)
    requires Orderly(v, key, hint, n, part) && b in v.healthy && b !in part && Named(v, key, hint, n, b)
    ensures Orderly(v, key, hint, n + 1, part + [b])
  {
    var longer := part + [b];
    OrderStep(v, key, hint, n, part, b);
    forall c ensures NamedBefore(v, key, hint, n + 1, c) <==> NamedBefore(v, key, hint, n, c) || c == b {
      hide Named;
      BeforeStep(v, key, hint, n, c);
      if Named(v, key, hint, n, c) {
        NamesOne(v, key, hint, n, b, c);
      }
    }
    hide NamedBefore, InOrder, Named;
  }

  lemma OrderlyStays(v: View, key: string, hint: string, n: nat, part: seq<string>)
    requires Orderly(v, key, hint, n, part)
    requires forall c | Named(v, key, hint, n, c) && c in v.healthy :: c in part
    ensures Orderly(v, key, hint, n + 1, part)
  {
    forall c ensures NamedBefore(v, key, hint, n + 1, c)
                <==> NamedBefore(v, key, hint, n, c) || Named(v, key, hint, n, c)
    {
      BeforeStep(v, key, hint, n, c);
    }
    hide NamedBefore, Named, InOrder, NoDuplicates;
  }

  lemma StartIsOrderly(v: View, key: string, hint: string)
    ensures Orderly(v, key, hint, 0, Part(v, key, hint, 0))
  {
    hide Named, HintIds;
    assert HintIds(v, hint)[..0] == [];
  }

  lemma {:induction false} PartIsOrderly(v: View, key: string, hint: string, n: nat)
    requires n <= |HintIds(v, hint)| + |v.rules|
    ensures Orderly(v, key, hint, n, Part(v, key, hint, n))
  {
    hide HintIds, Part, Named, Orderly;
    if n == 0 {
      StartIsOrderly(v, key, hint);
    } else {
      PartIsOrderly(v, key, hint, n - 1);
      var part := Part(v, key, hint, n - 1);
      var b := PartStep(v, key, hint, n - 1);
      if b.Some? {
        OrderlyStep(v, key, hint, n - 1, part, b.value);
      } else {
        assert Part(v, key, hint, n) == part;
        OrderlyStays(v, key, hint, n - 1, part);
      }
    }
  }

  /** The part of a read route that hints and rules determine is orderly up to the last rule. */
  lemma PrefixIsOrderly(v: View, key: string, hint: string)
    ensures Orderly(v, key, hint, |HintIds(v, hint)| + |v.rules|, ReadPrefix(v, key, hint))
    ensures forall n: nat, b | Named(v, key, hint, n, b) :: n < |HintIds(v, hint)| + |v.rules|
  {
    PartAtRules(v, key, hint, |v.rules|);
    assert v.rules[..|v.rules|] == v.rules;
    PartIsOrderly(v, key, hint, |HintIds(v, hint)| + |v.rules|);
    forall n: nat, b | Named(v, key, hint, n, b) ensures n < |HintIds(v, hint)| + |v.rules| {
      NamedIs(v, key, hint, n, b);
    }
  }

  /** Of two backends, if each is always named behind the other, neither is named. */
  lemma {:induction false} NeverNamed(v: View, key: string, hint: string, b: string, c: string, n: nat)
    requires Ahead(v, key, hint, b, c) && Ahead(v, key, hint, c, b)
    ensures !NamedBefore(v, key, hint, n, b)
    decreases n
  {
    hide Named;
    if NamedBefore(v, key, hint, n, b) {
      var m: nat :| m < n && Named(v, key, hint, m, b);
      NeverNamed(v, key, hint, c, b, m);
    }
  }

  /** Two lists that agree up to p have their next elements no earlier than p. */
  lemma NoEarlier(xs: seq<string>, ys: seq<string>, p: nat, q: nat)
    requires NoDuplicates(xs) && p < |xs| && p < |ys| && q < |ys| && ys[q] == xs[p]
    requires forall i | 0 <= i < p :: xs[i] == ys[i]
    ensures q >= p
  {}

  lemma InFront(v: View, key: string, hint: string, route: seq<string>, i: nat, j: nat)
    requires InOrder(v, key, hint, route) && i < j < |route|
    ensures Ahead(v, key, hint, route[i], route[j])
  {
    hide Ahead;
  }

  /** A full route in order goes on as the orderly part does. */
  lemma NextAgrees(
    v: View, key: string, hint: string, n: nat, part: seq<string>, route: seq<string>, p: nat)
    requires Orderly(v, key, hint, n, part) && p < |part| <= |route|
    requires NoDuplicates(route) && Elements(route) == v.healthy.Keys && InOrder(v, key, hint, route)
    requires forall i | 0 <= i < p :: part[i] == route[i]
    ensures part[p] == route[p]
  {
    hide NamedBefore, Ahead, Named, InOrder, NoDuplicates;
    var b, c := part[p], route[p];
    assert b in part && b in Elements(route) && c in Elements(route);
    var q: nat :| q < |route| && route[q] == b;
    NoEarlier(part, route, p, q);
    if q > p {
      InFront(v, key, hint, route, p, q);
      NamedSooner(v, key, hint, n, b, c);
      assert c in part;
      var r: nat :| r < |part| && part[r] == c;
      NoEarlier(route, part, p, r);
      if r > p {
        InFront(v, key, hint, part, p, r);
        NeverNamed(v, key, hint, b, c, n);
        assert false;
      }
    }
  }

  lemma NamedSooner(v: View, key: string, hint: string, n: nat, b: string, c: string)
    requires NamedBefore(v, key, hint, n, b) && Ahead(v, key, hint, c, b)
    ensures NamedBefore(v, key, hint, n, c)
  {
    hide Named;
  }

  lemma {:induction false} OrderedStartsWith(
    v: View, key: string, hint: string, n: nat, part: seq<string>, route: seq<string>, p: nat)
    requires Orderly(v, key, hint, n, part) && p <= |part| <= |route|
    requires NoDuplicates(route) && Elements(route) == v.healthy.Keys && InOrder(v, key, hint, route)
    ensures forall i | 0 <= i < p :: part[i] == route[i]
  {
    if p > 0 {
      hide Orderly, Named, InOrder, NoDuplicates;
      OrderedStartsWith(v, key, hint, n, part, route, p - 1);
      NextAgrees(v, key, hint, n, part, route, p - 1);
    }
  }

  lemma NoLonger(part: seq<string>, route: seq<string>)
    requires NoDuplicates(part) && NoDuplicates(route) && Elements(part) <= Elements(route)
    ensures |part| <= |route|
  {
    DistinctCount(part);
    DistinctCount(route);
    Fewer(Elements(part), Elements(route));
  }

  lemma Fewer(xs: set<string>, ys: set<string>)
    requires xs <= ys
    ensures |xs| <= |ys|
  {
    assert ys == xs + (ys - xs);
  }

  lemma PrefixOrdersRoute(
    v: View, key: string, hint: string, n: nat, part: seq<string>, route: seq<string>, i: nat, j: nat)
    requires Orderly(v, key, hint, n, part) && part <= route && i < j < |route|
    requires NoDuplicates(route) && Elements(route) == v.healthy.Keys
    requires NamedBefore(v, key, hint, n, route[j])
    ensures Ahead(v, key, hint, route[i], route[j])
  {
    hide NamedBefore, Ahead;
    assert route[j] in Elements(route);
    assert route[j] in part;
    var q :| 0 <= q < |part| && part[q] == route[j];
    assert route[q] == part[q];
    assert q == j;
    assert part[i] == route[i];
  }

  lemma UnnamedIsBehind(v: View, key: string, hint: string, n: nat, b: string, c: string)
    requires forall m: nat, x | Named(v, key, hint, m, x) :: m < n
    requires !NamedBefore(v, key, hint, n, c)
    ensures Ahead(v, key, hint, b, c)
  {
    hide Named;
  }

  /** A read route lists every healthy backend once, in the order in which the hint and then the rules first name
      them, with the backends that are named by neither behind them in any order. */
  lemma ReadsIff(v: View, key: string, hint: string, route: seq<string>)
    ensures CanRead(v, key, hint, route)
       <==> NoDuplicates(route) && Elements(route) == v.healthy.Keys && InOrder(v, key, hint, route)
  {
    PrefixIsOrderly(v, key, hint);
    var n, part := |HintIds(v, hint)| + |v.rules|, ReadPrefix(v, key, hint);
    if CanRead(v, key, hint, route) {
      hide Named, ReadPrefix, HintIds, NoDuplicates, Orderly, NamedBefore, Ahead;
      forall i, j | 0 <= i < j < |route| ensures Ahead(v, key, hint, route[i], route[j]) {
        if NamedBefore(v, key, hint, n, route[j]) {
          PrefixOrdersRoute(v, key, hint, n, part, route, i, j);
        } else {
          UnnamedIsBehind(v, key, hint, n, route[i], route[j]);
        }
      }
    } else if NoDuplicates(route) && Elements(route) == v.healthy.Keys && InOrder(v, key, hint, route) {
      hide Named, ReadPrefix, HintIds, NoDuplicates, InOrder;
      assert Elements(part) <= v.healthy.Keys;
      NoLonger(part, route);
      hide Orderly;
      OrderedStartsWith(v, key, hint, n, part, route, |part|);
      assert false;
    }
  }
}
