/** Clients' match rules mirrored onto the two buses by reference counts
    (src/match_rules.rs and the AddMatch, RemoveMatch and disconnect handlers of
    src/multiplexer.rs). Upstream AddMatch and RemoveMatch calls succeed. */
module Subscriptions {
  import opened Basics
  import opened Routing
  import opened NameQueues
  import opened MatchRules
  import opened MatchFilter

  type RuleKey = (Route, string)

  // ---- reference counts ----

  /** Stored counts, and the rules installed upstream. */
  datatype Refs = Refs(counts: map<RuleKey, nat>, installed: set<RuleKey>)

  function Count(r: Refs, k: RuleKey): nat { if k in r.counts then r.counts[k] else 0 }

  function Acquired(r: Refs, k: RuleKey): Refs {
    var n := Count(r, k) + 1;
    Refs(r.counts[k := n], if n == 1 then r.installed + {k} else r.installed)
  }

  function Dropped(r: Refs, k: RuleKey): Refs {
    if Count(r, k) == 0 then r
    else if Count(r, k) == 1 then Refs(r.counts - {k}, r.installed - {k})
    else r.(counts := r.counts[k := r.counts[k] - 1])
  }

  function AcquiredBoth(r: Refs, text: string): Refs { Acquired(Acquired(r, (Container, text)), (Host, text)) }

  function DroppedBoth(r: Refs, text: string): Refs { Dropped(Dropped(r, (Container, text)), (Host, text)) }

  function DroppedAll(r: Refs, texts: seq<string>): Refs
    decreases texts
  {
    if texts == [] then r else DroppedAll(DroppedBoth(r, texts[0]), texts[1..])
  }

  class MatchRuleRefCount {
    var counts: map<RuleKey, nat>
    var installed: set<RuleKey>  // what AddMatch and RemoveMatch left on the buses

    function Value(): Refs
      reads this
    {
      Refs(counts, installed)
    }

    constructor ()
      ensures Value() == Refs(map[], {})
    {
      counts, installed := map[], {};
    }

    /** Whether this is the first reference. */
    method Increment(bus: Route, rule: string) returns (first: bool)
      modifies this`counts
      ensures counts == Acquired(old(Value()), (bus, rule)).counts
      ensures first == (Count(old(Value()), (bus, rule)) == 0)
    {
      var key := (bus, rule);
      var count := if key in counts then counts[key] else 0;
      count := count + 1;
      counts := counts[key := count];
      first := count == 1;
    }

    /** Whether this was the last reference. */
    method Decrement(bus: Route, rule: string) returns (last: bool)
      modifies this`counts
      ensures counts == Dropped(old(Value()), (bus, rule)).counts
      ensures last == (Count(old(Value()), (bus, rule)) == 1)
    {
      var key := (bus, rule);
      if key in counts && counts[key] > 0 {
        var count := counts[key] - 1;
        counts := counts[key := count];
        if count == 0 {
          counts := counts - {key};
          assert counts == old(counts) - {key};
          return true;
        }
      }
      last := false;
    }

    /** Count a reference and call AddMatch on the bus for the first. */
    method Acquire(bus: Route, rule: string)
      modifies this
      ensures Value() == Acquired(old(Value()), (bus, rule))
    {
      var first := Increment(bus, rule);
      if first { installed := installed + {(bus, rule)}; }
    }

    /** Drop a reference and call RemoveMatch on the bus for the last. */
    method Drop(bus: Route, rule: string)
      modifies this
      ensures Value() == Dropped(old(Value()), (bus, rule))
    {
      var last := Decrement(bus, rule);
      if last { installed := installed - {(bus, rule)}; }
    }
  }

  // ---- a client's rules ----

  predicate Holds(rules: seq<MatchRule>, text: string) {
    exists i :: 0 <= i < |rules| && rules[i].ruleString == text
  }

  /** `ClientMatchRules::add` avoids duplicates. */
  function WithRule(rules: seq<MatchRule>, rule: MatchRule): seq<MatchRule> {
    if Holds(rules, rule.ruleString) then rules else rules + [rule]
  }

  function WithoutRule(rules: seq<MatchRule>, text: string): (r: seq<MatchRule>)
    ensures |r| <= |rules|
  {
    if rules == [] then []
    else if rules[0].ruleString == text then WithoutRule(rules[1..], text)
    else [rules[0]] + WithoutRule(rules[1..], text)
  }

  function RuleStrings(rules: seq<MatchRule>): (texts: seq<string>)
    ensures |texts| == |rules| && forall i :: 0 <= i < |texts| ==> texts[i] == rules[i].ruleString
  {
    seq(|rules|, i requires 0 <= i < |rules| => rules[i].ruleString)
  }

  predicate DistinctRules(rules: seq<MatchRule>) {
    forall i, j :: 0 <= i < j < |rules| ==> rules[i].ruleString != rules[j].ruleString
  }

  /** Destinations are ignored for a signal addressed to the multiplexer. */
  predicate Accepts(rule: MatchRule, msg: Message, unicast: bool) {
    if unicast then MatchesIgnoringDestination(rule, msg) else Matches(rule, msg)
  }

  /** `any` over the client's rules. */
  predicate ShouldForward(rules: seq<MatchRule>, msg: Message, unicast: bool) {
    exists i :: 0 <= i < |rules| && Accepts(rules[i], msg, unicast)
  }

  function Recipients(clients: map<ClientId, seq<MatchRule>>, msg: Message, unicast: bool): set<ClientId> {
    set c | c in clients && ShouldForward(clients[c], msg, unicast)
  }

  // ---- the steps ----

  datatype State = State(nextId: ClientId, clients: map<ClientId, seq<MatchRule>>, refs: Refs)

  datatype Step =
    | Connect
    | AddMatch(client: ClientId, text: string)
    | RemoveMatch(client: ClientId, text: string)
    | Disconnect(client: ClientId)

  const START := State(1, map[], Refs(map[], {}))

  function Next(s: State, step: Step): State {
    match step
    case Connect => s.(nextId := s.nextId + 1, clients := s.clients[s.nextId := []])
    case AddMatch(c, text) =>
      (match ParseRule(text)
       case Err(_) => s
       case Ok(rule) =>
         s.(clients := if c in s.clients then s.clients[c := WithRule(s.clients[c], rule)] else s.clients,
            refs := AcquiredBoth(s.refs, text)))
    case RemoveMatch(c, text) =>
      if c in s.clients && Holds(s.clients[c], text)
      then s.(clients := s.clients[c := WithoutRule(s.clients[c], text)], refs := DroppedBoth(s.refs, text))
      else s
    case Disconnect(c) =>
      if c in s.clients
      then s.(clients := s.clients - {c}, refs := DroppedAll(s.refs, RuleStrings(s.clients[c])))
      else s
  }

  class Multiplexer {
    var nextId: ClientId
    var clients: map<ClientId, seq<MatchRule>>
    const refCount: MatchRuleRefCount

    function Value(): State
      reads this, refCount
    {
      State(nextId, clients, refCount.Value())
    }

    constructor ()
      ensures Value() == START && fresh(refCount)
    {
      nextId, clients := 1, map[];
      refCount := new MatchRuleRefCount();
    }

    method HandleAddMatch(c: ClientId, ruleString: string) returns (r: Result<(), MatchRuleError>)
      modifies this, refCount
      ensures Value() == Next(old(Value()), AddMatch(c, ruleString))
      ensures r.Ok? <==> ParseRule(ruleString).Ok?
      ensures r.Err? ==> ParseRule(ruleString) == Err(r.error)
    {
      var rule := Parse(ruleString);
      if rule.Err? {
        return Err(rule.error);
      }
      if c in clients {
        clients := clients[c := WithRule(clients[c], rule.value)];
      }
      refCount.Acquire(Container, ruleString);
      refCount.Acquire(Host, ruleString);
      r := Ok(());
    }

    method HandleRemoveMatch(c: ClientId, ruleString: string) returns (found: bool)
      modifies this, refCount
      ensures Value() == Next(old(Value()), RemoveMatch(c, ruleString))
      ensures found <==> c in old(clients) && Holds(old(clients)[c], ruleString)
    {
      found := false;
      if c in clients {
        var rules := WithoutRule(clients[c], ruleString);
        WithoutRuleShrinks(clients[c], ruleString);
        found := |rules| < |clients[c]|;
        clients := clients[c := rules];
      }
      if !found {
        assert clients == old(clients);
        return;
      }
      refCount.Drop(Container, ruleString);
      refCount.Drop(Host, ruleString);
    }

    /** Signal forwarding, over the clients in any order. */
    method ForwardSignal(msg: Message, unicast: bool) returns (forwardedTo: set<ClientId>)
      ensures forwardedTo == Recipients(clients, msg, unicast)
    {
      forwardedTo := {};
      var todo := clients.Keys;
      while todo != {}
        invariant todo <= clients.Keys
        invariant forwardedTo == set c | c in clients && c !in todo && ShouldForward(clients[c], msg, unicast)
      {
        var c :| c in todo;
        if ShouldForward(clients[c], msg, unicast) {
          forwardedTo := forwardedTo + {c};
        }
        todo := todo - {c};
      }
    }

    method HandleDisconnect(c: ClientId)
      modifies this, refCount
      ensures Value() == Next(old(Value()), Disconnect(c))
    {
      var matchRules: seq<string> := [];
      if c in clients {
        matchRules := RuleStrings(clients[c]);
      }
      clients := clients - {c};
      assert c !in old(clients) ==> clients == old(clients);
      ghost var refs := refCount.Value();
      var i := 0;
      while i < |matchRules|
        invariant i <= |matchRules| && nextId == old(nextId) && clients == old(clients) - {c}
        invariant DroppedAll(refCount.Value(), matchRules[i..]) == DroppedAll(refs, matchRules)
      {
        assert matchRules[i..][0] == matchRules[i] && matchRules[i..][1..] == matchRules[i + 1..];
        refCount.Drop(Container, matchRules[i]);
        refCount.Drop(Host, matchRules[i]);
        i := i + 1;
      }
    }
  }

  // ---- facts about a client's rules ----

  lemma {:induction false} WithoutRuleShrinks(rules: seq<MatchRule>, text: string)
    ensures |WithoutRule(rules, text)| < |rules| <==> Holds(rules, text)
    ensures !Holds(rules, text) ==> WithoutRule(rules, text) == rules
  {
    if rules == [] {
    } else {
      var rest := rules[1..];
      WithoutRuleShrinks(rest, text);
      HoldsCons(rules, text);
      assert rules == [rules[0]] + rest;
    }
  }

  lemma HoldsCons(rules: seq<MatchRule>, text: string)
    requires rules != []
    ensures Holds(rules, text) <==> rules[0].ruleString == text || Holds(rules[1..], text)
  {
    if Holds(rules[1..], text) {
      var i :| 0 <= i < |rules[1..]| && rules[1..][i].ruleString == text;
      assert rules[i + 1].ruleString == text;
    }
    if Holds(rules, text) {
      var i :| 0 <= i < |rules| && rules[i].ruleString == text;
      if i > 0 { assert rules[1..][i - 1] == rules[i]; }
    }
  }

  lemma {:induction false} WithoutRuleHolds(rules: seq<MatchRule>, text: string, other: string)
    ensures Holds(WithoutRule(rules, text), other) <==> Holds(rules, other) && other != text
  {
    if rules == [] {
    } else {
      WithoutRuleHolds(rules[1..], text, other);
      HoldsCons(rules, other);
      var r := WithoutRule(rules, text);
      if rules[0].ruleString != text {
        HoldsCons(r, other);
        assert r[1..] == WithoutRule(rules[1..], text);
      }
    }
  }

  lemma {:induction false} WithoutRuleDistinct(rules: seq<MatchRule>, text: string)
    requires DistinctRules(rules)
    ensures DistinctRules(WithoutRule(rules, text))
  {
    if rules == [] {
    } else {
      var rest := rules[1..];
      WithoutRuleDistinct(rest, text);
      if rules[0].ruleString != text {
        var r := WithoutRule(rest, text);
        WithoutRuleHolds(rest, text, rules[0].ruleString);
        assert !Holds(rest, rules[0].ruleString) by {
          forall i | 0 <= i < |rest| ensures rest[i].ruleString != rules[0].ruleString {
            assert rest[i] == rules[i + 1];
          }
        }
        assert WithoutRule(rules, text) == [rules[0]] + r;
      }
    }
  }

  lemma WithRuleHolds(rules: seq<MatchRule>, rule: MatchRule, other: string)
    ensures Holds(WithRule(rules, rule), other) <==> Holds(rules, other) || other == rule.ruleString
    ensures DistinctRules(rules) ==> DistinctRules(WithRule(rules, rule))
  {
    var r := WithRule(rules, rule);
    if r != rules {
      assert r[|rules|] == rule;
      if Holds(rules, other) {
        var i :| 0 <= i < |rules| && rules[i].ruleString == other;
        assert r[i].ruleString == other;
      }
    }
  }

  // ---- facts about counts ----

  /** A rule is installed on a bus exactly when its stored count is at least 1, and no
      stored count is 0. */
  ghost predicate Mirrored(r: Refs) {
    r.installed == r.counts.Keys && forall k :: k in r.counts ==> r.counts[k] >= 1
  }

  lemma AcquiredCount(r: Refs, k: RuleKey, other: RuleKey)
    ensures Count(Acquired(r, k), other) == if other == k then Count(r, k) + 1 else Count(r, other)
    ensures Mirrored(r) ==> Mirrored(Acquired(r, k))
  {
  }

  lemma DroppedCount(r: Refs, k: RuleKey, other: RuleKey)
    ensures Count(Dropped(r, k), other) == if other == k && Count(r, k) > 0 then Count(r, k) - 1 else Count(r, other)
    ensures Mirrored(r) ==> Mirrored(Dropped(r, k))
  {
  }

  lemma AcquiredBothCount(r: Refs, text: string, bus: Route, other: string)
    ensures Count(AcquiredBoth(r, text), (bus, other)) == Count(r, (bus, other)) + if other == text then 1 else 0
    ensures Mirrored(r) ==> Mirrored(AcquiredBoth(r, text))
  {
    AcquiredCount(r, (Container, text), (bus, other));
    AcquiredCount(Acquired(r, (Container, text)), (Host, text), (bus, other));
    AcquiredCount(r, (Container, text), (Host, text));
  }

  function Minus(n: nat, one: bool): nat { if one && n > 0 then n - 1 else n }

  lemma DroppedBothCount(r: Refs, text: string, bus: Route, other: string)
    ensures Count(DroppedBoth(r, text), (bus, other)) == Minus(Count(r, (bus, other)), other == text)
    ensures Mirrored(r) ==> Mirrored(DroppedBoth(r, text))
  {
    DroppedCount(r, (Container, text), (bus, other));
    DroppedCount(Dropped(r, (Container, text)), (Host, text), (bus, other));
    DroppedCount(r, (Container, text), (Host, text));
  }

  lemma {:induction false} DroppedAllCount(r: Refs, rules: seq<MatchRule>, bus: Route, other: string)
    requires DistinctRules(rules)
    ensures Count(DroppedAll(r, RuleStrings(rules)), (bus, other)) == Minus(Count(r, (bus, other)), Holds(rules, other))
    ensures Mirrored(r) ==> Mirrored(DroppedAll(r, RuleStrings(rules)))
    decreases rules
  {
    if rules == [] {
    } else {
      var rest, first := rules[1..], DroppedBoth(r, rules[0].ruleString);
      assert RuleStrings(rules)[1..] == RuleStrings(rest);
      HoldsCons(rules, other);
      assert !Holds(rest, rules[0].ruleString) by {
        forall i | 0 <= i < |rest| ensures rest[i].ruleString != rules[0].ruleString {
          assert rest[i] == rules[i + 1];
        }
      }
      DroppedBothCount(r, rules[0].ruleString, bus, other);
      DroppedAllCount(first, rest, bus, other);
    }
  }
}
