/** What the reference counts amount to over every run of connects, adds, removes and
    disconnects. */
module SubscriptionLaws {
  import opened Basics
  import opened Routing
  import opened NameQueues
  import opened MatchRules
  import opened MatchFilter
  import opened Subscriptions
  import MatchRuleText
  import MatchMeaning

  function After(steps: seq<Step>): State {
    if steps == [] then START else var n := |steps| - 1; Next(After(steps[..n]), steps[n])
  }

  function Holders(clients: map<ClientId, seq<MatchRule>>, text: string): set<ClientId> {
    set c | c in clients && Holds(clients[c], text)
  }

  /** An accepted AddMatch that gives no client the rule: the caller holds it already,
      or has gone. */
  predicate Redundant(s: State, step: Step, text: string) {
    step.AddMatch? && step.text == text && ParseRule(text).Ok?
    && (step.client in s.clients ==> Holds(s.clients[step.client], text))
  }

  function RedundantAdds(steps: seq<Step>, text: string): nat {
    if steps == [] then 0
    else
      var n := |steps| - 1;
      RedundantAdds(steps[..n], text) + if Redundant(After(steps[..n]), steps[n], text) then 1 else 0
  }

  ghost predicate Inv(s: State) {
    && Mirrored(s.refs)
    && (forall c :: c in s.clients ==> DistinctRules(s.clients[c]) && c < s.nextId)
  }

  // ---- one step ----

  lemma HoldersUpdate(clients: map<ClientId, seq<MatchRule>>, c: ClientId, rules: seq<MatchRule>, text: string)
    ensures Holders(clients[c := rules], text) ==
            if Holds(rules, text) then Holders(clients, text) + {c} else Holders(clients, text) - {c}
  {
  }

  function Adding(s: State, c: ClientId, rule: MatchRule): State {
    s.(clients := if c in s.clients then s.clients[c := WithRule(s.clients[c], rule)] else s.clients,
       refs := AcquiredBoth(s.refs, rule.ruleString))
  }

  lemma AddingHolders(s: State, c: ClientId, rule: MatchRule, other: string)
    requires c in s.clients
    ensures Holders(Adding(s, c, rule).clients, other) ==
            if other == rule.ruleString then Holders(s.clients, other) + {c} else Holders(s.clients, other)
  {
    WithRuleHolds(s.clients[c], rule, other);
    HoldersUpdate(s.clients, c, WithRule(s.clients[c], rule), other);
    HoldersUpdate(s.clients, c, s.clients[c], other);
    assert s.clients[c := s.clients[c]] == s.clients;
  }

  lemma AddingCount(s: State, c: ClientId, rule: MatchRule, bus: Route, other: string, extra: nat)
    requires Inv(s) && Count(s.refs, (bus, other)) == |Holders(s.clients, other)| + extra
    ensures var t := Adding(s, c, rule);
            && Inv(t)
            && Count(t.refs, (bus, other)) == |Holders(t.clients, other)| + extra
               + if other == rule.ruleString && (c in s.clients ==> Holds(s.clients[c], other)) then 1 else 0
  {
    AcquiredBothCount(s.refs, rule.ruleString, bus, other);
    if c in s.clients {
      AddingHolders(s, c, rule, other);
      WithRuleHolds(s.clients[c], rule, other);
      var held := Holders(s.clients, other);
      assert c in held <==> Holds(s.clients[c], other);
      assert c in held ==> held + {c} == held;
    }
  }

  lemma AddKeepsCount(s: State, c: ClientId, text: string, bus: Route, other: string, extra: nat)
    requires Inv(s) && Count(s.refs, (bus, other)) == |Holders(s.clients, other)| + extra
    ensures var t := Next(s, AddMatch(c, text));
            && Inv(t)
            && Count(t.refs, (bus, other)) == |Holders(t.clients, other)| + extra
               + if Redundant(s, AddMatch(c, text), other) then 1 else 0
  {
    if ParseRule(text).Ok? {
      AcceptedRuleInRange(text);
      AddingCount(s, c, ParseRule(text).value, bus, other, extra);
    }
  }

  lemma RemovingHolders(clients: map<ClientId, seq<MatchRule>>, c: ClientId, text: string, other: string)
    requires c in clients && Holds(clients[c], text)
    ensures Holders(clients[c := WithoutRule(clients[c], text)], other) ==
            if other == text then Holders(clients, other) - {c} else Holders(clients, other)
    ensures c in Holders(clients, text)
  {
    WithoutRuleHolds(clients[c], text, other);
    HoldersUpdate(clients, c, WithoutRule(clients[c], text), other);
    HoldersUpdate(clients, c, clients[c], other);
    assert clients[c := clients[c]] == clients;
  }

  lemma RemoveKeepsCount(s: State, c: ClientId, text: string, bus: Route, other: string, extra: nat)
    requires Inv(s) && Count(s.refs, (bus, other)) == |Holders(s.clients, other)| + extra
    ensures var t := Next(s, RemoveMatch(c, text));
            Inv(t) && Count(t.refs, (bus, other)) == |Holders(t.clients, other)| + extra
  {
    var t := Next(s, RemoveMatch(c, text));
    if c in s.clients && Holds(s.clients[c], text) {
      DroppedBothCount(s.refs, text, bus, other);
      WithoutRuleDistinct(s.clients[c], text);
      RemovingHolders(s.clients, c, text, other);
    }
  }

  lemma DisconnectKeepsCount(s: State, c: ClientId, bus: Route, other: string, extra: nat)
    requires Inv(s) && Count(s.refs, (bus, other)) == |Holders(s.clients, other)| + extra
    ensures var t := Next(s, Disconnect(c));
            Inv(t) && Count(t.refs, (bus, other)) == |Holders(t.clients, other)| + extra
  {
    var t := Next(s, Disconnect(c));
    if c in s.clients {
      DroppedAllCount(s.refs, s.clients[c], bus, other);
      assert Holders(t.clients, other) == Holders(s.clients, other) - {c};
      assert Holds(s.clients[c], other) <==> c in Holders(s.clients, other);
    }
  }

  lemma ConnectKeepsCount(s: State, other: string)
    requires Inv(s)
    ensures var t := Next(s, Connect); Inv(t) && Holders(t.clients, other) == Holders(s.clients, other)
  {
  }

  // ---- runs ----

  /** In every run, on each bus, a rule's count is the number of connected clients
      holding it plus the number of redundant adds of it so far; a rule is installed
      exactly when its count is at least 1, and no stored count is 0. */
  lemma {:induction false} CountsAreHoldersPlusRedundantAdds(steps: seq<Step>, bus: Route, text: string)
    ensures Inv(After(steps))
    ensures Count(After(steps).refs, (bus, text)) == |Holders(After(steps).clients, text)| + RedundantAdds(steps, text)
  {
    if steps == [] {
    } else {
      var n := |steps| - 1;
      var s, extra := After(steps[..n]), RedundantAdds(steps[..n], text);
      CountsAreHoldersPlusRedundantAdds(steps[..n], bus, text);
      match steps[n]
      case Connect => ConnectKeepsCount(s, text);
      case AddMatch(c, added) => AddKeepsCount(s, c, added, bus, text, extra);
      case RemoveMatch(c, removed) => RemoveKeepsCount(s, c, removed, bus, text, extra);
      case Disconnect(c) => DisconnectKeepsCount(s, c, bus, text, extra);
    }
  }

  /** A rule is never withdrawn from either bus while a client holds it; the two buses
      always agree; and a rule nobody holds is gone from the buses exactly when no add of
      it was redundant. */
  lemma RulesMirroredWhileHeld(steps: seq<Step>, text: string)
    ensures var s := After(steps);
            && Count(s.refs, (Container, text)) == Count(s.refs, (Host, text))
            && (Holders(s.clients, text) != {} ==>
                  (Container, text) in s.refs.installed && (Host, text) in s.refs.installed)
            && (Holders(s.clients, text) == {} ==>
                  ((Container, text) in s.refs.installed <==> RedundantAdds(steps, text) > 0))
            && (Count(s.refs, (Container, text)) == |Holders(s.clients, text)| <==> RedundantAdds(steps, text) == 0)
  {
    CountsAreHoldersPlusRedundantAdds(steps, Container, text);
    CountsAreHoldersPlusRedundantAdds(steps, Host, text);
    var s := After(steps);
    assert (Container, text) in s.refs.installed <==> Count(s.refs, (Container, text)) >= 1;
    assert (Host, text) in s.refs.installed <==> Count(s.refs, (Host, text)) >= 1;
  }

  // ---- who is connected and holds what, by the steps taken ----

  function Connects(steps: seq<Step>): nat {
    if steps == [] then 0
    else var n := |steps| - 1; Connects(steps[..n]) + if steps[n] == Connect then 1 else 0
  }

  lemma {:induction false} IdsCountConnects(steps: seq<Step>)
    ensures After(steps).nextId == 1 + Connects(steps)
    ensures forall c :: c in After(steps).clients ==> c < After(steps).nextId
  {
    if steps == [] {
    } else {
      IdsCountConnects(steps[..|steps| - 1]);
    }
  }

  /** What the step at `i` began still lasts: no later step ends it. */
  ghost predicate Lasts(steps: seq<Step>, i: nat, ends: Step -> bool) {
    forall j :: i < j < |steps| ==> !ends(steps[j])
  }

  lemma LastsStep(steps: seq<Step>, i: nat, ends: Step -> bool)
    requires i < |steps| - 1
    ensures var n := |steps| - 1; Lasts(steps, i, ends) <==> Lasts(steps[..n], i, ends) && !ends(steps[n])
  {
  }

  function Leaves(c: ClientId): Step -> bool { step => step == Disconnect(c) }

  function Drops(c: ClientId, text: string): Step -> bool {
    step => step == RemoveMatch(c, text) || step == Disconnect(c)
  }

  /** The step gives the client its id. */
  ghost predicate Admits(before: seq<Step>, step: Step, c: ClientId) {
    step == Connect && c == 1 + Connects(before)
  }

  /** The step gives the connected client the rule. */
  ghost predicate Gives(before: seq<Step>, step: Step, c: ClientId, text: string) {
    step == AddMatch(c, text) && ParseRule(text).Ok? && c in After(before).clients
  }

  /** The client was admitted at `i` and has not disconnected since. */
  ghost predicate ConnectedSince(steps: seq<Step>, c: ClientId, i: nat) {
    i < |steps| && Admits(steps[..i], steps[i], c) && Lasts(steps, i, Leaves(c))
  }

  /** The client was given the rule at `i`, and has neither removed it nor gone. */
  ghost predicate HeldSince(steps: seq<Step>, c: ClientId, text: string, i: nat) {
    i < |steps| && Gives(steps[..i], steps[i], c, text) && Lasts(steps, i, Drops(c, text))
  }

  lemma ConnectedStep(steps: seq<Step>, c: ClientId, i: nat)
    requires i < |steps| - 1
    ensures var n := |steps| - 1;
            ConnectedSince(steps, c, i) <==> ConnectedSince(steps[..n], c, i) && steps[n] != Disconnect(c)
  {
    assert steps[..|steps| - 1][..i] == steps[..i];
    LastsStep(steps, i, Leaves(c));
  }

  lemma HeldStep(steps: seq<Step>, c: ClientId, text: string, i: nat)
    requires i < |steps| - 1
    ensures var n := |steps| - 1;
            HeldSince(steps, c, text, i)
            <==> HeldSince(steps[..n], c, text, i) && steps[n] != RemoveMatch(c, text) && steps[n] != Disconnect(c)
  {
    var before := steps[..|steps| - 1];
    assert before[..i] == steps[..i] && before[i] == steps[i];
    LastsStep(steps, i, Drops(c, text));
  }

  lemma ConnectedAfter(steps: seq<Step>, step: Step, c: ClientId)
    ensures c in Next(After(steps), step).clients <==>
            Admits(steps, step, c) || (c in After(steps).clients && step != Disconnect(c))
  {
    IdsCountConnects(steps);
  }

  /** A client is connected exactly from the connect that gave it its id to its disconnect. */
  lemma {:induction false} ConnectedIff(steps: seq<Step>, c: ClientId)
    ensures c in After(steps).clients <==> exists i: nat :: ConnectedSince(steps, c, i)
  {
    if steps == [] {
    } else {
      var n := |steps| - 1;
      var before := steps[..n];
      ConnectedIff(before, c);
      ConnectedAfter(before, steps[n], c);
      forall i: nat | i < n
        ensures ConnectedSince(steps, c, i) <==> ConnectedSince(before, c, i) && steps[n] != Disconnect(c)
      {
        ConnectedStep(steps, c, i);
      }
      assert ConnectedSince(steps, c, n) <==> Admits(before, steps[n], c);
    }
  }

  predicate HeldBy(s: State, c: ClientId, text: string) { c in s.clients && Holds(s.clients[c], text) }

  lemma HoldsAfter(s: State, step: Step, c: ClientId, text: string)
    requires Inv(s)
    ensures HeldBy(Next(s, step), c, text) <==>
            || (step == AddMatch(c, text) && ParseRule(text).Ok? && c in s.clients)
            || (HeldBy(s, c, text) && step != RemoveMatch(c, text) && step != Disconnect(c))
  {
    match step
    case Connect =>
    case AddMatch(d, other) =>
      if d in s.clients && ParseRule(other).Ok? {
        AcceptedRuleInRange(other);
        WithRuleHolds(s.clients[d], ParseRule(other).value, text);
      }
    case RemoveMatch(d, other) =>
      if d in s.clients { WithoutRuleHolds(s.clients[d], other, text); }
    case Disconnect(d) =>
  }

  lemma HeldSinceStep(steps: seq<Step>, c: ClientId, text: string)
    requires steps != []
    ensures var n := |steps| - 1;
            (exists i: nat :: HeldSince(steps, c, text, i)) <==>
            || Gives(steps[..n], steps[n], c, text)
            || ((exists i: nat :: HeldSince(steps[..n], c, text, i))
                && steps[n] != RemoveMatch(c, text) && steps[n] != Disconnect(c))
  {
    var n := |steps| - 1;
    forall i: nat | i < n
      ensures HeldSince(steps, c, text, i)
              <==> HeldSince(steps[..n], c, text, i) && steps[n] != RemoveMatch(c, text) && steps[n] != Disconnect(c)
    {
      HeldStep(steps, c, text, i);
    }
    assert HeldSince(steps, c, text, n) <==> Gives(steps[..n], steps[n], c, text);
  }

  /** A client holds a rule exactly from an accepted AddMatch of its text, made while
      connected, to its RemoveMatch or the client's disconnect. */
  lemma {:induction false} HoldsIff(steps: seq<Step>, c: ClientId, text: string)
    ensures HeldBy(After(steps), c, text) <==> exists i: nat :: HeldSince(steps, c, text, i)
  {
    if steps == [] {
    } else {
      var n := |steps| - 1;
      HoldsIff(steps[..n], c, text);
      CountsAreHoldersPlusRedundantAdds(steps[..n], Host, text);
      HoldsAfter(After(steps[..n]), steps[n], c, text);
      HeldSinceStep(steps, c, text);
    }
  }

  // ---- delivery ----

  /** Every held rule is the parse of its own text. */
  ghost predicate IsParse(rule: MatchRule) { ParseRule(rule.ruleString) == Ok(rule) }

  ghost predicate Parsed(rules: seq<MatchRule>) {
    forall i :: 0 <= i < |rules| ==> IsParse(rules[i])
  }

  lemma {:induction false} WithoutRuleKeeps(rules: seq<MatchRule>, text: string, such: MatchRule -> bool)
    requires forall i :: 0 <= i < |rules| ==> such(rules[i])
    ensures forall i :: 0 <= i < |WithoutRule(rules, text)| ==> such(WithoutRule(rules, text)[i])
  {
    if rules == [] {
    } else {
      WithoutRuleKeeps(rules[1..], text, such);
    }
  }

  lemma WithoutRuleParsed(rules: seq<MatchRule>, text: string)
    requires Parsed(rules)
    ensures Parsed(WithoutRule(rules, text))
  {
    WithoutRuleKeeps(rules, text, rule => IsParse(rule));
  }

  lemma AcceptedIsParse(text: string)
    requires ParseRule(text).Ok?
    ensures IsParse(ParseRule(text).value)
  {
    AcceptedRuleInRange(text);
  }

  lemma WithRuleParsed(rules: seq<MatchRule>, rule: MatchRule)
    requires Parsed(rules) && IsParse(rule)
    ensures Parsed(WithRule(rules, rule))
  {
  }

  ghost predicate AllParsed(clients: map<ClientId, seq<MatchRule>>) {
    forall c :: c in clients ==> Parsed(clients[c])
  }

  lemma AddingParsed(s: State, d: ClientId, rule: MatchRule)
    requires AllParsed(s.clients) && IsParse(rule)
    ensures AllParsed(Adding(s, d, rule).clients)
  {
    if d in s.clients { WithRuleParsed(s.clients[d], rule); }
  }

  lemma AddParsed(s: State, d: ClientId, text: string)
    requires AllParsed(s.clients)
    ensures AllParsed(Next(s, AddMatch(d, text)).clients)
  {
    if ParseRule(text).Ok? {
      AcceptedIsParse(text);
      AddingParsed(s, d, ParseRule(text).value);
    }
  }

  lemma RemoveParsed(s: State, d: ClientId, text: string)
    requires AllParsed(s.clients)
    ensures AllParsed(Next(s, RemoveMatch(d, text)).clients)
  {
    if d in s.clients { WithoutRuleParsed(s.clients[d], text); }
  }

  lemma {:induction false} RunParsed(steps: seq<Step>)
    ensures AllParsed(After(steps).clients)
  {
    if steps == [] {
    } else {
      var n := |steps| - 1;
      var s := After(steps[..n]);
      RunParsed(steps[..n]);
      match steps[n]
      case Connect =>
      case AddMatch(d, text) => AddParsed(s, d, text);
      case RemoveMatch(d, text) => RemoveParsed(s, d, text);
      case Disconnect(d) =>
    }
  }

  /** The text of a rule the client holds, whose parse the message satisfies. */
  predicate SubscribedBy(rules: seq<MatchRule>, text: string, msg: Message, unicast: bool) {
    Holds(rules, text) && ParseRule(text).Ok? && Accepts(ParseRule(text).value, msg, unicast)
  }

  lemma SubscribedIff(rules: seq<MatchRule>, msg: Message, unicast: bool)
    requires Parsed(rules)
    ensures ShouldForward(rules, msg, unicast) <==> exists text :: SubscribedBy(rules, text, msg, unicast)
  {
    if ShouldForward(rules, msg, unicast) {
      var i :| 0 <= i < |rules| && Accepts(rules[i], msg, unicast);
      assert IsParse(rules[i]);
      assert SubscribedBy(rules, rules[i].ruleString, msg, unicast);
    }
    forall text | SubscribedBy(rules, text, msg, unicast) ensures ShouldForward(rules, msg, unicast) {
      var i :| 0 <= i < |rules| && rules[i].ruleString == text;
      assert IsParse(rules[i]);
    }
  }

  /** After any run a signal goes to exactly the connected clients holding a rule text
      whose parse it satisfies, and each such rule is installed on both buses. */
  lemma SignalReachesExactlySubscribers(steps: seq<Step>, msg: Message, unicast: bool, c: ClientId)
    ensures var s := After(steps);
            && (c in Recipients(s.clients, msg, unicast) <==>
                c in s.clients && exists text :: SubscribedBy(s.clients[c], text, msg, unicast))
            && (forall text :: c in s.clients && SubscribedBy(s.clients[c], text, msg, unicast) ==>
                (Container, text) in s.refs.installed && (Host, text) in s.refs.installed)
  {
    var s := After(steps);
    if c in s.clients {
      RunParsed(steps);
      SubscribedIff(s.clients[c], msg, unicast);
      forall text | SubscribedBy(s.clients[c], text, msg, unicast)
        ensures (Container, text) in s.refs.installed && (Host, text) in s.refs.installed
      {
        assert c in Holders(s.clients, text);
        RulesMirroredWhileHeld(steps, text);
      }
    }
  }

  /** A rule text as a client writes it down: pairs and trailing whitespace. */
  datatype Written = Written(items: seq<MatchRuleText.Item>, trail: string)

  ghost predicate Writes(w: Written, text: string) {
    && MatchRuleText.AllPrintable(w.items) && MatchRuleText.Linked(w.items) && MatchRuleText.Blank(w.trail)
    && text == MatchRuleText.Print(w.items) + w.trail
  }

  lemma SubscribedMeans(rules: seq<MatchRule>, text: string, w: Written, msg: Message, unicast: bool)
    requires Holds(rules, text) && Writes(w, text)
    ensures SubscribedBy(rules, text, msg, unicast) <==> MatchMeaning.Meets(w.items, msg, unicast)
  {
    MatchMeaning.TextMatchesIff(w.items, w.trail, msg);
  }

  /** From rule texts to recipients: after any run, a client whose rules were written down
      in this way is sent a signal exactly if the signal satisfies, for one of the rules it
      holds, the last value of each key. */
  lemma SignalReachesIffSatisfied(steps: seq<Step>, msg: Message, unicast: bool, c: ClientId,
                                  written: map<string, Written>)
    requires c in After(steps).clients
    requires forall text :: Holds(After(steps).clients[c], text) ==> text in written && Writes(written[text], text)
    ensures c in Recipients(After(steps).clients, msg, unicast) <==>
            exists text :: Holds(After(steps).clients[c], text) && MatchMeaning.Meets(written[text].items, msg, unicast)
  {
    var rules := After(steps).clients[c];
    SignalReachesExactlySubscribers(steps, msg, unicast, c);
    forall text | Holds(rules, text)
      ensures SubscribedBy(rules, text, msg, unicast) <==> MatchMeaning.Meets(written[text].items, msg, unicast)
    {
      SubscribedMeans(rules, text, written[text], msg, unicast);
    }
    if c in Recipients(After(steps).clients, msg, unicast) {
      var text :| SubscribedBy(rules, text, msg, unicast);
      assert Holds(rules, text);
    }
  }

  const LEAKING := [Connect, AddMatch(1, ""), AddMatch(1, ""), RemoveMatch(1, "")]

  lemma LeakingAdds(rule: MatchRule)
    requires ParseRule("") == Ok(rule) && rule.ruleString == ""
    ensures After(LEAKING[..1]).clients == map[1 := []] && After(LEAKING[..2]).clients == map[1 := [rule]]
  {
    assert LEAKING[..1][..0] == [] && LEAKING[..2][..1] == LEAKING[..1];
    assert After(LEAKING[..1]).clients == map[1 := []];
    assert [] + [rule] == [rule];
  }

  lemma LeakingAgain(rule: MatchRule)
    requires ParseRule("") == Ok(rule) && rule.ruleString == ""
    ensures After(LEAKING[..3]).clients == map[1 := [rule]] && RedundantAdds(LEAKING[..3], "") >= 1
  {
    LeakingAdds(rule);
    assert LEAKING[..3][..2] == LEAKING[..2];
    assert Holds([rule], "") by { assert [rule][0].ruleString == ""; }
  }

  lemma LeakingEnd(rule: MatchRule)
    requires ParseRule("") == Ok(rule) && rule.ruleString == ""
    ensures After(LEAKING).clients == map[1 := []] && RedundantAdds(LEAKING, "") >= 1
  {
    LeakingAgain(rule);
    assert Holds([rule], "") by { assert [rule][0].ruleString == ""; }
    assert WithoutRule([rule], "") == [];
  }

  /** A client that adds a rule twice and removes it leaves it installed for nobody. */
  lemma RepeatedAddLeaksRule()
    ensures var s := After(LEAKING);
            Holders(s.clients, "") == {} && (Host, "") in s.refs.installed
  {
    assert ParseRule("").Ok?;
    AcceptedRuleInRange("");
    LeakingEnd(ParseRule("").value);
    assert Holders(After(LEAKING).clients, "") == {};
    RulesMirroredWhileHeld(LEAKING, "");
    CountsAreHoldersPlusRedundantAdds(LEAKING, Host, "");
  }
}
