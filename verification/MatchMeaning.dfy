/** What a rule text means for a message: every key, by the last value written for it, has
    to be satisfied by the header or argument it names. */
module MatchMeaning {
  import opened Basics
  import opened MatchRules
  import opened MatchRuleText
  import opened MatchFilter
  import opened Namespaces

  // ---- one key ----

  predicate TypeIs(t: MessageType, v: string) {
    match t
    case MethodCall => v == "method_call"
    case MethodReturn => v == "method_return"
    case ErrorReply => v == "error"
    case Signal => v == "signal"
  }

  /** The text of the n-th argument; one that is no string reads as empty. */
  function Argument(msg: Message, n: nat): Option<string> {
    if msg.body.None? || n >= |msg.body.value| then None
    else
      match msg.body.value[n]
      case Str(text) => Some(text)
      case ObjectPath(text) => Some(text)
      case OtherValue => Some("")
  }

  predicate Slashed(s: string) { s != "" && s[|s| - 1] == '/' }

  /** Equal, or one ends in a slash and is a prefix of the other. */
  predicate PathsMeet(a: string, b: string) { a == b || (Slashed(a) && a <= b) || (Slashed(b) && b <= a) }

  /** The message satisfies the key with this value. */
  predicate Satisfied(k: Key, v: string, msg: Message) {
    match k
    case Type => TypeIs(msg.msgType, v)
    case Sender => msg.sender == Some(v)
    case Interface => msg.iface == Some(v)
    case Member => msg.member == Some(v)
    case Path => msg.path == Some(v)
    case PathNamespace => msg.path.Some? && Split(v, '/') <= Split(msg.path.value, '/')
    case Destination => msg.destination == Some(v) || (msg.destination == None && v == "")
    case Arg0Namespace => Argument(msg, 0).Some? && Split(v, '.') <= Split(Argument(msg, 0).value, '.')
    case Arg(n) => Argument(msg, n) == Some(v)
    case ArgPath(n) => Argument(msg, n).Some? && PathsMeet(Argument(msg, n).value, v)
    case Eavesdrop => true
    case Unknown(_) => true
  }

  /** What a parsed rule demands for a key. */
  function Demand(rule: MatchRule, k: Key): Option<string> {
    match k
    case Type => rule.msgType
    case Sender => rule.sender
    case Interface => rule.iface
    case Member => rule.member
    case Path => rule.path
    case PathNamespace => rule.pathNamespace
    case Destination => rule.destination
    case Arg0Namespace => rule.arg0namespace
    case Arg(n) => if n in rule.args then Some(rule.args[n]) else None
    case ArgPath(n) => if n in rule.argPaths then Some(rule.argPaths[n]) else None
    case Eavesdrop => None
    case Unknown(_) => None
  }

  ghost predicate Met(rule: MatchRule, k: Key, msg: Message) {
    Demand(rule, k).Some? ==> Satisfied(k, Demand(rule, k).value, msg)
  }

  // ---- the matcher tests every demand ----

  lemma ArgTextIs(msg: Message, n: nat)
    requires msg.body.Some?
    ensures Argument(msg, n).Some? <==> n < |ArgTexts(msg.body.value)|
    ensures Argument(msg, n).Some? ==> Argument(msg, n).value == ArgTexts(msg.body.value)[n]
  {
  }

  lemma PathFilterIs(a: string, filter: string)
    ensures MatchesPathFilter(a, filter) <==> PathsMeet(a, filter)
  {
    SlashedIs(a);
    SlashedIs(filter);
  }

  lemma SlashedIs(s: string)
    ensures EndsWith(s, "/") <==> Slashed(s)
  {
    if s != "" { assert s[|s| - 1..] == [s[|s| - 1]]; }
  }

  lemma ArgMet(rule: MatchRule, msg: Message, n: ArgIndex)
    requires msg.body.Some?
    ensures var texts := ArgTexts(msg.body.value);
            && (n in rule.args ==> (ArgPasses(rule, texts, n) <==> Met(rule, Arg(n), msg)))
            && (n in rule.argPaths ==> (ArgPathPasses(rule, texts, n) <==> Met(rule, ArgPath(n), msg)))
  {
    ArgTextIs(msg, n);
    if n in rule.argPaths && Argument(msg, n).Some? {
      PathFilterIs(Argument(msg, n).value, rule.argPaths[n]);
    }
  }

  lemma Arg0Met(rule: MatchRule, msg: Message)
    requires msg.body.Some?
    ensures Arg0Passes(rule, ArgTexts(msg.body.value)) <==> Met(rule, Arg0Namespace, msg)
  {
    ArgTextIs(msg, 0);
    if rule.arg0namespace.Some? && Argument(msg, 0).Some? {
      UnderIsComponentPrefix(Argument(msg, 0).value, rule.arg0namespace.value, '.');
    }
  }

  ghost predicate ArgsMet(rule: MatchRule, msg: Message) {
    && (forall n: ArgIndex :: n in rule.args ==> Met(rule, Arg(n), msg))
    && (forall n: ArgIndex :: n in rule.argPaths ==> Met(rule, ArgPath(n), msg))
    && Met(rule, Arg0Namespace, msg)
  }

  lemma ArgsPassIff(rule: MatchRule, msg: Message)
    requires IndicesInRange(rule) && msg.body.Some?
    ensures ArgsPass(rule, ArgTexts(msg.body.value)) <==> ArgsMet(rule, msg)
  {
    var texts := ArgTexts(msg.body.value);
    Arg0Met(rule, msg);
    forall n: ArgIndex
      ensures n in rule.args ==> (ArgPasses(rule, texts, n) <==> Met(rule, Arg(n), msg))
      ensures n in rule.argPaths ==> (ArgPathPasses(rule, texts, n) <==> Met(rule, ArgPath(n), msg))
    {
      ArgMet(rule, msg, n);
    }
  }

  lemma NoBodyFails(rule: MatchRule, msg: Message)
    requires IndicesInRange(rule) && msg.body.None? && HasArgFilters(rule)
    ensures !ArgsMet(rule, msg)
  {
    if rule.args != map[] {
      var n :| n in rule.args;
      assert !Met(rule, Arg(n), msg);
    } else if rule.argPaths != map[] {
      var n :| n in rule.argPaths;
      assert !Met(rule, ArgPath(n), msg);
    }
  }

  lemma ArgFiltersIff(rule: MatchRule, msg: Message)
    requires IndicesInRange(rule)
    ensures ArgFilters(rule, msg) <==> ArgsMet(rule, msg)
  {
    IgnoringDestination(rule, msg);
    if HasArgFilters(rule) {
      if msg.body.Some? { ArgsPassIff(rule, msg); } else { NoBodyFails(rule, msg); }
    }
  }

  lemma NamespaceMet(rule: MatchRule, msg: Message)
    ensures (rule.pathNamespace.Some? ==> msg.path.Some? && Under(msg.path.value, rule.pathNamespace.value, '/'))
            <==> Met(rule, PathNamespace, msg)
  {
    if rule.pathNamespace.Some? && msg.path.Some? {
      UnderIsComponentPrefix(msg.path.value, rule.pathNamespace.value, '/');
    }
  }

  ghost predicate HeadersMet(rule: MatchRule, msg: Message) {
    && Met(rule, Type, msg) && Met(rule, Sender, msg) && Met(rule, Interface, msg) && Met(rule, Member, msg)
    && Met(rule, Path, msg) && Met(rule, PathNamespace, msg)
  }

  lemma MatcherTests(rule: MatchRule, msg: Message)
    requires IndicesInRange(rule)
    ensures MatchesIgnoringDestination(rule, msg) <==> HeadersMet(rule, msg) && ArgsMet(rule, msg)
    ensures Matches(rule, msg) <==> HeadersMet(rule, msg) && ArgsMet(rule, msg) && Met(rule, Destination, msg)
  {
    ArgFiltersIff(rule, msg);
    NamespaceMet(rule, msg);
  }

  /** All demands but perhaps the destination's are met. */
  ghost predicate AllMet(rule: MatchRule, msg: Message, ignoring: bool) {
    forall k: Key :: !(ignoring && k.Destination?) ==> Met(rule, k, msg)
  }

  lemma MatchesIffMet(rule: MatchRule, msg: Message)
    requires IndicesInRange(rule)
    ensures Matches(rule, msg) <==> AllMet(rule, msg, false)
    ensures MatchesIgnoringDestination(rule, msg) <==> AllMet(rule, msg, true)
  {
    MatcherTests(rule, msg);
    MetByCases(rule, msg, true);
    MetByCases(rule, msg, false);
  }

  lemma MetByCases(rule: MatchRule, msg: Message, ignoring: bool)
    ensures AllMet(rule, msg, ignoring)
            <==> HeadersMet(rule, msg) && ArgsMet(rule, msg) && (ignoring || Met(rule, Destination, msg))
  {
    if HeadersMet(rule, msg) && ArgsMet(rule, msg) && (ignoring || Met(rule, Destination, msg)) {
      forall k: Key | !(ignoring && k.Destination?) ensures Met(rule, k, msg) {
        MetOne(rule, msg, k);
      }
    }
  }

  lemma MetOne(rule: MatchRule, msg: Message, k: Key)
    requires HeadersMet(rule, msg) && ArgsMet(rule, msg) && (k.Destination? ==> Met(rule, Destination, msg))
    ensures Met(rule, k, msg)
  {
  }

  // ---- the demands are the last values written ----

  /** The pair at `i` is the last with its key. */
  ghost predicate LastOf(items: seq<Item>, i: nat) {
    i < |items| && forall j :: i < j < |items| ==> items[j].key != items[i].key
  }

  lemma DemandSet(rule: MatchRule, changed: Key, v: string, k: Key)
    requires !k.Eavesdrop? && !k.Unknown?
    ensures Demand(SetField(rule, changed, v), k) == if changed == k then Some(v) else Demand(rule, k)
  {
  }

  lemma {:induction false} DemandFolded(rule: MatchRule, items: seq<Item>, k: Key)
    requires !k.Eavesdrop? && !k.Unknown?
    ensures (forall i :: 0 <= i < |items| ==> items[i].key != k) ==> Demand(Fold(rule, items), k) == Demand(rule, k)
    ensures forall i: nat :: LastOf(items, i) && items[i].key == k ==> Demand(Fold(rule, items), k) == Some(items[i].value)
    ensures (exists i :: 0 <= i < |items| && items[i].key == k) ==> exists i: nat :: LastOf(items, i) && items[i].key == k
  {
    if items == [] {
    } else {
      var n := |items| - 1;
      var front, it := items[..n], items[n];
      assert items == front + [it];
      DemandFolded(rule, front, k);
      FoldSnoc(rule, front, it);
      DemandSet(Fold(rule, front), it.key, it.value, k);
      if it.key == k {
        assert LastOf(items, n);
      } else {
        LastBefore(items, k);
      }
    }
  }

  lemma LastBefore(items: seq<Item>, k: Key)
    requires items != [] && items[|items| - 1].key != k
    ensures forall i: nat :: LastOf(items, i) && items[i].key == k ==> LastOf(items[..|items| - 1], i)
    ensures forall i: nat :: LastOf(items[..|items| - 1], i) && items[i].key == k ==> LastOf(items, i)
  {
  }

  lemma NoDemand(text: string, k: Key)
    ensures Demand(EmptyRule(text), k) == None
  {
  }

  /** The message satisfies every pair that is the last with its key; for a signal sent to
      the multiplexer itself, whatever the destination. */
  ghost predicate Meets(items: seq<Item>, msg: Message, ignoring: bool) {
    forall i: nat :: LastOf(items, i) && !(ignoring && items[i].key.Destination?) ==>
      Satisfied(items[i].key, items[i].value, msg)
  }

  lemma MetIff(text: string, items: seq<Item>, msg: Message, ignoring: bool)
    ensures AllMet(Fold(EmptyRule(text), items), msg, ignoring) <==> Meets(items, msg, ignoring)
  {
    var rule := Fold(EmptyRule(text), items);
    if AllMet(rule, msg, ignoring) {
      forall i: nat | LastOf(items, i) && !(ignoring && items[i].key.Destination?)
        ensures Satisfied(items[i].key, items[i].value, msg)
      {
        var k := items[i].key;
        assert Met(rule, k, msg);
        if !k.Eavesdrop? && !k.Unknown? { DemandFolded(EmptyRule(text), items, k); }
      }
    }
    if Meets(items, msg, ignoring) {
      forall k: Key | !(ignoring && k.Destination?) ensures Met(rule, k, msg) {
        if !k.Eavesdrop? && !k.Unknown? {
          DemandFolded(EmptyRule(text), items, k);
          NoDemand(text, k);
        }
      }
    }
  }

  /** The last value written for eavesdropping is "true". */
  ghost predicate WrittenTrue(items: seq<Item>) {
    exists i: nat :: LastOf(items, i) && items[i].key == Eavesdrop && items[i].value == "true"
  }

  lemma WrittenTrueSnoc(items: seq<Item>)
    requires items != []
    ensures var n := |items| - 1;
            WrittenTrue(items) <==>
            if items[n].key == Eavesdrop then items[n].value == "true" else WrittenTrue(items[..n])
  {
    var n := |items| - 1;
    if items[n].key == Eavesdrop {
      assert LastOf(items, n);
      forall i: nat | LastOf(items, i) && items[i].key == Eavesdrop ensures i == n {
      }
    } else {
      LastBefore(items, Eavesdrop);
      if WrittenTrue(items) {
        var i: nat :| LastOf(items, i) && items[i].key == Eavesdrop && items[i].value == "true";
        assert LastOf(items[..n], i) && items[..n][i] == items[i];
      }
      if WrittenTrue(items[..n]) {
        var i: nat :| LastOf(items[..n], i) && items[..n][i].key == Eavesdrop && items[..n][i].value == "true";
        assert LastOf(items, i) && items[..n][i] == items[i];
      }
    }
  }

  /** Eavesdropping is recorded exactly if the last value written for it is "true". */
  lemma {:induction false} EavesdropIff(text: string, items: seq<Item>)
    ensures Fold(EmptyRule(text), items).eavesdrop <==> WrittenTrue(items)
  {
    if items == [] {
    } else {
      var n := |items| - 1;
      assert items == items[..n] + [items[n]];
      EavesdropIff(text, items[..n]);
      FoldSnoc(EmptyRule(text), items[..n], items[n]);
      WrittenTrueSnoc(items);
    }
  }

  lemma {:induction false} FoldInRange(rule: MatchRule, items: seq<Item>)
    requires IndicesInRange(rule)
    ensures IndicesInRange(Fold(rule, items))
    decreases items
  {
    if items == [] {
    } else {
      FoldInRange(SetField(rule, items[0].key, items[0].value), items[1..]);
    }
  }

  /** From rule text to message: a printed list of pairs is accepted, and the rule matches
      exactly the messages that satisfy, for each key, the last value written for it. */
  lemma TextMatchesIff(items: seq<Item>, trail: string, msg: Message)
    requires AllPrintable(items) && Linked(items) && Blank(trail)
    ensures var r := ParseRule(Print(items) + trail);
            && r.Ok?
            && (Matches(r.value, msg) <==> Meets(items, msg, false))
            && (MatchesIgnoringDestination(r.value, msg) <==> Meets(items, msg, true))
  {
    var text := Print(items) + trail;
    PrintParseRoundTrip(items, trail);
    FoldInRange(EmptyRule(text), items);
    MatchesIffMet(Fold(EmptyRule(text), items), msg);
    MetIff(text, items, msg, false);
    MetIff(text, items, msg, true);
  }
}
