/** Testing messages against match rules (src/match_rules.rs). */
module MatchFilter {
  import opened Basics
  import opened MatchRules

  datatype MessageType = MethodCall | MethodReturn | ErrorReply | Signal

  function TypeName(t: MessageType): string {
    match t
    case MethodCall => "method_call"
    case MethodReturn => "method_return"
    case ErrorReply => "error"
    case Signal => "signal"
  }

  datatype Value = Str(text: string) | ObjectPath(text: string) | OtherValue

  /** Header strings, and the body arguments when the body reads as a structure. */
  datatype Message = Message(
    msgType: MessageType,
    sender: Option<string>,
    iface: Option<string>,
    member: Option<string>,
    path: Option<string>,
    destination: Option<string>,
    body: Option<seq<Value>>)

  /** A non-string argument reads as the empty string. */
  function ArgText(v: Value): string { if v.OtherValue? then "" else v.text }

  function ArgTexts(vs: seq<Value>): (r: seq<string>)
    ensures |r| == |vs|
  {
    seq(|vs|, i requires 0 <= i < |vs| => ArgText(vs[i]))
  }

  // ---- argument extraction ----

  /** The largest key, or 0. */
  function MaxUpTo(keys: set<u8>, n: u8): (m: u8)
    ensures m <= n && forall k :: k in keys && k <= n ==> k <= m
  {
    if n == 0 || n in keys then n else MaxUpTo(keys, n - 1)
  }

  function MaxIndex(rule: MatchRule): (m: u8)
    ensures forall k :: k in rule.args || k in rule.argPaths ==> k <= m
  {
    MaxUpTo(rule.args.Keys + rule.argPaths.Keys, 255)
  }

  /** Extraction stops at the first index whose low 8 bits exceed the largest one. */
  function CutAt(n: nat, max: u8, from: nat): (k: nat)
    requires from <= n
    ensures from <= k <= n
    decreases n - from
  {
    if from == n || from % 256 > max then from else CutAt(n, max, from + 1)
  }

  function Extracted(rule: MatchRule, vs: seq<Value>): seq<string> {
    ArgTexts(vs)[..CutAt(|vs|, MaxIndex(rule), 0)]
  }

  method ExtractStringArgs(rule: MatchRule, vs: seq<Value>) returns (result: seq<string>)
    ensures result == Extracted(rule, vs)
  {
    var maxIdx := MaxIndex(rule);
    result := [];
    var idx := 0;
    while idx < |vs| && idx % 256 <= maxIdx
      invariant 0 <= idx <= |vs| && result == ArgTexts(vs)[..idx]
      invariant CutAt(|vs|, maxIdx, 0) == CutAt(|vs|, maxIdx, idx)
    {
      result := result + [ArgText(vs[idx])];
      idx := idx + 1;
    }
  }

  lemma {:induction false} CutCovers(n: nat, max: u8, from: nat)
    requires from <= n && (from <= max as int + 1)
    ensures CutAt(n, max, from) == n || CutAt(n, max, from) > max
    decreases n - from
  {
    if from < n && from % 256 <= max && from <= max {
      CutCovers(n, max, from + 1);
    }
  }

  // ---- the filters ----

  predicate StartsWith(s: string, prefix: string) { prefix <= s }

  predicate MatchesPathFilter(arg: string, filter: string) {
    || arg == filter
    || (EndsWith(filter, "/") && StartsWith(arg, filter))
    || (EndsWith(arg, "/") && StartsWith(filter, arg))
  }

  /** Equal to the namespace, or continuing it after a separator. */
  predicate Under(s: string, namespace: string, separator: char) {
    s == namespace || StartsWith(s, namespace + [separator])
  }

  predicate HasArgFilters(rule: MatchRule) {
    rule.args != map[] || rule.argPaths != map[] || rule.arg0namespace.Some?
  }

  predicate ArgPasses(rule: MatchRule, args: seq<string>, i: u8)
    requires i in rule.args
  {
    i < |args| && args[i] == rule.args[i]
  }

  predicate ArgPathPasses(rule: MatchRule, args: seq<string>, i: u8)
    requires i in rule.argPaths
  {
    i < |args| && MatchesPathFilter(args[i], rule.argPaths[i])
  }

  predicate Arg0Passes(rule: MatchRule, args: seq<string>) {
    rule.arg0namespace.Some? ==> args != [] && Under(args[0], rule.arg0namespace.value, '.')
  }

  predicate ArgsPass(rule: MatchRule, args: seq<string>) {
    && (forall i :: i in rule.args ==> ArgPasses(rule, args, i))
    && (forall i :: i in rule.argPaths ==> ArgPathPasses(rule, args, i))
    && Arg0Passes(rule, args)
  }

  predicate ArgFilters(rule: MatchRule, msg: Message) {
    HasArgFilters(rule) ==> msg.body.Some? && ArgsPass(rule, Extracted(rule, msg.body.value))
  }

  /** The argument tests as run: cut extraction, map entries in any order. */
  method TestArgFilters(rule: MatchRule, msg: Message) returns (pass: bool)
    ensures pass == ArgFilters(rule, msg)
  {
    if !HasArgFilters(rule) {
      return true;
    }
    if msg.body.None? {
      return false;
    }
    var args := ExtractStringArgs(rule, msg.body.value);
    var todo := rule.args.Keys;
    while todo != {}
      invariant todo <= rule.args.Keys && forall i :: i in rule.args && i !in todo ==> ArgPasses(rule, args, i)
    {
      var i :| i in todo;
      if !(i < |args| && args[i] == rule.args[i]) {
        assert !ArgPasses(rule, args, i);
        return false;
      }
      todo := todo - {i};
    }
    todo := rule.argPaths.Keys;
    while todo != {}
      invariant todo <= rule.argPaths.Keys
      invariant forall i :: i in rule.argPaths && i !in todo ==> ArgPathPasses(rule, args, i)
    {
      var i :| i in todo;
      if !(i < |args| && MatchesPathFilter(args[i], rule.argPaths[i])) {
        assert !ArgPathPasses(rule, args, i);
        return false;
      }
      todo := todo - {i};
    }
    pass := rule.arg0namespace.None? || (args != [] && Under(args[0], rule.arg0namespace.value, '.'));
  }

  /** Cutting extraction at the largest filtered index changes no answer, despite the
      8-bit comparison, for any number of arguments. */
  lemma CutIsExact(rule: MatchRule, vs: seq<Value>)
    ensures ArgsPass(rule, Extracted(rule, vs)) <==> ArgsPass(rule, ArgTexts(vs))
  {
    var max := MaxIndex(rule);
    CutCovers(|vs|, max, 0);
    var cut, all := Extracted(rule, vs), ArgTexts(vs);
    assert |cut| == |all| || |cut| > max;
    assert forall i :: 0 <= i < |cut| ==> cut[i] == all[i];
    forall i | i in rule.args ensures ArgPasses(rule, cut, i) <==> ArgPasses(rule, all, i) { }
    forall i | i in rule.argPaths ensures ArgPathPasses(rule, cut, i) <==> ArgPathPasses(rule, all, i) { }
  }

  // ---- whole rules ----

  predicate Is(filter: Option<string>, actual: Option<string>) { filter.Some? ==> actual == filter }

  predicate DestinationPasses(rule: MatchRule, msg: Message) {
    rule.destination.Some? ==>
      match msg.destination
      case Some(d) => d == rule.destination.value
      case None => rule.destination.value == ""
  }

  predicate Matches(rule: MatchRule, msg: Message) {
    && (rule.msgType.Some? ==> rule.msgType.value == TypeName(msg.msgType))
    && Is(rule.sender, msg.sender)
    && Is(rule.iface, msg.iface)
    && Is(rule.member, msg.member)
    && Is(rule.path, msg.path)
    && (rule.pathNamespace.Some? ==> msg.path.Some? && Under(msg.path.value, rule.pathNamespace.value, '/'))
    && DestinationPasses(rule, msg)
    && ArgFilters(rule, msg)
  }

  predicate MatchesIgnoringDestination(rule: MatchRule, msg: Message) {
    && (rule.msgType.Some? ==> rule.msgType.value == TypeName(msg.msgType))
    && Is(rule.sender, msg.sender)
    && Is(rule.iface, msg.iface)
    && Is(rule.member, msg.member)
    && Is(rule.path, msg.path)
    && (rule.pathNamespace.Some? ==> msg.path.Some? && Under(msg.path.value, rule.pathNamespace.value, '/'))
    && ArgFilters(rule, msg)
  }

  /** The two near-duplicate tests agree: one is the other on the rule without its
      destination, and the full test adds exactly the destination test; and both could
      look at every argument instead of the extracted ones. */
  lemma IgnoringDestination(rule: MatchRule, msg: Message)
    ensures MatchesIgnoringDestination(rule, msg) <==> Matches(rule.(destination := None), msg)
    ensures Matches(rule, msg) <==> MatchesIgnoringDestination(rule, msg) && DestinationPasses(rule, msg)
    ensures ArgFilters(rule, msg) <==>
            (HasArgFilters(rule) ==> msg.body.Some? && ArgsPass(rule, ArgTexts(msg.body.value)))
  {
    var bare := rule.(destination := None);
    if msg.body.Some? {
      CutIsExact(rule, msg.body.value);
      CutIsExact(bare, msg.body.value);
    }
    SameArgs(rule, bare, msg);
  }

  lemma SameArgs(a: MatchRule, b: MatchRule, msg: Message)
    requires a.args == b.args && a.argPaths == b.argPaths && a.arg0namespace == b.arg0namespace
    ensures ArgFilters(a, msg) == ArgFilters(b, msg)
  {
    if msg.body.Some? {
      var xs := Extracted(a, msg.body.value);
      assert xs == Extracted(b, msg.body.value);
      assert forall i :: i in a.args ==> ArgPasses(a, xs, i) == ArgPasses(b, xs, i);
      assert forall i :: i in a.argPaths ==> ArgPathPasses(a, xs, i) == ArgPathPasses(b, xs, i);
    }
  }
}
