/** Match rule text and its parser (src/match_rules.rs). */
module MatchRules {
  import opened Basics
  import opened Decimal

  type u8 = x: int | 0 <= x < 256

  const MAX_ARG := 63

  datatype MatchRule = MatchRule(
    ruleString: string,
    msgType: Option<string>,
    sender: Option<string>,
    iface: Option<string>,
    member: Option<string>,
    path: Option<string>,
    pathNamespace: Option<string>,
    destination: Option<string>,
    args: map<u8, string>,
    argPaths: map<u8, string>,
    arg0namespace: Option<string>,
    eavesdrop: bool)

  datatype MatchRuleError = InvalidFormat(message: string) | InvalidArgIndex(key: string)

  function EmptyRule(text: string): MatchRule {
    MatchRule(text, None, None, None, None, None, None, None, map[], map[], None, false)
  }

  // ---- string helpers ----

  /** Characters with the White_Space property. */
  predicate IsSpace(c: char) {
    var x := c as int;
    0x09 <= x <= 0x0D || x == 0x20 || x == 0x85 || x == 0xA0 || x == 0x1680 || 0x2000 <= x <= 0x200A
    || x == 0x2028 || x == 0x2029 || x == 0x202F || x == 0x205F || x == 0x3000
  }

  /** The 25 code points with that property. */
  const WHITE_SPACE: set<int> :=
    {9, 10, 11, 12, 13, 32, 133, 160, 5760, 8192, 8193, 8194, 8195, 8196, 8197, 8198, 8199, 8200, 8201, 8202,
     8232, 8233, 8239, 8287, 12288}

  lemma WhiteSpaceIs(c: char)
    ensures IsSpace(c) <==> c as int in WHITE_SPACE
  {
  }

  function TrimStart(s: string): (r: string)
    ensures |r| <= |s|
  {
    if s != [] && IsSpace(s[0]) then TrimStart(s[1..]) else s
  }

  function TrimEnd(s: string): (r: string)
    ensures |r| <= |s|
  {
    if s != [] && IsSpace(s[|s| - 1]) then TrimEnd(s[..|s| - 1]) else s
  }

  function Trim(s: string): (r: string)
    ensures |r| <= |s|
  {
    TrimEnd(TrimStart(s))
  }

  function Find(s: string, c: char): (r: Option<nat>)
    ensures r.Some? ==> r.value < |s| && s[r.value] == c
  {
    if s == [] then None
    else if s[0] == c then Some(0)
    else match Find(s[1..], c) case None => None case Some(i) => Some(i + 1)
  }

  predicate EndsWith(s: string, suffix: string) {
    |suffix| <= |s| && s[|s| - |suffix|..] == suffix
  }

  // ---- the parser as a function of the text ----

  function InsertArg(rule: MatchRule, key: string, number: string, value: string, isPath: bool)
    : Result<MatchRule, MatchRuleError>
  {
    match ParseUnsigned(number, 255)
    case None => Err(InvalidArgIndex(key))
    case Some(n) =>
      if n > MAX_ARG then Err(InvalidArgIndex(key))
      else if isPath then Ok(rule.(argPaths := rule.argPaths[n := value]))
      else Ok(rule.(args := rule.args[n := value]))
  }

  /** "arg" and "path" share no letter position, so they cannot overlap. */
  lemma ArgPathLong(key: string)
    requires "arg" <= key && EndsWith(key, "path")
    ensures |key| >= 7
  {
    assert key[0] == 'a' && key[1] == 'r' && key[2] == 'g';
    var tail := key[|key| - 4..];
    assert tail[0] == key[|key| - 4] && tail[1] == key[|key| - 3];
    assert tail[2] == key[|key| - 2] && tail[3] == key[|key| - 1];
    assert tail[0] == 'p' && tail[1] == 'a' && tail[2] == 't' && tail[3] == 'h';
  }

  /** The keys with a field of their own. */
  function ApplyField(rule: MatchRule, key: string, value: string): (r: Option<MatchRule>)
    ensures r.Some? ==>
              r.value.args == rule.args && r.value.argPaths == rule.argPaths && r.value.ruleString == rule.ruleString
  {
    if key == "type" then Some(rule.(msgType := Some(value)))
    else if key == "sender" then Some(rule.(sender := Some(value)))
    else if key == "interface" then Some(rule.(iface := Some(value)))
    else if key == "member" then Some(rule.(member := Some(value)))
    else if key == "path" then Some(rule.(path := Some(value)))
    else if key == "path_namespace" then Some(rule.(pathNamespace := Some(value)))
    else if key == "destination" then Some(rule.(destination := Some(value)))
    else if key == "eavesdrop" then Some(rule.(eavesdrop := value == "true"))
    else if key == "arg0namespace" then Some(rule.(arg0namespace := Some(value)))
    else None
  }

  /** Argument filters; any other key is ignored. */
  function ApplyArg(rule: MatchRule, key: string, value: string): Result<MatchRule, MatchRuleError> {
    if "arg" <= key && EndsWith(key, "path") then
      ArgPathLong(key);
      InsertArg(rule, key, key[3..|key| - 4], value, true)
    else if "arg" <= key then InsertArg(rule, key, key[3..], value, false)
    else Ok(rule)
  }

  function ApplyKey(rule: MatchRule, key: string, value: string): Result<MatchRule, MatchRuleError> {
    match ApplyField(rule, key, value)
    case Some(r) => Ok(r)
    case None => ApplyArg(rule, key, value)
  }

  /** Leading whitespace and one comma. */
  function SkipSeparator(s: string): (r: string)
    ensures |r| <= |s|
  {
    var t := TrimStart(s);
    if t != [] && t[0] == ',' then TrimStart(t[1..]) else t
  }

  /** A value, quoted or running to the next comma, and what follows it. */
  function TakeValue(s: string): (r: Result<(string, string), MatchRuleError>)
    ensures r.Ok? ==> |r.value.1| <= |s|
  {
    if s != [] && s[0] == '\'' then
      match Find(s[1..], '\'')
      case None => Err(InvalidFormat("Unclosed quote"))
      case Some(end) => Ok((s[1..end + 1], s[end + 2..]))
    else
      var end := match Find(s, ',') case None => |s| case Some(i) => i;
      Ok((Trim(s[..end]), s[end..]))
  }

  datatype Pair = Pair(key: string, value: string, rest: string)

  function NextPair(s: string): (r: Result<Pair, MatchRuleError>)
    ensures r.Ok? ==> |r.value.rest| < |s|
  {
    match Find(s, '=')
    case None => Err(InvalidFormat("Missing '=' in: " + s))
    case Some(eq) =>
      match TakeValue(TrimStart(s[eq + 1..]))
      case Err(e) => Err(e)
      case Ok((value, rest)) => Ok(Pair(Trim(s[..eq]), value, rest))
  }

  function ParseFrom(remaining: string, rule: MatchRule): Result<MatchRule, MatchRuleError>
    decreases |remaining|
  {
    var s := SkipSeparator(remaining);
    if s == "" then Ok(rule)
    else
      match NextPair(s)
      case Err(e) => Err(e)
      case Ok(p) =>
        match ApplyKey(rule, p.key, p.value)
        case Err(e) => Err(e)
        case Ok(next) => ParseFrom(p.rest, next)
  }

  function ParseRule(text: string): Result<MatchRule, MatchRuleError> {
    ParseFrom(Trim(text), EmptyRule(text))
  }

  /** What is known of the parse after one turn of the loop. */
  ghost predicate Turned(remaining: string, rule: MatchRule, turn: Turn) {
    match turn
    case Done => ParseFrom(remaining, rule) == Ok(rule)
    case Failed(e) => ParseFrom(remaining, rule) == Err(e)
    case More(rest, next) => |rest| < |remaining| && ParseFrom(remaining, rule) == ParseFrom(rest, next)
  }

  datatype Turn = Done | Failed(error: MatchRuleError) | More(rest: string, next: MatchRule)

  lemma NothingLeft(remaining: string, rule: MatchRule)
    requires SkipSeparator(remaining) == ""
    ensures Turned(remaining, rule, Done)
  {
  }

  lemma PairFails(remaining: string, rule: MatchRule, s: string, e: MatchRuleError)
    requires s == SkipSeparator(remaining) && s != "" && NextPair(s) == Err(e)
    ensures Turned(remaining, rule, Failed(e))
  {
  }

  lemma PairApplies(remaining: string, rule: MatchRule, s: string, p: Pair)
    requires s == SkipSeparator(remaining) && s != "" && NextPair(s) == Ok(p)
    ensures Turned(remaining, rule, match ApplyKey(rule, p.key, p.value)
                                    case Err(e) => Failed(e) case Ok(next) => More(p.rest, next))
  {
  }

  /** One key with its value: everything up to '=', then a quoted or bare value. */
  method ParsePair(s: string) returns (r: Result<Pair, MatchRuleError>)
    ensures r == NextPair(s)
  {
    var eqPos := Find(s, '=');
    if eqPos.None? {
      return Err(InvalidFormat("Missing '=' in: " + s));
    }
    var key := Trim(s[..eqPos.value]);
    var value := TakeValue(TrimStart(s[eqPos.value + 1..]));
    if value.Err? {
      return Err(value.error);
    }
    r := Ok(Pair(key, value.value.0, value.value.1));
  }

  /** One turn of the loop. */
  method ParseTurn(remaining: string, rule: MatchRule) returns (turn: Turn)
    ensures Turned(remaining, rule, turn)
  {
    var s := TrimStart(remaining);
    if s != "" && s[0] == ',' {
      s := TrimStart(s[1..]);
    }
    if s == "" {
      NothingLeft(remaining, rule);
      return Done;
    }
    var pair := ParsePair(s);
    if pair.Err? {
      PairFails(remaining, rule, s, pair.error);
      return Failed(pair.error);
    }
    PairApplies(remaining, rule, s, pair.value);
    match ApplyKey(rule, pair.value.key, pair.value.value) {
      case Err(e) => turn := Failed(e);
      case Ok(next) => turn := More(pair.value.rest, next);
    }
  }

  /** `MatchRule::parse`: a loop over the remaining text. */
  method Parse(rule: string) returns (r: Result<MatchRule, MatchRuleError>)
    ensures r == ParseRule(rule)
  {
    var result := EmptyRule(rule);
    var remaining := Trim(rule);
    if remaining == "" {
      return Ok(result);
    }
    while remaining != ""
      invariant ParseRule(rule) == ParseFrom(remaining, result)
      decreases |remaining|
    {
      var turn := ParseTurn(remaining, result);
      match turn {
        case Done => return Ok(result);
        case Failed(e) => return Err(e);
        case More(rest, next) => remaining, result := rest, next;
      }
    }
    r := Ok(result);
  }

  // ---- accepted rules ----

  ghost predicate IndicesInRange(rule: MatchRule) {
    forall n :: n in rule.args || n in rule.argPaths ==> n <= MAX_ARG
  }

  ghost predicate KeptRange(was: MatchRule, r: Result<MatchRule, MatchRuleError>) {
    r.Ok? ==> IndicesInRange(r.value) && r.value.ruleString == was.ruleString
  }

  lemma InsertKeepsRange(rule: MatchRule, key: string, number: string, value: string, isPath: bool)
    requires IndicesInRange(rule)
    ensures KeptRange(rule, InsertArg(rule, key, number, value, isPath))
  {
  }

  lemma ApplyArgKeepsRange(rule: MatchRule, key: string, value: string)
    requires IndicesInRange(rule)
    ensures KeptRange(rule, ApplyArg(rule, key, value))
  {
    if "arg" <= key {
      if EndsWith(key, "path") {
        ArgPathLong(key);
        InsertKeepsRange(rule, key, key[3..|key| - 4], value, true);
      }
      InsertKeepsRange(rule, key, key[3..], value, false);
    }
  }

  lemma ApplyKeepsRange(rule: MatchRule, key: string, value: string)
    requires IndicesInRange(rule)
    ensures KeptRange(rule, ApplyKey(rule, key, value))
  {
    var field := ApplyField(rule, key, value);
    if field.Some? {
      assert IndicesInRange(field.value);
    } else {
      ApplyArgKeepsRange(rule, key, value);
    }
  }

  lemma {:induction false} ParseKeepsRange(remaining: string, rule: MatchRule)
    requires IndicesInRange(rule) && ParseFrom(remaining, rule).Ok?
    ensures IndicesInRange(ParseFrom(remaining, rule).value)
    ensures ParseFrom(remaining, rule).value.ruleString == rule.ruleString
    decreases |remaining|
  {
    var s := SkipSeparator(remaining);
    if s == "" {
    } else {
      var p := NextPair(s).value;
      ApplyKeepsRange(rule, p.key, p.value);
      ParseKeepsRange(p.rest, ApplyKey(rule, p.key, p.value).value);
    }
  }

  /** Every accepted rule keeps its own text and filters only arguments 0 to 63. */
  lemma AcceptedRuleInRange(text: string)
    requires ParseRule(text).Ok?
    ensures ParseRule(text).value.ruleString == text && IndicesInRange(ParseRule(text).value)
  {
    ParseKeepsRange(Trim(text), EmptyRule(text));
  }
}
