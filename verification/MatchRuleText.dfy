/** Printing a match rule and parsing it back, and which texts are refused. */
module MatchRuleText {
  import opened Basics
  import opened Decimal
  import opened MatchRules

  type ArgIndex = n: nat | n <= MAX_ARG

  /** The recognised keys, and any other. */
  datatype Key =
    | Type | Sender | Interface | Member | Path | PathNamespace | Destination | Eavesdrop | Arg0Namespace
    | Arg(n: ArgIndex) | ArgPath(n: ArgIndex)
    | Unknown(text: string)

  function KeyText(k: Key): string {
    match k
    case Type => "type"
    case Sender => "sender"
    case Interface => "interface"
    case Member => "member"
    case Path => "path"
    case PathNamespace => "path_namespace"
    case Destination => "destination"
    case Eavesdrop => "eavesdrop"
    case Arg0Namespace => "arg0namespace"
    case Arg(n) => "arg" + Digits(n)
    case ArgPath(n) => "arg" + Digits(n) + "path"
    case Unknown(text) => text
  }

  /** What a pair means: the field it sets. */
  function SetField(rule: MatchRule, k: Key, v: string): MatchRule {
    match k
    case Type => rule.(msgType := Some(v))
    case Sender => rule.(sender := Some(v))
    case Interface => rule.(iface := Some(v))
    case Member => rule.(member := Some(v))
    case Path => rule.(path := Some(v))
    case PathNamespace => rule.(pathNamespace := Some(v))
    case Destination => rule.(destination := Some(v))
    case Eavesdrop => rule.(eavesdrop := v == "true")
    case Arg0Namespace => rule.(arg0namespace := Some(v))
    case Arg(n) => rule.(args := rule.args[n := v])
    case ArgPath(n) => rule.(argPaths := rule.argPaths[n := v])
    case Unknown(_) => rule
  }

  /** A pair with what separates it from the one before (whitespace, perhaps a comma, more
      whitespace), the whitespace left and right of its equals sign, and its value, bare
      or in quotes. */
  datatype Item = Item(before: string, comma: bool, after: string, key: Key, left: string, right: string,
                       bare: bool, value: string)

  predicate Blank(s: string) { forall i :: 0 <= i < |s| ==> IsSpace(s[i]) }

  /** No whitespace at either end. */
  predicate Tight(s: string) { s != "" ==> !IsSpace(s[0]) && !IsSpace(s[|s| - 1]) }

  /** A text the parser can take for a key. */
  predicate KeyForm(s: string) { s != "" && Tight(s) && '=' !in s }

  /** A key that is not recognised, so its pair is ignored. */
  predicate OtherKey(s: string) {
    && KeyForm(s) && !("arg" <= s)
    && s != "type" && s != "sender" && s != "interface" && s != "member" && s != "path"
    && s != "path_namespace" && s != "destination" && s != "eavesdrop"
  }

  predicate QuotableValue(v: string) { '\'' !in v }

  /** A value that can stand without quotes. */
  predicate BareValue(v: string) { ',' !in v && Tight(v) && (v != "" ==> v[0] != '\'') }

  /** A pair that can be written down, whatever its key; a key starting with a comma needs
      one before it. */
  predicate Shaped(it: Item) {
    && Blank(it.before) && Blank(it.after) && Blank(it.left) && Blank(it.right)
    && (it.key.Unknown? ==> KeyForm(it.key.text) && (it.key.text[0] == ',' ==> it.comma))
    && if it.bare then BareValue(it.value) else QuotableValue(it.value)
  }

  predicate Printable(it: Item) { Shaped(it) && (it.key.Unknown? ==> OtherKey(it.key.text)) }

  predicate AllPrintable(items: seq<Item>) { forall i :: 0 <= i < |items| ==> Printable(items[i]) }

  /** A comma must follow a bare value; after a quoted one it may be missing. */
  predicate Linked(items: seq<Item>) {
    forall i :: 0 < i < |items| && items[i - 1].bare ==> items[i].comma
  }

  function Separator(it: Item): string { it.before + ((if it.comma then "," else "") + it.after) }

  function ValueText(it: Item): string { if it.bare then it.value else "'" + (it.value + "'") }

  function Body(it: Item): string {
    KeyText(it.key) + (it.left + ("=" + (it.right + ValueText(it))))
  }

  function Print(items: seq<Item>): string {
    if items == [] then "" else Separator(items[0]) + (Body(items[0]) + Print(items[1..]))
  }

  /** The fields set by the pairs in order: the last setting of a field wins. */
  function Fold(rule: MatchRule, items: seq<Item>): MatchRule
    decreases items
  {
    if items == [] then rule else Fold(SetField(rule, items[0].key, items[0].value), items[1..])
  }

  // ---- trimming ----

  lemma {:induction false} TrimStartBlank(w: string, s: string)
    requires Blank(w) && (s == [] || !IsSpace(s[0]))
    ensures TrimStart(w + s) == s
  {
    if w == [] {
      assert w + s == s;
    } else {
      assert (w + s)[1..] == w[1..] + s;
      TrimStartBlank(w[1..], s);
    }
  }

  lemma {:induction false} TrimEndBlank(s: string, w: string)
    requires Blank(w) && (s == [] || !IsSpace(s[|s| - 1]))
    ensures TrimEnd(s + w) == s
  {
    if w == [] {
      assert s + w == s;
    } else {
      var k := |w| - 1;
      assert (s + w)[..|s + w| - 1] == s + w[..k];
      TrimEndBlank(s, w[..k]);
    }
  }

  lemma TrimAround(lead: string, s: string, trail: string)
    requires Blank(lead) && Blank(trail)
    requires s == [] || (!IsSpace(s[0]) && !IsSpace(s[|s| - 1]))
    ensures Trim(lead + (s + trail)) == s
  {
    if s == [] {
      assert lead + (s + trail) == (lead + trail) + [];
      TrimStartBlank(lead + trail, []);
    } else {
      TrimStartBlank(lead, s + trail);
      TrimEndBlank(s, trail);
    }
  }

  lemma {:induction false} FindFirst(a: string, c: char, b: string)
    requires c !in a
    ensures Find(a + ([c] + b), c) == Some(|a|)
  {
    if a == [] {
      assert a + ([c] + b) == [c] + b;
    } else {
      assert a[0] != c && (a + ([c] + b))[1..] == a[1..] + ([c] + b);
      FindFirst(a[1..], c, b);
    }
  }

  lemma {:induction false} FindNone(s: string, c: char)
    requires c !in s
    ensures Find(s, c) == None
  {
    if s == [] {
    } else {
      FindNone(s[1..], c);
    }
  }

  /** The whitespace a text starts with. */
  function Lead(s: string): (w: string)
    ensures Blank(w)
  {
    if s != [] && IsSpace(s[0]) then [s[0]] + Lead(s[1..]) else ""
  }

  lemma {:induction false} TrimStartSplits(s: string)
    ensures TrimStart(s) == "" || !IsSpace(TrimStart(s)[0])
    ensures s == Lead(s) + TrimStart(s)
  {
    if s == [] || !IsSpace(s[0]) {
      assert s == "" + s;
    } else {
      TrimStartSplits(s[1..]);
      assert s == [s[0]] + s[1..];
    }
  }

  lemma {:induction false} TrimEndCons(c: char, s: string)
    ensures TrimEnd([c] + s) == if TrimEnd(s) == "" then TrimEnd([c]) else [c] + TrimEnd(s)
  {
    if s == [] {
      assert [c] + s == [c];
    } else {
      var k := |s| - 1;
      assert ([c] + s)[..|s|] == [c] + s[..k] && ([c] + s)[|s|] == s[k];
      if IsSpace(s[k]) {
        TrimEndCons(c, s[..k]);
      }
    }
  }

  /** It does not matter which end is trimmed first. */
  lemma {:induction false} TrimEndsCommute(s: string)
    ensures TrimEnd(TrimStart(s)) == TrimStart(TrimEnd(s))
  {
    if s == [] {
    } else {
      var c, rest := s[0], s[1..];
      assert s == [c] + rest;
      TrimEndCons(c, rest);
      if IsSpace(c) {
        TrimEndsCommute(rest);
        assert [c][..0] == "";
        assert TrimEnd(rest) != "" ==> ([c] + TrimEnd(rest))[1..] == TrimEnd(rest);
      } else if TrimEnd(rest) == "" {
        assert TrimEnd([c]) == [c];
      }
    }
  }

  lemma TrimStartTwice(s: string)
    ensures TrimStart(TrimStart(s)) == TrimStart(s)
  {
    TrimStartSplits(s);
  }

  /** Leading whitespace makes no difference to what is parsed. */
  lemma ParseTrimmed(s: string, rule: MatchRule)
    ensures ParseFrom(TrimStart(s), rule) == ParseFrom(s, rule)
  {
    TrimStartTwice(s);
  }

  // ---- keys ----

  /** Characters of recognised keys: no space, comma, equals sign or quote. */
  predicate KeyChar(c: char) { 'a' <= c <= 'z' || c == '_' || IsDigit(c) }

  predicate KeyChars(s: string) { forall i :: 0 <= i < |s| ==> KeyChar(s[i]) }

  lemma LongKeyChars()
    ensures KeyChars("path_namespace") && KeyChars("arg0namespace") && KeyChars("destination")
  {
  }

  lemma ArgKeyChars(n: nat)
    ensures KeyChars("arg" + Digits(n)) && KeyChars("arg" + Digits(n) + "path")
  {
  }

  lemma KeyTextChars(k: Key)
    requires !k.Unknown?
    ensures KeyText(k) != "" && KeyChars(KeyText(k))
  {
    match k
    case Arg(n) => ArgKeyChars(n);
    case ArgPath(n) => ArgKeyChars(n);
    case _ => LongKeyChars();
  }

  /** How every key looks to the parser. */
  lemma KeyShape(it: Item)
    requires Shaped(it)
    ensures KeyForm(KeyText(it.key)) && (KeyText(it.key)[0] == ',' ==> it.comma)
  {
    if !it.key.Unknown? { KeyTextChars(it.key); }
  }

  /** Keys beginning with "arg" other than arg0namespace carry an index. */
  lemma ArgDispatch(rule: MatchRule, key: string, v: string)
    requires "arg" <= key && key != "arg0namespace"
    ensures EndsWith(key, "path") ==>
              |key| >= 7 && ApplyKey(rule, key, v) == InsertArg(rule, key, key[3..|key| - 4], v, true)
    ensures !EndsWith(key, "path") ==> ApplyKey(rule, key, v) == InsertArg(rule, key, key[3..], v, false)
  {
    assert key[0] == 'a';
    if EndsWith(key, "path") { ArgPathLong(key); }
  }

  lemma ArgKeyShape(n: ArgIndex)
    ensures var key := "arg" + Digits(n);
            "arg" <= key && key[3..] == Digits(n) && key != "arg0namespace" && !EndsWith(key, "path")
  {
    var key := "arg" + Digits(n);
    assert key[|key| - 1] == Digits(n)[|Digits(n)| - 1];
    assert "arg0namespace"[12] == 'e';
    var tail := key[|key| - 4..];
    assert tail[3] == key[|key| - 1] && "path"[3] == 'h';
  }

  lemma ArgPathKeyShape(n: ArgIndex)
    ensures var key := "arg" + Digits(n) + "path";
            "arg" <= key && key[3..|key| - 4] == Digits(n) && key != "arg0namespace" && EndsWith(key, "path")
  {
    var key := "arg" + Digits(n) + "path";
    assert key[|key| - 4..] == "path" && key[|key| - 1] == 'h';
    assert "arg0namespace"[12] == 'e';
  }

  lemma ArgApplies(rule: MatchRule, n: ArgIndex, v: string)
    ensures ApplyKey(rule, "arg" + Digits(n), v) == Ok(SetField(rule, Arg(n), v))
  {
    ArgKeyShape(n);
    ArgDispatch(rule, "arg" + Digits(n), v);
    ParseDigits(n, 255);
  }

  lemma ArgPathApplies(rule: MatchRule, n: ArgIndex, v: string)
    ensures ApplyKey(rule, "arg" + Digits(n) + "path", v) == Ok(SetField(rule, ArgPath(n), v))
  {
    ArgPathKeyShape(n);
    ArgDispatch(rule, "arg" + Digits(n) + "path", v);
    ParseDigits(n, 255);
  }

  lemma FieldApplies(rule: MatchRule, k: Key, v: string)
    requires !k.Arg? && !k.ArgPath? && !k.Unknown?
    ensures ApplyField(rule, KeyText(k), v) == Some(SetField(rule, k, v))
  {
  }

  lemma OtherKeyIgnored(rule: MatchRule, key: string, v: string)
    requires OtherKey(key)
    ensures ApplyKey(rule, key, v) == Ok(rule)
  {
    assert "arg" <= "arg0namespace";
  }

  lemma KeyApplies(rule: MatchRule, k: Key, v: string)
    requires k.Unknown? ==> OtherKey(k.text)
    ensures ApplyKey(rule, KeyText(k), v) == Ok(SetField(rule, k, v))
  {
    match k
    case Arg(n) => ArgApplies(rule, n, v);
    case ArgPath(n) => ArgPathApplies(rule, n, v);
    case Unknown(text) => OtherKeyIgnored(rule, text, v);
    case _ => FieldApplies(rule, k, v);
  }

  // ---- one pair ----

  lemma KeyPart(it: Item)
    requires Shaped(it)
    ensures '=' !in KeyText(it.key) + it.left && Trim(KeyText(it.key) + it.left) == KeyText(it.key)
  {
    KeyShape(it);
    BlankAfter(KeyText(it.key), it.left);
  }

  lemma BlankAfter(k: string, w: string)
    requires Blank(w) && Tight(k) && '=' !in k
    ensures '=' !in k + w && Trim(k + w) == k
  {
    TrimAround("", k, w);
    assert "" + (k + w) == k + w;
  }

  /** What may follow a bare value: the end, or a comma after any whitespace. */
  predicate Follows(tail: string) { TrimStart(tail) == "" || TrimStart(tail)[0] == ',' }

  lemma QuotedPart(it: Item, tail: string)
    requires Shaped(it) && !it.bare
    ensures TakeValue(TrimStart(it.right + (ValueText(it) + tail))) == Ok((it.value, tail))
  {
    var s := ValueText(it) + tail;
    assert s[0] == '\'';
    TrimStartBlank(it.right, s);
    assert s[1..] == it.value + (['\''] + tail);
    FindFirst(it.value, '\'', tail);
    assert s[1..|it.value| + 1] == it.value && s[|it.value| + 2..] == tail;
  }

  lemma BareTaken(v: string, w: string, t: string)
    requires BareValue(v) && v != "" && Blank(w) && (t == "" || t[0] == ',')
    ensures TakeValue(v + (w + t)) == Ok((v, t))
  {
    var s := v + (w + t);
    assert ',' !in v + w;
    assert s == (v + w) + t && s[..|v + w|] == v + w && s[|v + w|..] == t;
    if t == "" {
      FindNone(v + w, ',');
      assert s == v + w;
    } else {
      assert t == [','] + t[1..];
      FindFirst(v + w, ',', t[1..]);
    }
    TrimAround("", v, w);
    assert "" + (v + w) == v + w;
  }

  lemma EmptyTaken(t: string)
    requires t == "" || t[0] == ','
    ensures TakeValue(t) == Ok(("", t))
  {
    if t == "" {
    } else {
      assert Find(t, ',') == Some(0);
      assert t[..0] == "" && t[0..] == t;
    }
  }

  lemma BlankThen(w: string, s: string)
    requires Blank(w)
    ensures TrimStart(w + s) == TrimStart(s)
  {
    TrimStartSplits(s);
    assert w + s == (w + Lead(s)) + TrimStart(s);
    TrimStartBlank(w + Lead(s), TrimStart(s));
  }

  lemma BarePart(it: Item, tail: string)
    requires Shaped(it) && it.bare && Follows(tail)
    ensures TakeValue(TrimStart(it.right + (ValueText(it) + tail))) == Ok((it.value, TrimStart(tail)))
  {
    var t := TrimStart(tail);
    TrimStartSplits(tail);
    var w := Lead(tail);
    if it.value == "" {
      assert ValueText(it) + tail == tail;
      BlankThen(it.right, tail);
      EmptyTaken(t);
    } else {
      TrimStartBlank(it.right, it.value + tail);
      BareTaken(it.value, w, t);
    }
  }

  /** What is left for the parser after the value. */
  function AfterValue(it: Item, tail: string): string { if it.bare then TrimStart(tail) else tail }

  lemma ValuePart(it: Item, tail: string)
    requires Shaped(it) && (it.bare ==> Follows(tail))
    ensures TakeValue(TrimStart(it.right + (ValueText(it) + tail))) == Ok((it.value, AfterValue(it, tail)))
  {
    if it.bare { BarePart(it, tail); } else { QuotedPart(it, tail); }
  }

  lemma BodyAtEquals(it: Item, tail: string)
    ensures Body(it) + tail == (KeyText(it.key) + it.left) + (['='] + (it.right + (ValueText(it) + tail)))
  {
  }

  lemma NextPairAt(head: string, tail: string, value: string, rest: string)
    requires '=' !in head && TakeValue(TrimStart(tail)) == Ok((value, rest))
    ensures NextPair(head + (['='] + tail)) == Ok(Pair(Trim(head), value, rest))
  {
    FindFirst(head, '=', tail);
    AroundChar(head, '=', tail);
  }

  lemma AroundChar(head: string, c: char, tail: string)
    ensures var s := head + ([c] + tail); s[..|head|] == head && s[|head| + 1..] == tail
  {
  }

  lemma PairOfBody(it: Item, tail: string)
    requires Shaped(it) && (it.bare ==> Follows(tail))
    ensures NextPair(Body(it) + tail) == Ok(Pair(KeyText(it.key), it.value, AfterValue(it, tail)))
  {
    BodyAtEquals(it, tail);
    KeyPart(it);
    ValuePart(it, tail);
    NextPairAt(KeyText(it.key) + it.left, it.right + (ValueText(it) + tail), it.value, AfterValue(it, tail));
  }

  /** A separator is skipped, with at most one comma. */
  lemma SeparatorSkipped(before: string, comma: bool, after: string, s: string)
    requires Blank(before) && Blank(after) && s != "" && !IsSpace(s[0]) && (s[0] == ',' ==> comma)
    ensures SkipSeparator(before + ((if comma then "," else "") + (after + s))) == s
  {
    TrimStartBlank(after, s);
    if comma {
      TrimStartBlank(before, "," + (after + s));
      assert ("," + (after + s))[1..] == after + s;
    } else {
      assert before + ("" + (after + s)) == (before + after) + s;
      TrimStartBlank(before + after, s);
    }
  }

  lemma ParseBody(it: Item, tail: string, rule: MatchRule)
    requires Printable(it) && (it.bare ==> Follows(tail))
    ensures ParseFrom(Separator(it) + (Body(it) + tail), rule) == ParseFrom(tail, SetField(rule, it.key, it.value))
  {
    var next := SetField(rule, it.key, it.value);
    BodyReached(it, tail);
    PairOfBody(it, tail);
    KeyApplies(rule, it.key, it.value);
    PairTaken(Separator(it) + (Body(it) + tail), Body(it) + tail,
              Pair(KeyText(it.key), it.value, AfterValue(it, tail)), rule, next);
    ParseTrimmed(tail, next);
  }

  lemma BodyReached(it: Item, tail: string)
    requires Shaped(it)
    ensures Body(it) + tail != "" && SkipSeparator(Separator(it) + (Body(it) + tail)) == Body(it) + tail
  {
    KeyShape(it);
    BodyFirst(it, tail);
    SeparatorThen(it, Body(it) + tail);
    SeparatorSkipped(it.before, it.comma, it.after, Body(it) + tail);
  }

  lemma BodyFirst(it: Item, tail: string)
    requires KeyText(it.key) != ""
    ensures Body(it) + tail != "" && (Body(it) + tail)[0] == KeyText(it.key)[0]
  {
  }

  lemma SeparatorThen(it: Item, s: string)
    ensures Separator(it) + s == it.before + ((if it.comma then "," else "") + (it.after + s))
  {
  }

  lemma PairTaken(remaining: string, s: string, p: Pair, rule: MatchRule, next: MatchRule)
    requires s == SkipSeparator(remaining) && s != "" && NextPair(s) == Ok(p)
    requires ApplyKey(rule, p.key, p.value) == Ok(next)
    ensures ParseFrom(remaining, rule) == ParseFrom(p.rest, next)
  {
  }

  /** The items can be followed by `tail`. */
  predicate Continues(items: seq<Item>, tail: string) {
    AllPrintable(items) && Linked(items) && (items != [] && items[|items| - 1].bare ==> Follows(tail))
  }

  lemma CommaFollows(it: Item, s: string)
    requires Shaped(it) && it.comma
    ensures Follows(Separator(it) + s)
  {
    var t := "," + (it.after + s);
    assert Separator(it) + s == it.before + t;
    TrimStartBlank(it.before, t);
  }

  lemma ContinuesTail(items: seq<Item>, tail: string)
    requires Continues(items, tail) && items != []
    ensures Continues(items[1..], tail)
    ensures items[0].bare ==> Follows(Print(items[1..]) + tail)
  {
    var rest := items[1..];
    assert forall i :: 0 <= i < |rest| ==> rest[i] == items[i + 1];
    if rest == [] {
      assert Print(rest) + tail == tail;
    } else if items[0].bare {
      assert items[1].comma;
      CommaFollows(rest[0], Body(rest[0]) + Print(rest[1..]) + tail);
      assert Print(rest) + tail == Separator(rest[0]) + (Body(rest[0]) + Print(rest[1..]) + tail);
    }
  }

  lemma PrintCons(items: seq<Item>, tail: string)
    requires items != []
    ensures Print(items) + tail == Separator(items[0]) + (Body(items[0]) + (Print(items[1..]) + tail))
  {
  }

  /** After any printed pairs the parser stands before `tail` with their fields set. */
  lemma {:induction false} ParseItems(items: seq<Item>, tail: string, rule: MatchRule)
    requires Continues(items, tail)
    ensures ParseFrom(Print(items) + tail, rule) == ParseFrom(tail, Fold(rule, items))
    decreases items
  {
    if items == [] {
      assert Print(items) + tail == tail;
    } else {
      var it, rest := items[0], Print(items[1..]) + tail;
      ContinuesTail(items, tail);
      ParseBody(it, rest, rule);
      PrintCons(items, tail);
      ParseItems(items[1..], tail, SetField(rule, it.key, it.value));
    }
  }

  // ---- whole texts ----

  lemma ParseRuleEnd(text: string)
    ensures ParseRule(text) == ParseFrom(TrimEnd(text), EmptyRule(text))
  {
    TrimEndsCommute(text);
    ParseTrimmed(TrimEnd(text), EmptyRule(text));
  }

  /** A text of printed pairs, something further that ends in no whitespace, and trailing
      whitespace is parsed as that further text with the pairs' fields set. */
  lemma TextParses(items: seq<Item>, tail: string, trail: string)
    requires Continues(items, tail) && Blank(trail) && tail != "" && !IsSpace(tail[|tail| - 1])
    ensures var text := Print(items) + (tail + trail);
            ParseRule(text) == ParseFrom(tail, Fold(EmptyRule(text), items))
  {
    var text := Print(items) + (tail + trail);
    TailTrimmed(Print(items), tail, trail);
    ParseRuleEnd(text);
    ParseItems(items, tail, EmptyRule(text));
  }

  lemma TailTrimmed(front: string, tail: string, trail: string)
    requires Blank(trail) && tail != "" && !IsSpace(tail[|tail| - 1])
    ensures TrimEnd(front + (tail + trail)) == front + tail
  {
    assert front + (tail + trail) == (front + tail) + trail;
    TrimEndBlank(front + tail, trail);
  }

  /** The last pair as trimming leaves it: the whitespace before an empty bare value goes. */
  function Tidied(it: Item): Item { if it.bare && it.value == "" then it.(right := "") else it }

  lemma EmptyValueBody(it: Item, trail: string)
    requires it.bare && it.value == ""
    ensures Body(it) + trail == Body(Tidied(it)) + (it.right + trail)
  {
    var head := KeyText(it.key) + it.left;
    assert Body(it) == head + ("=" + it.right) && Body(Tidied(it)) == head + "=";
    assert (head + ("=" + it.right)) + trail == (head + "=") + (it.right + trail);
  }

  lemma BodyTrimmed(it: Item, trail: string)
    requires Shaped(it) && Blank(trail)
    ensures TrimEnd(Body(it) + trail) == Body(Tidied(it))
    ensures Body(Tidied(it)) != "" && !IsSpace(Body(Tidied(it))[|Body(Tidied(it))| - 1])
  {
    var kept := Body(Tidied(it));
    LastChar(it);
    if it.bare && it.value == "" {
      EmptyValueBody(it, trail);
      TrimEndBlank(kept, it.right + trail);
    } else {
      TrimEndBlank(kept, trail);
    }
  }

  lemma LastChar(it: Item)
    requires Shaped(it)
    ensures var b := Body(Tidied(it)); b != "" && !IsSpace(b[|b| - 1])
  {
    var b := Body(Tidied(it));
    if it.bare && it.value == "" {
      assert b == (KeyText(it.key) + it.left) + "=";
    } else {
      var v := ValueText(it);
      assert b == (KeyText(it.key) + (it.left + ("=" + it.right))) + v;
      assert b[|b| - 1] == v[|v| - 1];
    }
  }

  lemma {:induction false} PrintSnoc(items: seq<Item>, it: Item)
    ensures Print(items + [it]) == Print(items) + (Separator(it) + Body(it))
  {
    var all := items + [it];
    if items == [] {
      assert all == [it] && Body(it) + "" == Body(it);
    } else {
      assert all[0] == items[0] && all[1..] == items[1..] + [it];
      PrintSnoc(items[1..], it);
      Regroup(Separator(items[0]), Body(items[0]), Print(items[1..]), Separator(it) + Body(it));
    }
  }

  lemma Regroup(a: string, b: string, c: string, d: string)
    ensures a + (b + (c + d)) == (a + (b + c)) + d
  {
  }

  lemma {:induction false} FoldSnoc(rule: MatchRule, items: seq<Item>, it: Item)
    ensures Fold(rule, items + [it]) == SetField(Fold(rule, items), it.key, it.value)
    decreases items
  {
    var all := items + [it];
    if items == [] {
      assert all == [it] && all[1..] == [];
    } else {
      assert all[0] == items[0] && all[1..] == items[1..] + [it];
      FoldSnoc(SetField(rule, items[0].key, items[0].value), items[1..], it);
    }
  }

  lemma TidiedContinues(items: seq<Item>, it: Item)
    requires Continues(items + [it], "")
    ensures Continues(items + [Tidied(it)], "")
  {
    var all, tidy := items + [it], items + [Tidied(it)];
    assert forall i :: 0 <= i < |items| ==> tidy[i] == all[i];
    assert all[|items|] == it && tidy[|items|] == Tidied(it);
    assert Printable(it);
  }

  lemma PrintLast(items: seq<Item>, it: Item, trail: string)
    ensures Print(items + [it]) + trail == (Print(items) + Separator(it)) + (Body(it) + trail)
  {
    PrintSnoc(items, it);
  }

  lemma LastTrimmed(items: seq<Item>, it: Item, trail: string)
    requires Shaped(it) && Blank(trail)
    ensures TrimEnd(Print(items + [it]) + trail) == Print(items + [Tidied(it)])
  {
    var front := Print(items) + Separator(it);
    PrintLast(items, it, trail);
    PrintLast(items, Tidied(it), "");
    BodyTrimmed(it, trail);
    TrimEndBehind(front, Body(it) + trail);
    EmptyBehind(Body(Tidied(it)));
    EmptyBehind(Print(items + [Tidied(it)]));
  }

  lemma EmptyBehind(s: string)
    ensures s + "" == s
  {
  }

  lemma {:induction false} TrimEndBehind(a: string, b: string)
    requires TrimEnd(b) != ""
    ensures TrimEnd(a + b) == a + TrimEnd(b)
  {
    if a == [] {
      assert a + b == b && a + TrimEnd(b) == TrimEnd(b);
    } else {
      TrimEndBehind(a[1..], b);
      assert a + b == [a[0]] + (a[1..] + b);
      TrimEndCons(a[0], a[1..] + b);
      assert [a[0]] + (a[1..] + TrimEnd(b)) == a + TrimEnd(b);
    }
  }

  lemma TrimEndAll(w: string)
    requires Blank(w)
    ensures TrimEnd(w) == ""
  {
    TrimEndBlank("", w);
    assert "" + w == w;
  }

  lemma TidiedParses(front: seq<Item>, it: Item, rule: MatchRule)
    requires Continues(front + [Tidied(it)], "")
    ensures ParseFrom(Print(front + [Tidied(it)]), rule) == Ok(Fold(rule, front + [it]))
  {
    var tidy := front + [Tidied(it)];
    ParseItems(tidy, "", rule);
    EmptyBehind(Print(tidy));
    FoldSnoc(rule, front, it);
    FoldSnoc(rule, front, Tidied(it));
  }

  lemma TrimmedParses(items: seq<Item>, trail: string, rule: MatchRule)
    requires AllPrintable(items) && Linked(items) && Blank(trail)
    ensures ParseFrom(TrimEnd(Print(items) + trail), rule) == Ok(Fold(rule, items))
  {
    if items == [] {
      assert Print(items) + trail == trail;
      TrimEndAll(trail);
    } else {
      var front, it := items[..|items| - 1], items[|items| - 1];
      assert items == front + [it];
      assert Printable(it);
      LastTrimmed(front, it, trail);
      TidiedContinues(front, it);
      TidiedParses(front, it, rule);
    }
  }

  /** Printing and parsing back: any list of pairs, recognised or not, bare or quoted, with
      any whitespace, succeeds and gives the last-wins fold of the list. */
  lemma PrintParseRoundTrip(items: seq<Item>, trail: string)
    requires AllPrintable(items) && Linked(items) && Blank(trail)
    ensures var text := Print(items) + trail; ParseRule(text) == Ok(Fold(EmptyRule(text), items))
  {
    var text := Print(items) + trail;
    ParseRuleEnd(text);
    TrimmedParses(items, trail, EmptyRule(text));
  }

  /** A comma at the end is harmless too. */
  lemma TrailingComma(items: seq<Item>, before: string, trail: string)
    requires AllPrintable(items) && Linked(items) && Blank(before) && Blank(trail)
    ensures var text := Print(items) + ((before + ",") + trail); ParseRule(text) == Ok(Fold(EmptyRule(text), items))
  {
    var tail := before + ",";
    TrimStartBlank(before, ",");
    assert tail[|tail| - 1] == ',' && ","[1..] == "";
    TextParses(items, tail, trail);
    NothingLeft(tail, Fold(EmptyRule(Print(items) + (tail + trail)), items));
  }

  // ---- refused texts ----

  /** After any printed pairs and a comma: a further text without an equals sign is
      refused, and named in the error. */
  lemma RefusedWithoutEquals(items: seq<Item>, before: string, after: string, x: string, trail: string)
    requires AllPrintable(items) && Linked(items) && Blank(before) && Blank(after) && Blank(trail)
    requires x != "" && Tight(x) && '=' !in x
    ensures ParseRule(Print(items) + ((before + ("," + (after + x))) + trail))
         == Err(InvalidFormat("Missing '=' in: " + x))
  {
    FindNone(x, '=');
    RefusedAfter(items, before, after, x, trail, InvalidFormat("Missing '=' in: " + x));
  }

  /** A quote that is not closed is refused. */
  lemma RefusedUnclosed(items: seq<Item>, before: string, after: string, key: string, right: string, v: string, trail: string)
    requires AllPrintable(items) && Linked(items) && Blank(before) && Blank(after) && Blank(trail) && Blank(right)
    requires key != "" && !IsSpace(key[0]) && '=' !in key
    requires '\'' !in v && (v != "" ==> !IsSpace(v[|v| - 1]))
    ensures ParseRule(Print(items) + ((before + ("," + (after + (key + ("=" + (right + ("'" + v))))))) + trail))
         == Err(InvalidFormat("Unclosed quote"))
  {
    var q := "'" + v;
    var x := key + ("=" + (right + q));
    assert x == key + (['='] + (right + q)) && x[|x| - 1] == q[|q| - 1];
    UnclosedPair(key, right, v);
    RefusedAfter(items, before, after, x, trail, InvalidFormat("Unclosed quote"));
  }

  lemma UnclosedPair(key: string, right: string, v: string)
    requires '=' !in key && Blank(right) && '\'' !in v
    ensures NextPair(key + (['='] + (right + ("'" + v)))) == Err(InvalidFormat("Unclosed quote"))
  {
    var q := "'" + v;
    FindFirst(key, '=', right + q);
    AroundChar(key, '=', right + q);
    TrimStartBlank(right, q);
    assert q[1..] == v;
    FindNone(v, '\'');
  }

  lemma RefusedAfter(items: seq<Item>, before: string, after: string, x: string, trail: string, e: MatchRuleError)
    requires AllPrintable(items) && Linked(items) && Blank(before) && Blank(after) && Blank(trail)
    requires x != "" && !IsSpace(x[0]) && !IsSpace(x[|x| - 1]) && NextPair(x) == Err(e)
    ensures ParseRule(Print(items) + ((before + ("," + (after + x))) + trail)) == Err(e)
  {
    var tail := before + ("," + (after + x));
    TrimStartBlank(before, "," + (after + x));
    assert tail[|tail| - 1] == x[|x| - 1];
    TextParses(items, tail, trail);
    SeparatorSkipped(before, true, after, x);
    PairFails(tail, Fold(EmptyRule(Print(items) + (tail + trail)), items), x, e);
  }

  /** An argument key with any index text: accepted exactly if it is a numeral up to 63,
      as filter of that argument; otherwise refused, and named in the error. */
  lemma ArgIndexDecides(rule: MatchRule, index: string, v: string)
    requires "arg" + index != "arg0namespace" && !EndsWith("arg" + index, "path")
    ensures ApplyKey(rule, "arg" + index, v) ==
            match ParseUnsigned(index, 255)
            case Some(n) => if n <= 63 then Ok(SetField(rule, Arg(n), v)) else Err(InvalidArgIndex("arg" + index))
            case None => Err(InvalidArgIndex("arg" + index))
  {
    var key := "arg" + index;
    assert key[3..] == index;
    ArgDispatch(rule, key, v);
    InsertArgIs(rule, key, index, v, false);
  }

  lemma InsertArgIs(rule: MatchRule, key: string, index: string, v: string, isPath: bool)
    ensures InsertArg(rule, key, index, v, isPath) ==
            match ParseUnsigned(index, 255)
            case Some(n) =>
              if n <= 63 then Ok(SetField(rule, if isPath then ArgPath(n) else Arg(n), v)) else Err(InvalidArgIndex(key))
            case None => Err(InvalidArgIndex(key))
  {
  }

  lemma ArgPathIndexDecides(rule: MatchRule, index: string, v: string)
    ensures ApplyKey(rule, "arg" + index + "path", v) ==
            match ParseUnsigned(index, 255)
            case Some(n) => if n <= 63 then Ok(SetField(rule, ArgPath(n), v)) else Err(InvalidArgIndex("arg" + index + "path"))
            case None => Err(InvalidArgIndex("arg" + index + "path"))
  {
    var key := "arg" + index + "path";
    assert key[|key| - 4..] == "path" && key[|key| - 1] == 'h' && "arg0namespace"[12] == 'e';
    assert key[3..|key| - 4] == index;
    ArgDispatch(rule, key, v);
    InsertArgIs(rule, key, index, v, true);
  }

  /** "arg" with an index that is no numeral up to 63. */
  predicate BadIndex(key: string, index: string) {
    && (ParseUnsigned(index, 255).None? || ParseUnsigned(index, 255).value > 63)
    && (key == "arg" + index + "path" || (key == "arg" + index && key != "arg0namespace" && !EndsWith(key, "path")))
  }

  lemma BadIndexRefused(rule: MatchRule, key: string, index: string, v: string)
    requires BadIndex(key, index)
    ensures ApplyKey(rule, key, v) == Err(InvalidArgIndex(key))
  {
    if key == "arg" + index + "path" {
      ArgPathIndexDecides(rule, index, v);
    } else {
      ArgIndexDecides(rule, index, v);
    }
  }

  lemma KeyFails(remaining: string, s: string, p: Pair, rule: MatchRule, e: MatchRuleError)
    requires s == SkipSeparator(remaining) && s != "" && NextPair(s) == Ok(p)
    requires ApplyKey(rule, p.key, p.value) == Err(e)
    ensures ParseFrom(remaining, rule) == Err(e)
  {
  }

  /** After any printed pairs and a comma, a pair whose key has such an index is refused. */
  lemma RefusedIndex(items: seq<Item>, it: Item, index: string, trail: string)
    requires AllPrintable(items) && Linked(items) && Blank(trail)
    requires Shaped(it) && it.comma && it == Tidied(it) && BadIndex(KeyText(it.key), index)
    ensures ParseRule(Print(items) + ((Separator(it) + Body(it)) + trail)) == Err(InvalidArgIndex(KeyText(it.key)))
  {
    var tail := Separator(it) + Body(it);
    var rule := Fold(EmptyRule(Print(items) + (tail + trail)), items);
    CommaFollows(it, Body(it));
    LastChar(it);
    assert tail[|tail| - 1] == Body(it)[|Body(it)| - 1];
    TextParses(items, tail, trail);
    EmptyBehind(Body(it));
    BodyReached(it, "");
    PairOfBody(it, "");
    BadIndexRefused(rule, KeyText(it.key), index, it.value);
    KeyFails(tail, Body(it), Pair(KeyText(it.key), it.value, ""), rule, InvalidArgIndex(KeyText(it.key)));
  }
}
