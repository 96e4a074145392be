/** Rewriting of portal request paths from the multiplexer's name to the client's
    (src/message.rs). */
module PortalPaths {
  import opened Basics
  import opened Decimal
  import opened NameQueues
  import opened NameOwnership
  import opened MatchRuleText
  import opened Namespaces
  import opened Serials
  import opened Wire

  function InsertEverywhere(s: string, to: string): string {
    if s == [] then to else to + [s[0]] + InsertEverywhere(s[1..], to)
  }

  /** `str::replace`: every occurrence, leftmost first, without overlap. */
  function Replace(s: string, from: string, to: string): string
    decreases |s|
  {
    if from == "" then InsertEverywhere(s, to)
    else if s == [] then []
    else if from <= s then to + Replace(s[|from|..], from, to)
    else [s[0]] + Replace(s[1..], from, to)
  }

  function TrimColons(s: string): string {
    if s != [] && s[0] == ':' then TrimColons(s[1..]) else s
  }

  /** Every leading colon goes. */
  lemma {:induction false} ColonsTrimmed(k: nat, t: string)
    requires t == "" || t[0] != ':'
    ensures TrimColons(seq(k, _ => ':') + t) == t
  {
    var s := seq(k, _ => ':') + t;
    if k == 0 {
      assert s == t;
    } else {
      assert s[0] == ':' && s[1..] == seq(k - 1, _ => ':') + t;
      ColonsTrimmed(k - 1, t);
    }
  }

  function Underscored(s: string): (r: string)
    ensures |r| == |s| && forall i :: 0 <= i < |s| ==> r[i] == if s[i] == '.' then '_' else s[i]
  {
    seq(|s|, i requires 0 <= i < |s| => if s[i] == '.' then '_' else s[i])
  }

  function Component(uniqueName: string): string { Underscored(TrimColons(uniqueName)) }

  function Rewrite(path: string, muxName: string, clientName: string): string {
    Replace(path, Component(muxName), Component(clientName))
  }

  predicate PathChar(c: char) { 'a' <= c <= 'z' || 'A' <= c <= 'Z' || '0' <= c <= '9' || c == '_' }

  predicate PathText(e: string) { forall i :: 0 <= i < |e| ==> PathChar(e[i]) }

  predicate Element(e: string) { e != "" && PathText(e) }

  /** Object path syntax. */
  predicate IsObjectPath(p: string) {
    ValidPath(p) && forall i :: 0 <= i < |Split(p, '/')| ==> PathText(Split(p, '/')[i])
  }

  /** The path given to the client; None if the rewritten text is no object path. */
  function NewPath(path: string, muxName: string, clientName: string): Option<string> {
    var p := Rewrite(path, muxName, clientName);
    if IsObjectPath(p) then Some(p) else None
  }

  datatype Signal = Signal(destination: Option<string>, path: string, serial: u32, body: seq<byte>)

  /** `clone_portal_response_signal`; if the rewritten text is no object path the signal
      is forwarded as it came. */
  function Readdressed(signal: Signal, muxName: string, clientName: string): Signal {
    match NewPath(signal.path, muxName, clientName)
    case None => signal
    case Some(p) => signal.(destination := Some(clientName), path := p)
  }

  // ---- replacing text ----

  predicate Contains(s: string, x: string) { exists i :: 0 <= i <= |s| && x <= s[i..] }

  lemma ContainsCons(s: string, x: string)
    requires s != []
    ensures Contains(s, x) <==> x <= s || Contains(s[1..], x)
  {
    assert s[0..] == s;
    if Contains(s[1..], x) {
      var i :| 0 <= i <= |s[1..]| && x <= s[1..][i..];
      assert s[1..][i..] == s[i + 1..];
    }
    if Contains(s, x) {
      var i :| 0 <= i <= |s| && x <= s[i..];
      if i > 0 { assert s[1..][i - 1..] == s[i..]; }
    }
  }

  lemma {:induction false} ReplaceKeepsIff(s: string, from: string, to: string)
    requires from != "" && to != "" && from[0] != to[0]
    ensures Replace(s, from, to) == s <==> !Contains(s, from)
  {
    if s == [] {
      assert forall i :: 0 <= i <= |s| ==> s[i..] == [];
    } else {
      ContainsCons(s, from);
      if from <= s {
        assert Replace(s, from, to)[0] == to[0] && s[0] == from[0];
      } else {
        ReplaceKeepsIff(s[1..], from, to);
        SameTail(s, Replace(s[1..], from, to));
      }
    }
  }

  lemma SameTail(s: string, t: string)
    requires s != []
    ensures [s[0]] + t == s <==> t == s[1..]
  {
    assert s == [s[0]] + s[1..];
    assert ([s[0]] + t)[1..] == t;
  }

  lemma ReplaceFirst(s: string, from: string, to: string)
    requires from != "" && s != []
    ensures from <= s ==> Replace(s, from, to) == to + Replace(s[|from|..], from, to)
    ensures !(from <= s) ==> Replace(s, from, to) == [s[0]] + Replace(s[1..], from, to)
  {
  }

  lemma ConsConcat(p: string, r: string)
    requires p != []
    ensures [p[0]] + (p[1..] + r) == p + r
  {
    assert [p[0]] + p[1..] == p;
  }

  lemma {:induction false} ReplaceSkips(p: string, q: string, from: string, to: string)
    requires from != "" && from[0] !in p
    ensures Replace(p + q, from, to) == p + Replace(q, from, to)
  {
    if p == [] {
      assert p + q == q;
    } else {
      assert (p + q)[0] == p[0] && p[0] != from[0] && (p + q)[1..] == p[1..] + q;
      ReplaceFirst(p + q, from, to);
      ReplaceSkips(p[1..], q, from, to);
      ConsConcat(p, Replace(q, from, to));
    }
  }

  lemma ReplaceHere(from: string, rest: string, to: string)
    requires from != ""
    ensures Replace(from + rest, from, to) == to + Replace(rest, from, to)
  {
    assert (from + rest)[|from|..] == rest;
  }

  const REQUEST_PREFIX := "/org/freedesktop/portal/desktop/request/"

  /** The request path of the connection whose path component is `component`. */
  function RequestPath(component: string, token: string): string {
    REQUEST_PREFIX + (component + ("/" + token))
  }

  /** A unique name issued by a bus, such as ":1.88". */
  function BusName(a: nat, b: nat): string { ":" + (Digits(a) + ("." + Digits(b))) }

  lemma BusComponent(a: nat, b: nat)
    ensures Component(BusName(a, b)) == Digits(a) + ("_" + Digits(b))
  {
    var t := Digits(a) + ("." + Digits(b));
    assert BusName(a, b)[1..] == t;
    assert t[0] == Digits(a)[0];
    assert TrimColons(t) == t;
  }

  lemma ClientComponent(n: ClientId)
    ensures Component(UniqueName(n)) == "mux_" + Digits(n)
  {
    var t := "mux." + Digits(n);
    assert UniqueName(n)[1..] == t;
    assert t[0] == 'm';
    assert TrimColons(t) == t;
    assert Underscored(t) == "mux_" + Digits(n);
  }

  lemma PrefixHasNoDigit(c: char)
    requires IsDigit(c)
    ensures c !in REQUEST_PREFIX && c !in "/"
  {
  }

  /** Whatever the token, the rewritten path names the client in the sender element and
      carries the rewritten token. */
  lemma RewrittenRequestPath(a: nat, b: nat, n: ClientId, token: string)
    ensures Rewrite(RequestPath(Component(BusName(a, b)), token), BusName(a, b), UniqueName(n))
         == RequestPath(Component(UniqueName(n)), Replace(token, Component(BusName(a, b)), Component(UniqueName(n))))
  {
    BusComponent(a, b);
    var from, to := Component(BusName(a, b)), Component(UniqueName(n));
    assert from[0] == Digits(a)[0];
    PrefixHasNoDigit(from[0]);
    ReplaceSkips(REQUEST_PREFIX, from + ("/" + token), from, to);
    ReplaceHere(from, "/" + token, to);
    ReplaceSkips("/", token, from, to);
  }

  /** The rewrite gives the client exactly the path it expects, its own component in
      place of the multiplexer's, exactly when the token does not contain the latter. */
  lemma RewriteIsClientPathIff(a: nat, b: nat, n: ClientId, token: string)
    ensures (Rewrite(RequestPath(Component(BusName(a, b)), token), BusName(a, b), UniqueName(n))
             == RequestPath(Component(UniqueName(n)), token))
            <==> !Contains(token, Component(BusName(a, b)))
  {
    BusComponent(a, b);
    ClientComponent(n);
    var from, to := Component(BusName(a, b)), Component(UniqueName(n));
    assert from[0] == Digits(a)[0] && to[0] == 'm';
    RewrittenRequestPath(a, b, n, token);
    ReplaceKeepsIff(token, from, to);
    RequestPathInjective(to, Replace(token, from, to), token);
  }

  lemma RequestPathInjective(component: string, s: string, t: string)
    ensures RequestPath(component, s) == RequestPath(component, t) <==> s == t
  {
    var x, y := RequestPath(component, s), RequestPath(component, t);
    var k := |REQUEST_PREFIX| + |component| + 1;
    assert x[k..] == s && y[k..] == t;
  }

  ghost predicate Becomes(path: string, muxName: string, clientName: string, result: string) {
    Rewrite(path, muxName, clientName) == result
  }

  lemma BecomesOf(a: nat, b: nat, n: ClientId, token: string, changed: string, path: string, result: string)
    requires path == RequestPath(Digits(a) + ("_" + Digits(b)), token)
    requires result == RequestPath("mux_" + Digits(n), changed)
    requires changed == Replace(token, Digits(a) + ("_" + Digits(b)), "mux_" + Digits(n))
    ensures Becomes(path, BusName(a, b), UniqueName(n), result)
  {
    BusComponent(a, b);
    ClientComponent(n);
    RewrittenRequestPath(a, b, n, token);
  }

  /** A token containing the component is corrupted: the client that asked for the token
      "t1_8" gets its response under "tmux_3". */
  lemma TokenIsRewrittenToo()
    ensures Becomes("/org/freedesktop/portal/desktop/request/1_8/t1_8", ":1.8", ":mux.3",
                    "/org/freedesktop/portal/desktop/request/mux_3/tmux_3")
  {
    TokenReplaced();
    WitnessNames();
    assert RequestPath("mux_3", "tmux_3") == "/org/freedesktop/portal/desktop/request/mux_3/tmux_3";
    BecomesOf(1, 8, 3, "t1_8", "tmux_3", "/org/freedesktop/portal/desktop/request/1_8/t1_8",
              "/org/freedesktop/portal/desktop/request/mux_3/tmux_3");
  }

  lemma WitnessNames()
    ensures Digits(1) + ("_" + Digits(8)) == "1_8" && "mux_" + Digits(3) == "mux_3"
    ensures BusName(1, 8) == ":1.8" && UniqueName(3) == ":mux.3"
  {
  }

  lemma TokenReplaced()
    ensures Replace("t1_8", "1_8", "mux_3") == "tmux_3"
  {
    ReplaceSkips("t", "1_8", "1_8", "mux_3");
    ReplaceHere("1_8", "", "mux_3");
    assert "t" + "1_8" == "t1_8" && "1_8" + "" == "1_8" && "mux_3" + "" == "mux_3" && "t" + "mux_3" == "tmux_3";
  }

  /** Distinct clients always get distinct paths, whatever their tokens. */
  lemma ClientsGetDistinctPaths(a: nat, b: nat, m: ClientId, n: ClientId, s: string, t: string)
    requires Rewrite(RequestPath(Component(BusName(a, b)), s), BusName(a, b), UniqueName(m))
          == Rewrite(RequestPath(Component(BusName(a, b)), t), BusName(a, b), UniqueName(n))
    ensures m == n
  {
    RewrittenRequestPath(a, b, m, s);
    RewrittenRequestPath(a, b, n, t);
    ClientComponent(m);
    ClientComponent(n);
    var from := Component(BusName(a, b));
    SameSenderElement(m, n, Replace(s, from, Component(UniqueName(m))), Replace(t, from, Component(UniqueName(n))));
  }

  lemma AfterPrefix(d: string, s: string)
    ensures RequestPath("mux_" + d, s)[|REQUEST_PREFIX| + 4..] == d + (['/'] + s)
  {
  }

  lemma SameSenderElement(m: ClientId, n: ClientId, s: string, t: string)
    requires RequestPath("mux_" + Digits(m), s) == RequestPath("mux_" + Digits(n), t)
    ensures m == n
  {
    var k := |REQUEST_PREFIX| + 4;
    var x, y := RequestPath("mux_" + Digits(m), s), RequestPath("mux_" + Digits(n), t);
    AfterPrefix(Digits(m), s);
    AfterPrefix(Digits(n), t);
    FindFirst(Digits(m), '/', s);
    FindFirst(Digits(n), '/', t);
    assert x[k..][..|Digits(m)|] == Digits(m) && y[k..][..|Digits(n)|] == Digits(n);
    DigitsInjective(m, n);
  }

  // ---- the rewritten path is an object path ----

  lemma {:induction false} ReplaceElement(s: string, from: string, to: string)
    requires from != "" && Element(to) && (s == "" || Element(s))
    ensures s != "" ==> Element(Replace(s, from, to))
    decreases |s|
  {
    if s == "" {
    } else {
      if from <= s {
        ReplaceElement(s[|from|..], from, to);
      } else {
        ReplaceElement(s[1..], from, to);
        assert PathChar(s[0]);
      }
    }
  }

  /** The same syntax character by character, for paths other than the root. */
  predicate Spelled(q: string) {
    && (q == "" || q[|q| - 1] != '/')
    && (forall i :: 0 <= i < |q| ==> q[i] == '/' || PathChar(q[i]))
    && (forall i :: 0 <= i < |q| - 1 ==> q[i] != '/' || q[i + 1] != '/')
  }

  lemma FirstPart(q: string)
    ensures Split(q, '/')[0] == "" <==> q == "" || q[0] == '/'
  {
  }

  lemma SpelledTail(q: string)
    requires Spelled(q) && q != ""
    ensures Spelled(q[1..])
  {
    forall i | 0 <= i < |q[1..]| - 1 ensures q[1..][i] != '/' || q[1..][i + 1] != '/' {
      assert q[1..][i] == q[i + 1] && q[1..][i + 1] == q[i + 2];
    }
  }

  lemma {:induction false} SpelledParts(q: string)
    requires Spelled(q)
    ensures forall i :: 0 <= i < |Split(q, '/')| ==> PathText(Split(q, '/')[i]) && (i > 0 ==> Split(q, '/')[i] != "")
  {
    if q == "" {
    } else {
      SpelledTail(q);
      SpelledParts(q[1..]);
      FirstPart(q[1..]);
    }
  }

  lemma SpelledIsPath(p: string)
    requires Spelled(p) && p != "" && p[0] == '/'
    ensures IsObjectPath(p)
  {
    SpelledParts(p);
    SplitPath(p);
    var parts := Split(p[1..], '/');
    forall i | 0 <= i < |parts| ensures parts[i] != "" {
      assert Split(p, '/')[i + 1] == parts[i];
    }
  }

  /** Every part is path text, and none but the first is empty. */
  ghost predicate GoodParts(parts: seq<string>) {
    forall i :: 0 <= i < |parts| ==> PathText(parts[i]) && (i > 0 ==> parts[i] != "")
  }

  lemma GoodRest(parts: seq<string>)
    requires GoodParts(parts) && |parts| > 1
    ensures GoodParts(parts[1..]) && parts[1..][0] != ""
  {
    assert forall i :: 0 <= i < |parts[1..]| ==> parts[1..][i] == parts[i + 1];
  }

  lemma GoodFirst(c: char, parts: seq<string>)
    requires parts != [] && GoodParts(Prepend(c, parts))
    ensures GoodParts(parts) && PathChar(c)
  {
    var r := Prepend(c, parts);
    assert r[0] == [c] + parts[0] && r[0][0] == c;
    assert forall i :: 0 <= i < |parts[0]| ==> r[0][i + 1] == parts[0][i];
    assert forall i :: 0 < i < |parts| ==> r[i] == parts[i];
  }

  lemma SpelledCons(q: string)
    requires q != "" && Spelled(q[1..]) && (q[0] == '/' || PathChar(q[0]))
    requires q[0] == '/' ==> |q| > 1 && q[1] != '/'
    ensures Spelled(q)
  {
    assert forall i :: 1 <= i < |q| ==> q[i] == q[1..][i - 1];
  }

  lemma {:induction false} PartsAreSpelled(q: string)
    requires GoodParts(Split(q, '/'))
    ensures Spelled(q)
  {
    if q == "" {
    } else {
      var rest := Split(q[1..], '/');
      FirstPart(q[1..]);
      if q[0] == '/' {
        assert Split(q, '/') == [""] + rest && ([""] + rest)[1..] == rest;
        GoodRest(Split(q, '/'));
      } else {
        GoodFirst(q[0], rest);
      }
      PartsAreSpelled(q[1..]);
      SpelledCons(q);
    }
  }

  /** An object path is the root, or starts with a slash, ends in none, has no two in a
      row, and otherwise only path characters. */
  lemma ObjectPathIff(p: string)
    ensures IsObjectPath(p) <==> p == "/" || (p != "" && p[0] == '/' && Spelled(p))
  {
    if p == "/" {
      RootIsPath();
    } else if IsObjectPath(p) {
      SplitPath(p);
      PartsAreSpelled(p);
    } else if p != "" && p[0] == '/' && Spelled(p) {
      SpelledIsPath(p);
    }
  }

  lemma RootIsPath()
    ensures IsObjectPath("/")
  {
    SplitPath("/");
    assert "/"[1..] == "" && Split("", '/') == [""];
  }

  lemma PrefixIsSpelled()
    ensures forall i :: 0 <= i < |REQUEST_PREFIX| ==> REQUEST_PREFIX[i] == '/' || PathChar(REQUEST_PREFIX[i])
    ensures forall i :: 0 <= i < |REQUEST_PREFIX| - 1 ==> REQUEST_PREFIX[i] != '/' || REQUEST_PREFIX[i + 1] != '/'
  {
  }

  lemma RequestPathIsPath(component: string, token: string)
    requires Element(component) && Element(token)
    ensures IsObjectPath(RequestPath(component, token))
  {
    PrefixIsSpelled();
    var p, k := RequestPath(component, token), |REQUEST_PREFIX|;
    assert forall i :: 0 <= i < k ==> p[i] == REQUEST_PREFIX[i];
    assert forall i :: k <= i < k + |component| ==> PathChar(p[i]) by {
      forall i | k <= i < k + |component| ensures PathChar(p[i]) { assert p[i] == component[i - k]; }
    }
    assert forall i :: k + |component| < i < |p| ==> PathChar(p[i]) by {
      forall i | k + |component| < i < |p| ensures PathChar(p[i]) { assert p[i] == token[i - k - |component| - 1]; }
    }
    assert p[k + |component|] == '/';
    SpelledIsPath(p);
  }

  /** A Response on a request path is always delivered rewritten, on the client's
      own request path exactly when the token is free of the multiplexer's component. */
  lemma DeliveredPath(a: nat, b: nat, n: ClientId, token: string)
    requires Element(token)
    ensures var from, to := Component(BusName(a, b)), Component(UniqueName(n));
            var p := NewPath(RequestPath(from, token), BusName(a, b), UniqueName(n));
            && p == Some(RequestPath(to, Replace(token, from, to)))
            && (p == Some(RequestPath(to, token)) <==> !Contains(token, from))
  {
    var from, to := Component(BusName(a, b)), Component(UniqueName(n));
    BusComponent(a, b);
    ClientComponent(n);
    assert Element(to);
    RewrittenRequestPath(a, b, n, token);
    ReplaceElement(token, from, to);
    RequestPathIsPath(to, Replace(token, from, to));
    RewriteIsClientPathIff(a, b, n, token);
  }

  /** A signal whose rewritten path is no object path is forwarded as it came; in particular
      every signal while the multiplexer has no unique name of its own. */
  lemma NoMuxNameForwardsOriginal(signal: Signal, muxName: string, n: ClientId)
    ensures !IsObjectPath(Rewrite(signal.path, muxName, UniqueName(n))) ==>
              Readdressed(signal, muxName, UniqueName(n)) == signal
    ensures Readdressed(signal, "", UniqueName(n)) == signal
  {
    ClientComponent(n);
    var to := Component(UniqueName(n));
    assert Component("") == "";
    assert InsertEverywhere(signal.path, to)[0] == to[0] == 'm';
  }

  /** The characters of object path elements, and other characters of bus names. */
  lemma PathCharsAre()
    ensures PathText("ABCDEFGHIJKLMNOPQRSTUVWXYZ") && PathText("abcdefghijklmnopqrstuvwxyz") && PathText("0123456789_")
    ensures !PathChar('-') && !PathChar('.') && !PathChar(':') && !PathChar('/')
  {
    PathLetters();
  }

  lemma PathLetters()
    ensures PathText("ABCDEFGHIJKLMNOPQRSTUVWXYZ") && PathText("abcdefghijklmnopqrstuvwxyz")
  {
  }

  // ---- any path with the component as one whole element ----

  /** `x` occurs in `s` at `at` and nowhere else. */
  ghost predicate OccursOnlyAt(s: string, x: string, at: nat) {
    at <= |s| && forall i :: 0 <= i <= |s| ==> (x <= s[i..] <==> i == at)
  }

  lemma OnlyAtStart(s: string, from: string)
    requires from != "" && OccursOnlyAt(s, from, 0)
    ensures from <= s && !Contains(s[|from|..], from)
  {
    assert s[0..] == s;
    var rest := s[|from|..];
    forall i | 0 <= i <= |rest| ensures !(from <= rest[i..]) {
      assert rest[i..] == s[i + |from|..];
    }
  }

  lemma OnlyLater(s: string, from: string, at: nat)
    requires OccursOnlyAt(s, from, at) && at > 0
    ensures OccursOnlyAt(s[1..], from, at - 1)
  {
    forall i | 0 <= i <= |s[1..]| ensures from <= s[1..][i..] <==> i == at - 1 {
      assert s[1..][i..] == s[i + 1..];
    }
  }

  lemma {:induction false} ReplaceNone(s: string, from: string, to: string)
    requires from != "" && !Contains(s, from)
    ensures Replace(s, from, to) == s
  {
    if s == [] {
    } else {
      ContainsCons(s, from);
      ReplaceNone(s[1..], from, to);
    }
  }

  ghost predicate OccursOnce(s: string, x: string) { exists at: nat :: OccursOnlyAt(s, x, at) }

  lemma NotAtStart(s: string, from: string, at: nat)
    requires OccursOnlyAt(s, from, at) && at > 0
    ensures !(from <= s)
  {
    assert s[0..] == s;
  }

  lemma {:induction false} ReplaceMiddle(pre: string, from: string, post: string, to: string)
    requires from != "" && OccursOnlyAt(pre + (from + post), from, |pre|)
    ensures Replace(pre + (from + post), from, to) == pre + (to + post)
    decreases |pre|
  {
    var s := pre + (from + post);
    if pre == "" {
      assert s == from + post;
      OnlyAtStart(s, from);
      assert s[|from|..] == post;
      ReplaceHere(from, post, to);
      ReplaceNone(post, from, to);
      assert pre + (to + post) == to + post;
    } else {
      NotAtStart(s, from, |pre|);
      OnlyLater(s, from, |pre|);
      assert s[0] == pre[0] && s[1..] == pre[1..] + (from + post);
      ReplaceFirst(s, from, to);
      ReplaceMiddle(pre[1..], from, post, to);
      ConsConcat(pre, to + post);
    }
  }

  lemma OccursThere(pre: string, x: string, post: string)
    requires OccursOnce(pre + (x + post), x)
    ensures OccursOnlyAt(pre + (x + post), x, |pre|)
  {
    var s := pre + (x + post);
    assert s[|pre|..] == x + post;
    assert x <= s[|pre|..];
  }

  /** If the text occurs once in a path, as its k-th element, replacing it changes
      exactly that element. */
  lemma OneElementReplaced(p: string, k: nat, from: string, to: string)
    requires from != "" && '/' !in to
    requires k < |Split(p, '/')| && Split(p, '/')[k] == from && OccursOnce(p, from)
    ensures Split(Replace(p, from, to), '/') == Split(p, '/')[k := to]
  {
    var parts := Split(p, '/');
    JoinSplit(p, '/');
    JoinAround(parts, k, '/');
    OccursThere(Before(parts, k, '/'), from, Behind(parts, k, '/'));
    ReplaceMiddle(Before(parts, k, '/'), from, Behind(parts, k, '/'), to);
    JoinAround(parts[k := to], k, '/');
    SameAround(parts, k, to, '/');
    SplitParts(p, '/');
    SplitJoin(parts[k := to], '/');
  }

  /** The multiplexer's component occurs once in the path, as its k-th element. */
  ghost predicate NamesMux(path: string, k: nat, muxName: string) {
    && Component(muxName) != "" && OccursOnce(path, Component(muxName))
    && k < |Split(path, '/')| && Split(path, '/')[k] == Component(muxName)
  }

  lemma ClientElement(n: ClientId)
    ensures Element(Component(UniqueName(n))) && '/' !in Component(UniqueName(n))
  {
    ClientComponent(n);
  }

  /** Then the rewrite puts the client's component there and changes nothing else. */
  lemma OneElementRewritten(path: string, k: nat, muxName: string, n: ClientId)
    requires NamesMux(path, k, muxName)
    ensures Split(Rewrite(path, muxName, UniqueName(n)), '/') == Split(path, '/')[k := "mux_" + Digits(n)]
  {
    ClientElement(n);
    ClientComponent(n);
    OneElementReplaced(path, k, Component(muxName), Component(UniqueName(n)));
  }

  lemma SplitInjective(p: string, q: string)
    requires Split(p, '/') == Split(q, '/')
    ensures p == q
  {
    JoinSplit(p, '/');
    JoinSplit(q, '/');
  }

  lemma UpdatedSame(a: seq<string>, b: seq<string>, k: nat, x: string, y: string)
    requires k < |a| && k < |b| && a[k] == b[k] && a[k := x] == b[k := y]
    ensures x == y && a == b
  {
    assert a[k := x][k] == x && b[k := y][k] == y;
    assert a == a[k := x][k := a[k]] && b == b[k := y][k := b[k]];
  }

  /** Two clients get the same rewritten path only as one client on one path. */
  lemma RewriteInjective(p: string, q: string, k: nat, muxName: string, m: ClientId, n: ClientId)
    requires NamesMux(p, k, muxName) && NamesMux(q, k, muxName)
    ensures Rewrite(p, muxName, UniqueName(m)) == Rewrite(q, muxName, UniqueName(n)) <==> p == q && m == n
  {
    OneElementRewritten(p, k, muxName, m);
    OneElementRewritten(q, k, muxName, n);
    if Rewrite(p, muxName, UniqueName(m)) == Rewrite(q, muxName, UniqueName(n)) {
      UpdatedSame(Split(p, '/'), Split(q, '/'), k, "mux_" + Digits(m), "mux_" + Digits(n));
      assert ("mux_" + Digits(m))[4..] == Digits(m) && ("mux_" + Digits(n))[4..] == Digits(n);
      DigitsInjective(m, n);
      SplitInjective(p, q);
    }
  }

  /** On an object path the rewritten path is one too, so it is what the client gets. */
  lemma OneElementDelivered(signal: Signal, k: nat, muxName: string, n: ClientId)
    requires NamesMux(signal.path, k, muxName) && IsObjectPath(signal.path)
    ensures var delivered := Readdressed(signal, muxName, UniqueName(n));
            && Split(delivered.path, '/') == Split(signal.path, '/')[k := "mux_" + Digits(n)]
            && delivered == signal.(destination := Some(UniqueName(n)), path := delivered.path)
  {
    var path := signal.path;
    OneElementRewritten(path, k, muxName, n);
    ClientElement(n);
    ClientComponent(n);
    ElementUpdated(path, k, Component(UniqueName(n)), Rewrite(path, muxName, UniqueName(n)));
  }

  lemma ElementUpdated(p: string, k: nat, e: string, q: string)
    requires IsObjectPath(p) && k < |Split(p, '/')| && Split(p, '/')[k] != "" && Element(e)
    requires Split(q, '/') == Split(p, '/')[k := e]
    ensures IsObjectPath(q)
  {
    SplitPath(p);
    var parts := Split(p[1..], '/');
    assert k > 0;
    assert Split(q, '/') == [""] + parts[k - 1 := e];
    RootedText(q, parts[k - 1 := e]);
  }

  /** A text whose first component is empty starts with the separator. */
  lemma RootedText(q: string, parts: seq<string>)
    requires parts != [] && Split(q, '/') == [""] + parts
    ensures q != "" && q[0] == '/' && Split(q[1..], '/') == parts
  {
    JoinSplit(q, '/');
    assert ([""] + parts)[1..] == parts;
    SplitPath(q);
  }
}
