/** What the namespace tests of match rules mean in terms of components. */
module Namespaces {
  import opened MatchFilter

  /** The components between separators. */
  function Split(s: string, sep: char): (parts: seq<string>)
    ensures parts != []
  {
    if s == [] then [""]
    else if s[0] == sep then [""] + Split(s[1..], sep)
    else Prepend(s[0], Split(s[1..], sep))
  }

  /** The components with `c` put in front of the first. */
  function Prepend(c: char, parts: seq<string>): (r: seq<string>)
    requires parts != []
    ensures r != []
  {
    [[c] + parts[0]] + parts[1..]
  }

  function Join(parts: seq<string>, sep: char): string
    requires parts != []
  {
    if |parts| == 1 then parts[0] else parts[0] + ([sep] + Join(parts[1..], sep))
  }

  lemma PrependAppend(c: char, x: seq<string>, y: seq<string>)
    requires x != []
    ensures Prepend(c, x + y) == Prepend(c, x) + y
  {
    assert (x + y)[1..] == x[1..] + y;
  }

  lemma PrependJoin(c: char, parts: seq<string>, sep: char)
    requires parts != []
    ensures Join(Prepend(c, parts), sep) == [c] + Join(parts, sep)
  {
    var r := Prepend(c, parts);
    assert r[0] == [c] + parts[0] && r[1..] == parts[1..];
    if |parts| > 1 {
      assert ([c] + parts[0]) + ([sep] + Join(parts[1..], sep)) == [c] + (parts[0] + ([sep] + Join(parts[1..], sep)));
    }
  }

  lemma {:induction false} JoinSplit(s: string, sep: char)
    ensures Join(Split(s, sep), sep) == s
  {
    if s == [] {
    } else {
      var rest := Split(s[1..], sep);
      JoinSplit(s[1..], sep);
      assert s == [s[0]] + s[1..];
      if s[0] == sep {
        assert ([""] + rest)[1..] == rest;
        assert "" + ([sep] + s[1..]) == s;
      } else {
        PrependJoin(s[0], rest, sep);
      }
    }
  }

  lemma {:induction false} SplitConcat(a: string, b: string, sep: char)
    ensures Split(a + ([sep] + b), sep) == Split(a, sep) + Split(b, sep)
  {
    var s := a + ([sep] + b);
    if a == [] {
      assert s[0] == sep && s[1..] == b;
    } else {
      assert s[0] == a[0] && s[1..] == a[1..] + ([sep] + b);
      SplitConcat(a[1..], b, sep);
      if a[0] == sep {
        assert [""] + (Split(a[1..], sep) + Split(b, sep)) == ([""] + Split(a[1..], sep)) + Split(b, sep);
      } else {
        PrependAppend(a[0], Split(a[1..], sep), Split(b, sep));
      }
    }
  }

  lemma {:induction false} SplitWhole(s: string, sep: char)
    requires sep !in s
    ensures Split(s, sep) == [s]
  {
    if s == [] {
    } else {
      assert s[0] in s;
      SplitWhole(s[1..], sep);
      assert [s[0]] + s[1..] == s;
    }
  }

  /** A first component without the separator is split off. */
  lemma SplitFirst(head: string, rest: string, sep: char)
    requires sep !in head
    ensures Split(head + ([sep] + rest), sep) == [head] + Split(rest, sep)
  {
    SplitConcat(head, rest, sep);
    SplitWhole(head, sep);
  }

  lemma {:induction false} JoinConcat(x: seq<string>, y: seq<string>, sep: char)
    requires x != [] && y != []
    ensures Join(x + y, sep) == Join(x, sep) + ([sep] + Join(y, sep))
  {
    assert (x + y)[1..] == x[1..] + y;
    if |x| == 1 {
      assert x[1..] + y == y;
    } else {
      JoinConcat(x[1..], y, sep);
    }
  }

  lemma {:induction false} SplitParts(s: string, sep: char)
    ensures forall i :: 0 <= i < |Split(s, sep)| ==> sep !in Split(s, sep)[i]
  {
    if s == [] {
    } else {
      SplitParts(s[1..], sep);
    }
  }

  lemma {:induction false} SplitJoin(parts: seq<string>, sep: char)
    requires parts != [] && forall i :: 0 <= i < |parts| ==> sep !in parts[i]
    ensures Split(Join(parts, sep), sep) == parts
  {
    SplitWhole(parts[0], sep);
    if |parts| == 1 {
    } else {
      SplitJoin(parts[1..], sep);
      SplitFirst(parts[0], Join(parts[1..], sep), sep);
    }
  }

  /** The text before and behind the k-th component. */
  function Before(parts: seq<string>, k: nat, sep: char): string
    requires k < |parts|
  {
    if k == 0 then "" else Join(parts[..k], sep) + [sep]
  }

  function Behind(parts: seq<string>, k: nat, sep: char): string
    requires k < |parts|
  {
    if k + 1 == |parts| then "" else [sep] + Join(parts[k + 1..], sep)
  }

  lemma JoinAround(parts: seq<string>, k: nat, sep: char)
    requires k < |parts|
    ensures Join(parts, sep) == Before(parts, k, sep) + (parts[k] + Behind(parts, k, sep))
  {
    JoinFrom(parts, k, sep);
    JoinUpTo(parts, k, sep);
  }

  lemma JoinUpTo(parts: seq<string>, k: nat, sep: char)
    requires k < |parts|
    ensures Join(parts, sep) == Before(parts, k, sep) + Join(parts[k..], sep)
  {
    if k == 0 {
      assert parts[0..] == parts;
    } else {
      assert parts[..k] + parts[k..] == parts;
      JoinConcat(parts[..k], parts[k..], sep);
      Regroup(Join(parts[..k], sep), [sep], Join(parts[k..], sep));
    }
  }

  lemma Regroup(a: string, b: string, c: string)
    ensures a + (b + c) == (a + b) + c
  {
  }

  lemma JoinFrom(parts: seq<string>, k: nat, sep: char)
    requires k < |parts|
    ensures Join(parts[k..], sep) == parts[k] + Behind(parts, k, sep)
  {
    assert parts[k..][1..] == parts[k + 1..];
  }

  lemma SameAround(parts: seq<string>, k: nat, x: string, sep: char)
    requires k < |parts|
    ensures Before(parts[k := x], k, sep) == Before(parts, k, sep)
    ensures Behind(parts[k := x], k, sep) == Behind(parts, k, sep)
  {
    assert parts[k := x][..k] == parts[..k] && parts[k := x][k + 1..] == parts[k + 1..];
  }

  /** The string test holds exactly when the namespace's components are a prefix of the
      name's, for all strings and separators. */
  lemma UnderIsComponentPrefix(s: string, ns: string, sep: char)
    ensures Under(s, ns, sep) <==> Split(ns, sep) <= Split(s, sep)
  {
    if s == ns {
    } else if ns + [sep] <= s {
      var rest := s[|ns| + 1..];
      assert s == ns + ([sep] + rest);
      SplitConcat(ns, rest, sep);
    } else if Split(ns, sep) <= Split(s, sep) {
      var x, y := Split(ns, sep), Split(s, sep)[|Split(ns, sep)|..];
      assert Split(s, sep) == x + y;
      JoinSplit(s, sep);
      JoinSplit(ns, sep);
      ComponentsDiffer(s, ns, x, y, sep);
    }
  }

  lemma ComponentsDiffer(s: string, ns: string, x: seq<string>, y: seq<string>, sep: char)
    requires x != [] && s == Join(x + y, sep) && ns == Join(x, sep)
    ensures s == ns || ns + [sep] <= s
  {
    if y == [] {
      assert x + y == x;
    } else {
      JoinConcat(x, y, sep);
      PrefixBySeparator(ns, sep, Join(y, sep));
    }
  }

  lemma PrefixBySeparator(ns: string, sep: char, t: string)
    ensures ns + [sep] <= ns + ([sep] + t)
  {
    assert ns + ([sep] + t) == (ns + [sep]) + t;
  }

  // ---- object paths ----

  predicate ValidPath(p: string) {
    p != "" && p[0] == '/' && (p == "/" || "" !in Split(p[1..], '/'))
  }

  /** The elements of an object path; the root has none. */
  function Elements(p: string): seq<string>
    requires p != ""
  {
    if p == "/" then [] else Split(p[1..], '/')
  }

  lemma SplitPath(p: string)
    requires p != "" && p[0] == '/'
    ensures Split(p, '/') == [""] + Split(p[1..], '/')
  {
    assert p == "" + (['/'] + p[1..]);
    SplitConcat("", p[1..], '/');
  }

  lemma PrefixCons(x: string, a: seq<string>, b: seq<string>)
    ensures [x] + a <= [x] + b <==> a <= b
  {
    if a <= b { assert [x] + b == ([x] + a) + b[|a|..]; }
    if [x] + a <= [x] + b {
      assert a == ([x] + a)[1..] && b == ([x] + b)[1..];
    }
  }

  lemma RootUnder(p: string)
    requires ValidPath(p)
    ensures Under(p, "/", '/') <==> p == "/"
  {
    if p != "/" {
      var q := p[1..];
      var parts := Split(q, '/');
      var first := parts[0];
      assert first in parts;
      assert q == [] || q[0] == '/' ==> first == "";
    }
  }

  lemma NonRootUnder(p: string, ns: string)
    requires ValidPath(p) && ValidPath(ns) && ns != "/"
    ensures Under(p, ns, '/') <==> Elements(ns) <= Elements(p)
  {
    UnderIsComponentPrefix(p, ns, '/');
    SplitPath(p);
    SplitPath(ns);
    PrefixCons("", Split(ns[1..], '/'), Split(p[1..], '/'));
    if p == "/" {
      assert p[1..] == "" && Split("", '/') == [""];
      assert Split(ns[1..], '/')[0] in Split(ns[1..], '/');
    }
  }

  /** On object paths the test is the namespace relation of "Match Rules" exactly when
      the namespace is not the root (or the path is): the root namespace, which ought to
      contain every path, matches only itself. */
  lemma PathNamespaceExactIff(p: string, ns: string)
    requires ValidPath(p) && ValidPath(ns)
    ensures (Under(p, ns, '/') <==> Elements(ns) <= Elements(p)) <==> (ns != "/" || p == "/")
  {
    if ns == "/" { RootUnder(p); } else { NonRootUnder(p, ns); }
  }

  /** The documented expectation fails at the root namespace. */
  lemma RootNamespaceMatchesOnlyRoot()
    ensures ValidPath("/a") && ValidPath("/") && Elements("/") <= Elements("/a") && !Under("/a", "/", '/')
  {
    SplitWhole("a", '/');
    assert "/a"[1..] == "a";
    assert !("//" <= "/a") by { assert "/a"[1] != '/'; }
  }
}
