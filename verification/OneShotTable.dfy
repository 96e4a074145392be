/** A table whose entries are put under a key, taken at most once, or swept away.
    Pending calls and pending portal requests are both such tables; what a take
    can return over a whole history of operations is proved once, here. */
module OneShotTable {
  import opened Basics

  datatype Op<K, V> = Put(key: K, val: V) | Take(key: K) | Sweep(dead: set<K>) | Skip

  function Apply<K, V>(t: map<K, V>, op: Op<K, V>): map<K, V> {
    match op
    case Put(k, v) => t[k := v]
    case Take(k) => t - {k}
    case Sweep(dead) => t - dead
    case Skip => t
  }

  function Table<K, V>(ops: seq<Op<K, V>>): map<K, V> {
    if ops == [] then map[]
    else var n := |ops| - 1; Apply(Table(ops[..n]), ops[n])
  }

  predicate Touches<K(==), V>(op: Op<K, V>, k: K) {
    match op
    case Put(key, _) => key == k
    case Take(key) => key == k
    case Sweep(dead) => k in dead
    case Skip => false
  }

  ghost predicate Untouched<K, V>(ops: seq<Op<K, V>>, k: K, from: nat, to: nat)
    requires to <= |ops|
  {
    forall q :: from < q < to ==> !Touches(ops[q], k)
  }

  /** The put that the present entry under `k` comes from. */
  ghost function Origin<K, V>(ops: seq<Op<K, V>>, k: K): Option<nat> {
    if ops == [] then None
    else
      var n := |ops| - 1;
      if !Touches(ops[n], k) then Origin(ops[..n], k)
      else if ops[n].Put? then Some(n) else None
  }

  /** An entry is present exactly when it has an origin: the latest put under its
      key, whose value it still holds, with no take or sweep of the key since. */
  lemma {:induction false} OriginSound<K, V>(ops: seq<Op<K, V>>, k: K)
    ensures k in Table(ops) <==> Origin(ops, k).Some?
    ensures Origin(ops, k).Some? ==>
              var p := Origin(ops, k).value;
              p < |ops| && ops[p] == Put(k, Table(ops)[k]) && Untouched(ops, k, p, |ops|)
  {
    if ops == [] {
    } else {
      var n := |ops| - 1;
      OriginSound(ops[..n], k);
    }
  }

  lemma {:induction false} OriginComplete<K, V>(ops: seq<Op<K, V>>, k: K, p: nat)
    requires p < |ops| && ops[p].Put? && ops[p].key == k && Untouched(ops, k, p, |ops|)
    ensures Origin(ops, k) == Some(p)
  {
    var n := |ops| - 1;
    if p == n {
    } else {
      assert !Touches(ops[n], k);
      OriginComplete(ops[..n], k, p);
    }
  }

  /** The put answered by the operation at `t`, if it is a take that finds one. */
  ghost function Answers<K, V>(ops: seq<Op<K, V>>, t: nat): Option<nat>
    requires t < |ops|
  {
    if ops[t].Take? then Origin(ops[..t], ops[t].key) else None
  }

  /** Each put is answered at most once. */
  lemma AnsweredOnce<K, V>(ops: seq<Op<K, V>>, t: nat, u: nat)
    requires t < u < |ops| && Answers(ops, t).Some?
    ensures Answers(ops, u) != Answers(ops, t)
  {
    OriginSound(ops[..t], ops[t].key);
    if ops[u].Take? {
      OriginSound(ops[..u], ops[u].key);
      assert ops[..u][t] == ops[t];
      assert forall p :: 0 <= p < t ==> ops[..u][p] == ops[..t][p];
    }
  }

  // ---- conservation ----

  function Puts<K, V>(ops: seq<Op<K, V>>): nat {
    if ops == [] then 0
    else var n := |ops| - 1; Puts(ops[..n]) + if ops[n].Put? then 1 else 0
  }

  ghost function Taken<K, V>(ops: seq<Op<K, V>>): nat {
    if ops == [] then 0
    else
      var n := |ops| - 1;
      Taken(ops[..n]) + if ops[n].Take? && ops[n].key in Table(ops[..n]) then 1 else 0
  }

  ghost function Swept<K, V>(ops: seq<Op<K, V>>): nat {
    if ops == [] then 0
    else
      var n := |ops| - 1;
      Swept(ops[..n]) + if ops[n].Sweep? then |ops[n].dead * Table(ops[..n]).Keys| else 0
  }

  ghost function Overwritten<K, V>(ops: seq<Op<K, V>>): nat {
    if ops == [] then 0
    else
      var n := |ops| - 1;
      Overwritten(ops[..n]) + if ops[n].Put? && ops[n].key in Table(ops[..n]) then 1 else 0
  }

  lemma SweepSize<K, V>(t: map<K, V>, dead: set<K>)
    ensures |t - dead| + |dead * t.Keys| == |t|
  {
    var gone, left := dead * t.Keys, t.Keys - dead;
    assert (t - dead).Keys == left;
    assert t.Keys == left + gone && left !! gone;
  }

  lemma PutSize<K, V>(t: map<K, V>, k: K, v: V)
    ensures |t[k := v]| == if k in t then |t| else |t| + 1
  {
    assert t[k := v].Keys == t.Keys + {k};
  }

  /** Nothing is lost or made up: every put is answered, swept, overwritten or
      still there. */
  lemma {:induction false} Conservation<K, V>(ops: seq<Op<K, V>>)
    ensures Puts(ops) == Taken(ops) + Swept(ops) + Overwritten(ops) + |Table(ops)|
  {
    if ops == [] {
    } else {
      var n := |ops| - 1;
      Conservation(ops[..n]);
      var t := Table(ops[..n]);
      match ops[n]
      case Put(k, v) => PutSize(t, k, v);
      case Take(k) => SweepSize(t, {k});
        assert k in t ==> {k} * t.Keys == {k};
      case Sweep(dead) => SweepSize(t, dead);
      case Skip =>
    }
  }
}
