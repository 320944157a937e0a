/**
 * A JavaScript object used as a dictionary: its own enumerable string keys in
 * insertion order, each with one value.  `for (k in o)` visits the entries in
 * this order and `o[k] = v` either overwrites an existing key in place or
 * appends a new one.
 */
module Records {
  import opened Options

  type Record<V> = seq<(string, V)>

  /** No key appears twice. */
  ghost predicate DistinctKeys<V>(r: Record<V>) {
    forall i, j :: 0 <= i < j < |r| ==> r[i].0 != r[j].0
  }

  function KeySet<V>(r: Record<V>): set<string> {
    set i | 0 <= i < |r| :: r[i].0
  }

  /** `o[k]`: the value of the first entry with key `k`, absent when no entry has it. */
  function Lookup<V>(r: Record<V>, k: string): (v: Option<V>)
    ensures v.None? <==> k !in KeySet(r)
  {
    if r == [] then None
    else
      KeySetCons(r[0], r[1..]);
      if r[0].0 == k then Some(r[0].1) else Lookup(r[1..], k)
  }

  /** `o[k] = v`: overwrite in place when `k` is present, append otherwise. */
  function Assign<V>(r: Record<V>, k: string, v: V): (r': Record<V>)
    ensures Lookup(r', k) == Some(v)
    ensures forall k' :: k' != k ==> Lookup(r', k') == Lookup(r, k')
    ensures KeySet(r') == KeySet(r) + {k}
    ensures |r'| == if k in KeySet(r) then |r| else |r| + 1
  {
    if r == [] then
      assert KeySet([(k, v)]) == {k} by { KeySetCons((k, v), []); }
      [(k, v)]
    else
      KeySetCons(r[0], r[1..]);
      if r[0].0 == k then
        KeySetCons((k, v), r[1..]);
        [(k, v)] + r[1..]
      else
        var rest := Assign(r[1..], k, v);
        KeySetCons(r[0], rest);
        [r[0]] + rest
  }

  /** Assignment never introduces a duplicate key. */
  lemma {:induction false} AssignKeepsDistinct<V>(r: Record<V>, k: string, v: V)
    requires DistinctKeys(r)
    ensures DistinctKeys(Assign(r, k, v))
  {
    if r == [] {
    } else if r[0].0 == k {
      var r' := Assign(r, k, v);
      assert r'[1..] == r[1..];
    } else {
      var tail := r[1..];
      AssignKeepsDistinct(tail, k, v);
      var rest := Assign(tail, k, v);
      assert Assign(r, k, v) == [r[0]] + rest;
      forall i | 0 <= i < |tail| ensures tail[i].0 != r[0].0 {
        assert tail[i] == r[i + 1];
      }
      assert r[0].0 !in KeySet(tail);
      assert r[0].0 !in KeySet(rest);
      forall j | 0 <= j < |rest| ensures rest[j].0 != r[0].0 {
        assert rest[j].0 in KeySet(rest);
      }
    }
  }

  lemma KeySetCons<V>(e: (string, V), r: Record<V>)
    ensures KeySet([e] + r) == {e.0} + KeySet(r)
  {
    var l := [e] + r;
    forall k | k in KeySet(l) ensures k in {e.0} + KeySet(r) {
      var i :| 0 <= i < |l| && l[i].0 == k;
      if i > 0 { assert r[i - 1] == l[i]; }
    }
    forall k | k in KeySet(r) ensures k in KeySet(l) {
      var i :| 0 <= i < |r| && r[i].0 == k;
      assert l[i + 1] == r[i];
    }
    assert l[0] == e;
  }

  lemma KeySetSnoc<V>(r: Record<V>, e: (string, V))
    ensures KeySet(r + [e]) == KeySet(r) + {e.0}
  {
    var l := r + [e];
    forall k | k in KeySet(l) ensures k in KeySet(r) + {e.0} {
      var i :| 0 <= i < |l| && l[i].0 == k;
      if i < |r| { assert r[i] == l[i]; }
    }
    forall k | k in KeySet(r) ensures k in KeySet(l) {
      var i :| 0 <= i < |r| && r[i].0 == k;
      assert l[i] == r[i];
    }
    assert l[|r|] == e;
  }

  /** Only the empty record has no keys. */
  lemma KeySetEmpty<V>(r: Record<V>)
    ensures KeySet(r) == {} <==> r == []
  {
    if r != [] {
      assert r[0].0 in KeySet(r);
    }
  }
}
