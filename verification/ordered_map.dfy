/** Python dicts keep insertion order; the string-keyed dicts of the backend
    are modelled as sequences of key/value pairs. `Get` is `d.get(k)`, `Put`
    is item assignment `d[k] = v` and `Update` is `d.update(other)`. */
module OrderedMap {
  import opened Wrappers

  function Keys<V>(m: seq<(string, V)>): (ks: seq<string>)
    ensures |ks| == |m|
    ensures forall i :: 0 <= i < |m| ==> ks[i] == m[i].0
  {
    seq(|m|, i requires 0 <= i < |m| => m[i].0)
  }

  /** The dict invariant: no key occurs twice. */
  predicate DistinctKeys<V>(m: seq<(string, V)>)
  {
    forall i, j :: 0 <= i < j < |m| ==> m[i].0 != m[j].0
  }

  /** `d.get(k)`: the value of the first pair with key `k`. */
  function Get<V>(m: seq<(string, V)>, k: string): Option<V>
    decreases |m|
  {
    if |m| == 0 then None
    else if m[0].0 == k then Some(m[0].1)
    else Get(m[1..], k)
  }

  /** `d[k] = v`: an existing key keeps its place and takes the new value; a
      new key goes at the end. */
  function Put<V>(m: seq<(string, V)>, k: string, v: V): seq<(string, V)>
    decreases |m|
  {
    if |m| == 0 then [(k, v)]
    else if m[0].0 == k then [(k, v)] + m[1..]
    else [m[0]] + Put(m[1..], k, v)
  }

  /** `d.update(p)`: every pair of `p`, in order, put into `d`. */
  function Update<V>(m: seq<(string, V)>, p: seq<(string, V)>): seq<(string, V)>
    decreases |p|
  {
    if |p| == 0 then m else Update(Put(m, p[0].0, p[0].1), p[1..])
  }

  /** `d.get(k, 0)` for natural-number values. */
  function GetOrZero(m: seq<(string, nat)>, k: string): nat
  {
    Get(m, k).GetOr(0)
  }

  /** Sum of the values of a map with natural-number values. */
  function SumValues(m: seq<(string, nat)>): nat
    decreases |m|
  {
    if |m| == 0 then 0 else m[0].1 + SumValues(m[1..])
  }

  lemma GetCons<V>(x: (string, V), m: seq<(string, V)>, k: string)
    ensures Get([x] + m, k) == if x.0 == k then Some(x.1) else Get(m, k)
  {
    assert ([x] + m)[1..] == m;
  }

  lemma KeysCons<V>(x: (string, V), m: seq<(string, V)>)
    ensures Keys([x] + m) == [x.0] + Keys(m)
  {
  }

  /** After `d[k] = v`, `k` maps to `v` and every other key to what it
      mapped to before. */
  lemma {:induction false} PutGet<V>(m: seq<(string, V)>, k: string, v: V, c: string)
    ensures Get(Put(m, k, v), c) == if c == k then Some(v) else Get(m, c)
    decreases |m|
  {
    if |m| == 0 {
      GetCons((k, v), [], c);
    } else if m[0].0 == k {
      GetCons((k, v), m[1..], c);
      GetCons(m[0], m[1..], c);
      assert [m[0]] + m[1..] == m;
    } else {
      PutGet(m[1..], k, v, c);
      GetCons(m[0], Put(m[1..], k, v), c);
      GetCons(m[0], m[1..], c);
      assert [m[0]] + m[1..] == m;
    }
  }

  /** `d[k] = v` keeps the keys and their order, adding `k` at the end when
      it is new. */
  lemma {:induction false} PutKeys<V>(m: seq<(string, V)>, k: string, v: V)
    ensures Keys(Put(m, k, v)) == if k in Keys(m) then Keys(m) else Keys(m) + [k]
    decreases |m|
  {
    if |m| == 0 {
    } else if m[0].0 == k {
      assert Keys(m)[0] == k;
      assert Keys(Put(m, k, v)) == Keys(m);
    } else {
      PutKeys(m[1..], k, v);
      KeysCons(m[0], Put(m[1..], k, v));
      assert Keys(m) == [m[0].0] + Keys(m[1..]);
    }
  }

  lemma PutDistinct<V>(m: seq<(string, V)>, k: string, v: V)
    requires DistinctKeys(m)
    ensures DistinctKeys(Put(m, k, v))
  {
    PutKeys(m, k, v);
    var r := Put(m, k, v);
    assert forall i :: 0 <= i < |r| ==> r[i].0 == Keys(r)[i];
  }

  /** `d.update(p)` keeps the keys of `d` first and in their order. */
  lemma {:induction false} UpdateKeepsOrder<V>(m: seq<(string, V)>, p: seq<(string, V)>)
    ensures |m| <= |Update(m, p)| && Keys(Update(m, p))[..|m|] == Keys(m)
    decreases |p|
  {
    if |p| > 0 {
      var m' := Put(m, p[0].0, p[0].1);
      PutKeys(m, p[0].0, p[0].1);
      UpdateKeepsOrder(m', p[1..]);
      assert Keys(m')[..|m|] == Keys(m);
    }
  }

  /** `d.update(p)` has the keys of `d` and of `p` and no others. */
  lemma {:induction false} UpdateKeys<V>(m: seq<(string, V)>, p: seq<(string, V)>, k: string)
    ensures k in Keys(Update(m, p)) <==> k in Keys(m) || k in Keys(p)
    decreases |p|
  {
    if |p| > 0 {
      var m' := Put(m, p[0].0, p[0].1);
      PutKeys(m, p[0].0, p[0].1);
      UpdateKeys(m', p[1..], k);
      assert Keys(p) == [p[0].0] + Keys(p[1..]);
    }
  }

  /** `d.update(p)` keeps keys distinct. */
  lemma {:induction false} UpdateDistinct<V>(m: seq<(string, V)>, p: seq<(string, V)>)
    requires DistinctKeys(m)
    ensures DistinctKeys(Update(m, p))
    decreases |p|
  {
    if |p| > 0 {
      PutDistinct(m, p[0].0, p[0].1);
      UpdateDistinct(Put(m, p[0].0, p[0].1), p[1..]);
    }
  }

  /** After `d.update(p)`, a key of `p` has its value from `p`, and every
      other key keeps the value it had in `d`. */
  lemma {:induction false} UpdateGet<V>(m: seq<(string, V)>, p: seq<(string, V)>, k: string)
    requires DistinctKeys(p)
    ensures Get(Update(m, p), k) == if k in Keys(p) then Get(p, k) else Get(m, k)
    decreases |p|
  {
    if |p| > 0 {
      var m' := Put(m, p[0].0, p[0].1);
      PutGet(m, p[0].0, p[0].1, k);
      assert Keys(p) == [p[0].0] + Keys(p[1..]);
      UpdateGet(m', p[1..], k);
      if k == p[0].0 {
        assert k !in Keys(p[1..]);
      }
    }
  }

  /** Assigning a key the value it already has changes nothing. */
  lemma {:induction false} PutPresent<V>(m: seq<(string, V)>, k: string, v: V)
    requires Get(m, k) == Some(v)
    ensures Put(m, k, v) == m
    decreases |m|
  {
    if m[0].0 != k {
      PutPresent(m[1..], k, v);
    }
  }

  /** Updating a dict with pairs it already holds changes nothing. */
  lemma {:induction false} UpdateAbsorbs<V>(m: seq<(string, V)>, p: seq<(string, V)>)
    requires DistinctKeys(p)
    requires forall k :: k in Keys(p) ==> Get(m, k) == Get(p, k)
    ensures Update(m, p) == m
    decreases |p|
  {
    if |p| > 0 {
      assert p[0].0 in Keys(p);
      PutPresent(m, p[0].0, p[0].1);
      forall k | k in Keys(p[1..])
        ensures Get(m, k) == Get(p[1..], k)
      {
        var i :| 0 <= i < |p[1..]| && Keys(p[1..])[i] == k;
        assert p[i + 1].0 == k;
        assert k in Keys(p);
      }
      UpdateAbsorbs(m, p[1..]);
    }
  }

  /** `d.update(p)` twice is `d.update(p)` once. */
  lemma UpdateIdempotent<V>(m: seq<(string, V)>, p: seq<(string, V)>)
    requires DistinctKeys(p)
    ensures Update(Update(m, p), p) == Update(m, p)
  {
    forall k | k in Keys(p)
      ensures Get(Update(m, p), k) == Get(p, k)
    {
      UpdateGet(m, p, k);
    }
    UpdateAbsorbs(Update(m, p), p);
  }

  /** `d[k] = v` read back through `d.get(c, 0)`. */
  lemma PutGetOrZero(m: seq<(string, nat)>, k: string, v: nat, c: string)
    ensures GetOrZero(Put(m, k, v), c) == if c == k then v else GetOrZero(m, c)
  {
    PutGet(m, k, v, c);
  }

  /** Setting `d[k] = v` changes the sum of the values by `v - d.get(k, 0)`. */
  lemma {:induction false} PutSum(m: seq<(string, nat)>, k: string, v: nat)
    ensures SumValues(Put(m, k, v)) + GetOrZero(m, k) == SumValues(m) + v
    decreases |m|
  {
    if |m| == 0 {
    } else if m[0].0 == k {
      assert ([(k, v)] + m[1..])[1..] == m[1..];
    } else {
      PutSum(m[1..], k, v);
      assert ([m[0]] + Put(m[1..], k, v))[1..] == Put(m[1..], k, v);
    }
  }
}
