/** Python values as produced by a YAML load of a manifest document, and
    the insertion-ordered dictionary operations the modelled code uses on
    them. `VNone` is Python's `None` (YAML `null`); a dictionary is an
    ordered list of entries with distinct keys, as Python dicts keep
    insertion order. */
module PyValue {
  import opened Wrappers

  datatype Value =
    | VNone
    | VStr(s: string)
    | VList(items: seq<Value>)
    | VDict(entries: seq<(string, Value)>)

  /** Python truthiness (`bool(v)`). */
  predicate Truthy(v: Value) {
    match v
    case VNone => false
    case VStr(s) => s != []
    case VList(xs) => xs != []
    case VDict(d) => d != []
  }

  function Keys<V>(d: seq<(string, V)>): (r: seq<string>)
    ensures |r| == |d| && forall i :: 0 <= i < |d| ==> r[i] == d[i].0
  {
    if d == [] then [] else [d[0].0] + Keys(d[1..])
  }

  predicate DistinctKeys<V>(d: seq<(string, V)>) {
    forall i, j :: 0 <= i < j < |d| ==> d[i].0 != d[j].0
  }

  predicate HasKey<V>(d: seq<(string, V)>, k: string) {
    exists i :: 0 <= i < |d| && d[i].0 == k
  }

  /** `d.get(k)`: the value stored under `k`, if any. */
  function Lookup<V>(d: seq<(string, V)>, k: string): (r: Option<V>)
    ensures r.None? <==> !HasKey(d, k)
  {
    if d == [] then None
    else if d[0].0 == k then Some(d[0].1)
    else (HasKeyTail(d, k); Lookup(d[1..], k))
  }

  /** What `d.get(k)` returns is stored in `d` under `k`. */
  lemma {:induction false} LookupFound<V>(d: seq<(string, V)>, k: string)
    requires HasKey(d, k)
    ensures exists i :: 0 <= i < |d| && d[i] == (k, Lookup(d, k).value)
  {
    if d[0].0 != k {
      HasKeyTail(d, k);
      LookupFound(d[1..], k);
      var i :| 0 <= i < |d[1..]| && d[1..][i] == (k, Lookup(d[1..], k).value);
      assert d[i + 1] == d[1..][i];
    }
  }

  /** In a dict with distinct keys, the entry holding `k` is what `d.get(k)` returns. */
  lemma {:induction false} LookupDistinct<V>(d: seq<(string, V)>, i: int)
    requires DistinctKeys(d) && 0 <= i < |d|
    ensures Lookup(d, d[i].0) == Some(d[i].1)
  {
    if i > 0 {
      assert d[0].0 != d[i].0;
      assert DistinctKeys(d[1..]) by {
        forall a, b | 0 <= a < b < |d[1..]| ensures d[1..][a].0 != d[1..][b].0 {
          assert d[1..][a] == d[a + 1] && d[1..][b] == d[b + 1];
        }
      }
      LookupDistinct(d[1..], i - 1);
    }
  }

  /** `d[k] = v` on an insertion-ordered dict: an existing key keeps its
      position and takes the new value, a new key goes last. */
  function DictSet<V>(d: seq<(string, V)>, k: string, v: V): (r: seq<(string, V)>)
    ensures |r| == |d| || |r| == |d| + 1
  {
    if d == [] then [(k, v)]
    else if d[0].0 == k then [(k, v)] + d[1..]
    else [d[0]] + DictSet(d[1..], k, v)
  }

  lemma HasKeyTail<V>(d: seq<(string, V)>, k: string)
    requires d != [] && d[0].0 != k
    ensures HasKey(d, k) <==> HasKey(d[1..], k)
  {
    if HasKey(d, k) { var i :| 0 <= i < |d| && d[i].0 == k; assert d[1..][i - 1].0 == k; }
    if HasKey(d[1..], k) { var i :| 0 <= i < |d[1..]| && d[1..][i].0 == k; assert d[i + 1].0 == k; }
  }

  /** `d[k] = v` adds `k` to the key order only when it is new, at the end. */
  lemma {:induction false} DictSetKeys<V>(d: seq<(string, V)>, k: string, v: V)
    ensures Keys(DictSet(d, k, v)) == if HasKey(d, k) then Keys(d) else Keys(d) + [k]
  {
    if d == [] {
    } else if d[0].0 == k {
      assert HasKey(d, k) by { assert d[0].0 == k; }
      assert Keys(DictSet(d, k, v)) == [k] + Keys(d[1..]);
    } else {
      HasKeyTail(d, k);
      DictSetKeys(d[1..], k, v);
      assert Keys(DictSet(d, k, v)) == [d[0].0] + Keys(DictSet(d[1..], k, v));
      if !HasKey(d, k) {
        assert [d[0].0] + (Keys(d[1..]) + [k]) == ([d[0].0] + Keys(d[1..])) + [k];
      }
    }
  }

  /** After `d[k] = v`, `k` maps to `v` and every other key is unaffected. */
  lemma {:induction false} DictSetLookup<V>(d: seq<(string, V)>, k: string, v: V, j: string)
    ensures Lookup(DictSet(d, k, v), j) == if j == k then Some(v) else Lookup(d, j)
  {
    if d != [] && d[0].0 != k {
      DictSetLookup(d[1..], k, v, j);
    }
  }

  /** A new key goes last. */
  lemma {:induction false} DictSetNew<V>(d: seq<(string, V)>, k: string, v: V)
    requires !HasKey(d, k)
    ensures DictSet(d, k, v) == d + [(k, v)]
  {
    if d != [] {
      assert d[0].0 != k;
      HasKeyTail(d, k);
      DictSetNew(d[1..], k, v);
      assert [d[0]] + (d[1..] + [(k, v)]) == d + [(k, v)];
    }
  }

  /** Setting the last key again replaces its value in place. */
  lemma {:induction false} DictSetLast<V>(d: seq<(string, V)>, k: string, v: V, w: V)
    requires !HasKey(d, k)
    ensures DictSet(d + [(k, v)], k, w) == d + [(k, w)]
  {
    if d != [] {
      assert d[0].0 != k;
      HasKeyTail(d, k);
      DictSetLast(d[1..], k, v, w);
      assert (d + [(k, v)])[1..] == d[1..] + [(k, v)];
      assert [d[0]] + (d[1..] + [(k, w)]) == d + [(k, w)];
    }
  }

  /** Setting a key twice leaves only the second value. */
  lemma {:induction false} DictSetTwice<V>(d: seq<(string, V)>, k: string, v: V, w: V)
    ensures DictSet(DictSet(d, k, v), k, w) == DictSet(d, k, w)
  {
    if d != [] && d[0].0 != k {
      DictSetTwice(d[1..], k, v, w);
    }
  }
}
