/** JSON values as the serialisers build them. A JSON object is its entry list in insertion
    order, which is how a Python dict keeps it; `Put` is the dict assignment `d[k] = v`. */
module Json {
  import opened Results

  datatype Json =
    | JInt(n: int)
    | JStr(s: string)
    | JArr(items: seq<Json>)
    | JObj(fields: Fields)

  /** The entries of an object, oldest first. */
  type Fields = seq<(string, Json)>

  /** The keys an entry list binds. */
  function KeySet(fs: Fields): set<string> {
    if |fs| == 0 then {} else {fs[0].0} + KeySet(fs[1..])
  }

  /** A key is bound exactly when some entry carries it. */
  lemma {:induction false} KeySetIndex(fs: Fields)
    ensures forall i :: 0 <= i < |fs| ==> fs[i].0 in KeySet(fs)
    ensures forall k :: k in KeySet(fs) ==> exists i :: 0 <= i < |fs| && fs[i].0 == k
  {
    if |fs| > 0 {
      KeySetIndex(fs[1..]);
      forall i | 0 < i < |fs|
        ensures fs[i].0 in KeySet(fs)
      {
        assert fs[1..][i - 1] == fs[i];
      }
      forall k | k in KeySet(fs[1..])
        ensures exists i :: 0 <= i < |fs| && fs[i].0 == k
      {
        var j :| 0 <= j < |fs[1..]| && fs[1..][j].0 == k;
        assert fs[j + 1].0 == k;
      }
    }
  }

  /** No key is bound twice, as in every Python dict. */
  predicate DistinctKeys(fs: Fields) {
    forall i, j :: 0 <= i < j < |fs| ==> fs[i].0 != fs[j].0
  }

  /** `d.get(k)`: the value bound to `k`, searched from the oldest entry. */
  function Lookup(fs: Fields, k: string): (r: Option<Json>)
    ensures r.Some? <==> k in KeySet(fs)
  {
    if |fs| == 0 then None
    else if fs[0].0 == k then Some(fs[0].1)
    else Lookup(fs[1..], k)
  }

  /** In a dict, the lookup of a stored key returns the value stored with it. */
  lemma {:induction false} LookupFindsEntry(fs: Fields, i: int)
    requires DistinctKeys(fs)
    requires 0 <= i < |fs|
    ensures Lookup(fs, fs[i].0) == Some(fs[i].1)
    decreases i
  {
    if i > 0 {
      assert fs[0].0 != fs[i].0;
      assert DistinctKeys(fs[1..]) by {
        forall a, b | 0 <= a < b < |fs[1..]|
          ensures fs[1..][a].0 != fs[1..][b].0
        {
          assert fs[1..][a] == fs[a + 1] && fs[1..][b] == fs[b + 1];
        }
      }
      LookupFindsEntry(fs[1..], i - 1);
      assert fs[1..][i - 1] == fs[i];
    }
  }

  /** A dict display `{k1: v1, ..., kn: vn}` with distinct keys binds exactly its keys, each to
      its own value. */
  lemma {:induction false} DisplayFacts(es: Fields)
    requires DistinctKeys(es)
    ensures KeySet(es) == set i | 0 <= i < |es| :: es[i].0
    ensures forall i :: 0 <= i < |es| ==> Lookup(es, es[i].0) == Some(es[i].1)
  {
    KeySetIndex(es);
    forall i | 0 <= i < |es|
      ensures Lookup(es, es[i].0) == Some(es[i].1)
    {
      LookupFindsEntry(es, i);
    }
  }

  /** How the entry-list functions see an entry in front of a list. */
  lemma {:induction false} ConsEntry(x: (string, Json), t: Fields)
    ensures ([x] + t)[1..] == t
    ensures KeySet([x] + t) == {x.0} + KeySet(t)
    ensures forall k :: Lookup([x] + t, k) == if x.0 == k then Some(x.1) else Lookup(t, k)
    ensures DistinctKeys([x] + t) <==> x.0 !in KeySet(t) && DistinctKeys(t)
  {
    var s := [x] + t;
    assert s[1..] == t;
    KeySetIndex(t);
    if DistinctKeys(s) {
      forall a, b | 0 <= a < b < |t|
        ensures t[a].0 != t[b].0
      {
        assert s[a + 1] == t[a] && s[b + 1] == t[b];
      }
    }
    if x.0 !in KeySet(t) && DistinctKeys(t) {
      forall a, b | 0 <= a < b < |s|
        ensures s[a].0 != s[b].0
      {
        assert s[b] == t[b - 1];
        if a > 0 {
          assert s[a] == t[a - 1];
        }
      }
    }
  }

  /** The dict assignment `d[k] = v`: a present key is rebound where it stands, a new key is
      appended at the end. */
  function Put(fs: Fields, k: string, v: Json): (r: Fields)
    ensures KeySet(r) == KeySet(fs) + {k}
    ensures |r| == if k in KeySet(fs) then |fs| else |fs| + 1
    ensures Lookup(r, k) == Some(v)
    ensures forall k' :: k' != k ==> Lookup(r, k') == Lookup(fs, k')
    ensures DistinctKeys(fs) ==> DistinctKeys(r)
  {
    if |fs| == 0 then
      ConsEntry((k, v), []);
      [(k, v)]
    else
      var t := fs[1..];
      assert fs == [fs[0]] + t;
      ConsEntry(fs[0], t);
      if fs[0].0 == k then
        ConsEntry((k, v), t);
        [(k, v)] + t
      else
        var p := Put(t, k, v);
        ConsEntry(fs[0], p);
        [fs[0]] + p
  }

  /** Entry `i` is the last entry of `es` that binds its key. */
  predicate LastBinding(es: Fields, i: int)
    requires 0 <= i < |es|
  {
    forall j :: i < j < |es| ==> es[j].0 != es[i].0
  }

  /** Dropping the newest entry of a list drops its key unless an older entry binds it too. */
  lemma {:induction false} KeySetOfFront(es: Fields)
    requires |es| > 0
    ensures KeySet(es) == KeySet(es[..|es| - 1]) + {es[|es| - 1].0}
  {
    var front := es[..|es| - 1];
    KeySetIndex(es);
    KeySetIndex(front);
    forall k | k in KeySet(es)
      ensures k in KeySet(front) + {es[|es| - 1].0}
    {
      var i :| 0 <= i < |es| && es[i].0 == k;
      if i < |es| - 1 {
        assert front[i] == es[i];
      }
    }
  }

  /** An entry that binds its key last in `es`, other than the newest one, does so in the older
      entries too, and under a key other than the newest one's. */
  lemma {:induction false} LastBindingOfFront(es: Fields)
    requires |es| > 0
    ensures forall i :: 0 <= i < |es| - 1 && LastBinding(es, i) ==>
      es[..|es| - 1][i] == es[i] && LastBinding(es[..|es| - 1], i) && es[i].0 != es[|es| - 1].0
  {
  }

  /** One assignment more: if `prev` is the dict built from all entries of `es` but the
      newest, assigning the newest gives the dict built from all of `es`. */
  lemma {:induction false} PutAllStep(es: Fields, front: Fields, prev: Fields)
    requires |es| > 0 && front == es[..|es| - 1]
    requires DistinctKeys(prev)
    requires KeySet(prev) == KeySet(front)
    requires forall i :: 0 <= i < |front| && LastBinding(front, i) ==> Lookup(prev, front[i].0) == Some(front[i].1)
    ensures var r := Put(prev, es[|es| - 1].0, es[|es| - 1].1);
      && DistinctKeys(r)
      && KeySet(r) == KeySet(es)
      && forall i :: 0 <= i < |es| && LastBinding(es, i) ==> Lookup(r, es[i].0) == Some(es[i].1)
  {
    KeySetOfFront(es);
    LastBindingOfFront(es);
  }

  /** The dict the assignments `d[k] = v` for the entries of `es` build, in order, from an
      empty dict. */
  function PutAll(es: Fields): (r: Fields)
    ensures DistinctKeys(r)
    ensures KeySet(r) == KeySet(es)
    ensures forall i :: 0 <= i < |es| && LastBinding(es, i) ==> Lookup(r, es[i].0) == Some(es[i].1)
    decreases |es|
  {
    if |es| == 0 then []
    else
      var front := es[..|es| - 1];
      var prev := PutAll(front);
      PutAllStep(es, front, prev);
      Put(prev, es[|es| - 1].0, es[|es| - 1].1)
  }

  /** Position `i` of `ks` holds the last occurrence of its key. */
  predicate LastIn(ks: seq<string>, i: int)
    requires 0 <= i < |ks|
  {
    forall j :: i < j < |ks| ==> ks[j] != ks[i]
  }

  /** Every key of a list has a last occurrence, at or after any given one. */
  lemma {:induction false} LastOccurrence(ks: seq<string>, i: int)
    requires 0 <= i < |ks|
    ensures exists j :: i <= j < |ks| && ks[j] == ks[i] && LastIn(ks, j)
    decreases |ks| - i
  {
    if !LastIn(ks, i) {
      var j :| i < j < |ks| && ks[j] == ks[i];
      LastOccurrence(ks, j);
    }
  }

  /** The entries `(ks[i], vs[i])`, in order. */
  function Zip(ks: seq<string>, vs: seq<Json>): (es: Fields)
    requires |ks| == |vs|
    ensures |es| == |ks|
    ensures forall i :: 0 <= i < |ks| ==> es[i] == (ks[i], vs[i])
  {
    seq(|ks|, i requires 0 <= i < |ks| => (ks[i], vs[i]))
  }

  /** The zipped entries bind exactly the keys, each last occurrence last. */
  lemma {:induction false} ZipBinds(ks: seq<string>, vs: seq<Json>)
    requires |ks| == |vs|
    ensures KeySet(Zip(ks, vs)) == set k | k in ks
    ensures forall i :: 0 <= i < |ks| && LastIn(ks, i) ==> LastBinding(Zip(ks, vs), i)
  {
    var es := Zip(ks, vs);
    KeySetIndex(es);
    forall k | k in ks
      ensures k in KeySet(es)
    {
      var i :| 0 <= i < |ks| && ks[i] == k;
      assert es[i].0 == k;
    }
  }

  /** The dict the assignments `d[ks[i]] = vs[i]` build, in order, from an empty dict. Its keys
      are exactly those of `ks`, and a key assigned several times holds its last value. */
  function Assign(ks: seq<string>, vs: seq<Json>): (fs: Fields)
    requires |ks| == |vs|
    ensures DistinctKeys(fs)
    ensures KeySet(fs) == set k | k in ks
    ensures forall i :: 0 <= i < |ks| && LastIn(ks, i) ==> Lookup(fs, ks[i]) == Some(vs[i])
  {
    ZipBinds(ks, vs);
    PutAll(Zip(ks, vs))
  }
}
