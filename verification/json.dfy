/**
 * The JSON document model the importer reads and the exporter writes.
 *
 * Objects are ordered key/value sequences so that the key order of an exported
 * document is part of the model. `Put` is Python's `d[k] = v` (an existing key
 * keeps its position and gets the new value, a new key is appended) and
 * `UpdateAll` is `d.update(other)`. A document produced by a JSON parser is
 * `WellFormed`: no object repeats a key.
 */
module Json {
  import opened Base

  datatype Json =
    | JNull
    | JBool(b: bool)
    | JNum(n: int)
    | JStr(s: string)
    | JArr(items: seq<Json>)
    | JObj(fields: seq<(string, Json)>)

  type Fields = seq<(string, Json)>

  /** Python truthiness of a decoded JSON value (`if value:`). */
  predicate Truthy(j: Json) {
    match j
    case JNull => false
    case JBool(b) => b
    case JNum(n) => n != 0
    case JStr(s) => |s| > 0
    case JArr(xs) => |xs| > 0
    case JObj(fs) => |fs| > 0
  }

  /** The keys of an object. */
  function Keys(fs: Fields): (ks: set<string>)
    ensures forall i | 0 <= i < |fs| :: fs[i].0 in ks
  {
    if |fs| == 0 then {} else {fs[0].0} + Keys(fs[1..])
  }

  /** Every key is the key of some entry. */
  lemma {:induction false} KeysWitness(fs: Fields, k: string)
    requires k in Keys(fs)
    ensures exists i | 0 <= i < |fs| :: fs[i].0 == k
    decreases |fs|
  {
    if fs[0].0 != k {
      KeysWitness(fs[1..], k);
      var i :| 0 <= i < |fs[1..]| && fs[1..][i].0 == k;
      assert fs[i + 1].0 == k;
    }
  }

  /** An object has no keys exactly when it is empty. */
  lemma KeysEmpty(fs: Fields)
    ensures Keys(fs) == {} <==> |fs| == 0
  {
    if |fs| > 0 {
      assert fs[0].0 in Keys(fs);
    }
  }

  /** No key occurs twice, as in every Python dict. */
  predicate DistinctKeys(fs: Fields) {
    forall i, j | 0 <= i < j < |fs| :: fs[i].0 != fs[j].0
  }

  /** The head key of a dict does not recur in its tail, and the tail is a dict. */
  lemma DistinctTail(fs: Fields)
    requires |fs| > 0 && DistinctKeys(fs)
    ensures fs[0].0 !in Keys(fs[1..])
    ensures DistinctKeys(fs[1..])
  {
    forall k | k in Keys(fs[1..])
      ensures k != fs[0].0
    {
      KeysWitness(fs[1..], k);
      var i :| 0 <= i < |fs[1..]| && fs[1..][i].0 == k;
      assert fs[i + 1].0 == k;
    }
  }

  /** Every object nested anywhere in `j` has distinct keys. */
  predicate WellFormed(j: Json) {
    match j
    case JArr(xs) => forall i | 0 <= i < |xs| :: WellFormed(xs[i])
    case JObj(fs) => DistinctKeys(fs) && forall i | 0 <= i < |fs| :: WellFormed(fs[i].1)
    case _ => true
  }

  /** `d.get(k)`: the value stored under `k`, if any. */
  function Get(fs: Fields, k: string): (r: Option<Json>)
    ensures r.Some? <==> k in Keys(fs)
    ensures r.Some? ==> (k, r.value) in fs
  {
    if |fs| == 0 then None
    else if fs[0].0 == k then Some(fs[0].1)
    else Get(fs[1..], k)
  }

  /** In a dict, the value of an entry is what lookup of its key yields. */
  lemma {:induction false} GetEntry(fs: Fields, i: nat)
    requires DistinctKeys(fs) && i < |fs|
    ensures Get(fs, fs[i].0) == Some(fs[i].1)
    decreases i
  {
    if i > 0 {
      assert fs[0].0 != fs[i].0;
      assert DistinctKeys(fs[1..]);
      assert fs[1..][i - 1] == fs[i];
      GetEntry(fs[1..], i - 1);
    }
  }

  /** `d.get(k, default)`. */
  function GetOr(fs: Fields, k: string, default: Json): (r: Json)
    ensures k in Keys(fs) ==> Get(fs, k) == Some(r)
    ensures k !in Keys(fs) ==> r == default
  {
    match Get(fs, k)
    case Some(v) => v
    case None => default
  }

  /** `d[k] = v`. */
  function Put(fs: Fields, k: string, v: Json): (r: Fields)
    ensures Keys(r) == Keys(fs) + {k}
    ensures k !in Keys(fs) ==> r == fs + [(k, v)]
  {
    if |fs| == 0 then [(k, v)]
    else if fs[0].0 == k then [(k, v)] + fs[1..]
    else [fs[0]] + Put(fs[1..], k, v)
  }

  /** After `d[k] = v`, `k` holds `v` and every other key is unchanged. */
  lemma {:induction false} PutGet(fs: Fields, k: string, v: Json, k': string)
    ensures Get(Put(fs, k, v), k') == if k' == k then Some(v) else Get(fs, k')
    decreases |fs|
  {
    if |fs| > 0 && fs[0].0 != k {
      PutGet(fs[1..], k, v, k');
    }
  }

  /** Assignment keeps the keys of a dict distinct. */
  lemma {:induction false} PutDistinct(fs: Fields, k: string, v: Json)
    requires DistinctKeys(fs)
    ensures DistinctKeys(Put(fs, k, v))
    decreases |fs|
  {
    if |fs| > 0 && fs[0].0 != k {
      DistinctTail(fs);
      PutDistinct(fs[1..], k, v);
      var rest := Put(fs[1..], k, v);
      assert fs[0].0 !in Keys(rest);
      var r := [fs[0]] + rest;
      forall i, j | 0 <= i < j < |r|
        ensures r[i].0 != r[j].0
      {
        if i == 0 {
          assert r[j] == rest[j - 1];
        } else {
          assert r[i] == rest[i - 1] && r[j] == rest[j - 1];
        }
      }
    } else if |fs| > 0 {
      var r := [(k, v)] + fs[1..];
      forall i, j | 0 <= i < j < |r|
        ensures r[i].0 != r[j].0
      {
        assert r[j] == fs[j];
        if i > 0 {
          assert r[i] == fs[i];
        }
      }
    }
  }

  /** `d.update(other)`: every entry of `gs`, in order, is `Put` into `fs`. */
  function UpdateAll(fs: Fields, gs: Fields): (r: Fields)
    ensures Keys(r) == Keys(fs) + Keys(gs)
    decreases |gs|
  {
    if |gs| == 0 then fs
    else UpdateAll(Put(fs, gs[0].0, gs[0].1), gs[1..])
  }

  /** `update` leaves the keys it does not mention unchanged. */
  lemma {:induction false} UpdateAllGetOther(fs: Fields, gs: Fields, k: string)
    requires k !in Keys(gs)
    ensures Get(UpdateAll(fs, gs), k) == Get(fs, k)
    decreases |gs|
  {
    if |gs| > 0 {
      PutGet(fs, gs[0].0, gs[0].1, k);
      UpdateAllGetOther(Put(fs, gs[0].0, gs[0].1), gs[1..], k);
    }
  }

  /** With a dict argument, `update` makes every key of `gs` hold its value in `gs`. */
  lemma {:induction false} UpdateAllGet(fs: Fields, gs: Fields, k: string)
    requires DistinctKeys(gs)
    requires k in Keys(gs)
    ensures Get(UpdateAll(fs, gs), k) == Get(gs, k)
    decreases |gs|
  {
    DistinctTail(gs);
    if gs[0].0 != k {
      UpdateAllGet(Put(fs, gs[0].0, gs[0].1), gs[1..], k);
    } else {
      PutGet(fs, gs[0].0, gs[0].1, k);
      UpdateAllGetOther(Put(fs, gs[0].0, gs[0].1), gs[1..], k);
    }
  }

  /** `update` keeps the keys of a dict distinct. */
  lemma {:induction false} UpdateAllDistinct(fs: Fields, gs: Fields)
    requires DistinctKeys(fs)
    ensures DistinctKeys(UpdateAll(fs, gs))
    decreases |gs|
  {
    if |gs| > 0 {
      PutDistinct(fs, gs[0].0, gs[0].1);
      UpdateAllDistinct(Put(fs, gs[0].0, gs[0].1), gs[1..]);
    }
  }

  /** Updating with entries whose keys are all new appends them in order. */
  lemma {:induction false} UpdateAllFresh(fs: Fields, gs: Fields)
    requires DistinctKeys(gs)
    requires Keys(fs) !! Keys(gs)
    ensures UpdateAll(fs, gs) == fs + gs
    decreases |gs|
  {
    if |gs| > 0 {
      DistinctTail(gs);
      var g, rest := gs[0], gs[1..];
      assert Keys(gs) == {g.0} + Keys(rest);
      var fs' := fs + [g];
      assert Put(fs, g.0, g.1) == fs' by {
        assert g.0 !in Keys(fs);
      }
      assert Keys(fs') !! Keys(rest) by {
        KeysAppend(fs, [g]);
      }
      UpdateAllFresh(fs', rest);
      UpdateAllStep(fs, gs);
      AppendHead(fs, gs);
    }
  }

  lemma UpdateAllStep(fs: Fields, gs: Fields)
    requires |gs| > 0
    ensures UpdateAll(fs, gs) == UpdateAll(Put(fs, gs[0].0, gs[0].1), gs[1..])
  {
  }

  lemma AppendHead<T>(xs: seq<T>, ys: seq<T>)
    requires |ys| > 0
    ensures (xs + [ys[0]]) + ys[1..] == xs + ys
  {
    assert ys == [ys[0]] + ys[1..];
  }

  /** Keys of a concatenation. */
  lemma {:induction false} KeysAppend(a: Fields, b: Fields)
    ensures Keys(a + b) == Keys(a) + Keys(b)
    decreases |a|
  {
    if |a| > 0 {
      assert (a + b)[1..] == a[1..] + b;
      KeysAppend(a[1..], b);
    } else {
      assert a + b == b;
    }
  }

  /** Lookup in a concatenation: the left part wins. */
  lemma {:induction false} GetAppend(a: Fields, b: Fields, k: string)
    ensures Get(a + b, k) == if k in Keys(a) then Get(a, k) else Get(b, k)
    decreases |a|
  {
    if |a| > 0 {
      assert (a + b)[1..] == a[1..] + b;
      GetAppend(a[1..], b, k);
    } else {
      assert a + b == b;
    }
  }

  /** A member of a well-formed object is well-formed. */
  lemma WellFormedGet(fs: Fields, k: string)
    requires WellFormed(JObj(fs))
    ensures Get(fs, k).Some? ==> WellFormed(Get(fs, k).value)
  {
    if Get(fs, k).Some? {
      var i :| 0 <= i < |fs| && fs[i] == (k, Get(fs, k).value);
      assert WellFormed(fs[i].1);
    }
  }
}
