/** A JavaScript object used as a dictionary with string keys. Its keys keep the order
    in which they were first added, which is the order `Object.keys` and
    `Object.entries` report; each key occurs once. */
module JsObject {
  import opened Wrappers
  import Seqs

  datatype ObjRep<V> = ObjRep(keys: seq<string>, vals: map<string, V>)

  /** The keys are distinct and are exactly the keys that hold a value. */
  type Obj<V> = o: ObjRep<V> | Seqs.Distinct(o.keys) && o.vals.Keys == (set k | k in o.keys)
    witness ObjRep([], map[])

  /** `{}`. */
  function Empty<V>(): (o: Obj<V>)
    ensures o.keys == []
  {
    ObjRep([], map[])
  }

  /** `Object.keys(o).length`. */
  function Size<V>(o: Obj<V>): nat
  {
    |o.keys|
  }

  /** `o[k]`: the value stored under `k`, or `None` for `undefined`. */
  function Get<V>(o: Obj<V>, k: string): (r: Option<V>)
    ensures r.Some? <==> k in o.keys
    ensures r.Some? ==> r.value == o.vals[k]
  {
    if k in o.vals then Some(o.vals[k]) else None
  }

  /** The value of the `i`-th entry of `Object.entries(o)`. */
  function ValueAt<V>(o: Obj<V>, i: nat): V
    requires i < |o.keys|
  {
    o.vals[o.keys[i]]
  }

  /** `{ ...o, [k]: v }`: a key already present keeps its place and takes the new value;
      a new key goes last; every other key keeps its value. */
  function Put<V>(o: Obj<V>, k: string, v: V): (r: Obj<V>)
    ensures Get(r, k) == Some(v)
    ensures forall k' :: k' != k ==> Get(r, k') == Get(o, k')
    ensures r.keys == if k in o.keys then o.keys else o.keys + [k]
  {
    if k in o.vals then ObjRep(o.keys, o.vals[k := v])
    else
      var r := ObjRep(o.keys + [k], o.vals[k := v]);
      assert r.vals.Keys == (set x | x in r.keys);
      r
  }

  /** Writing a key twice keeps the second value, and writing back a key's own value
      changes nothing. */
  lemma PutPut<V>(o: Obj<V>, k: string, v1: V, v2: V)
    ensures Put(Put(o, k, v1), k, v2) == Put(o, k, v2)
    ensures k in o.keys ==> Put(o, k, o.vals[k]) == o
  {
  }

  /** A copy of `o` without the key `k` (`const next = { ...o }; delete next[k]`):
      `k` is gone, every other key keeps its value and the order of the rest is kept. */
  function Delete<V>(o: Obj<V>, k: string): (r: Obj<V>)
    ensures Get(r, k) == None
    ensures forall k' :: k' != k ==> Get(r, k') == Get(o, k')
    ensures r.keys == Seqs.Filter(o.keys, (x: string) => x != k)
  {
    var ks := Seqs.Filter(o.keys, (x: string) => x != k);
    Seqs.FilterDistinct(o.keys, (x: string) => x != k);
    var r := ObjRep(ks, o.vals - {k});
    assert r.vals.Keys == (set x | x in r.keys);
    r
  }

  /** `{ ...a, ...b }`: a key of `b` takes `b`'s value, any other key keeps `a`'s;
      the keys of `a` stay first, in their order, followed by the keys of `b` that `a`
      lacks, in `b`'s order. */
  function Spread<V>(a: Obj<V>, b: Obj<V>): (r: Obj<V>)
    ensures forall k :: Get(r, k) == if k in b.keys then Get(b, k) else Get(a, k)
    ensures r.keys == a.keys + Seqs.Filter(b.keys, (k: string) => k !in a.keys)
  {
    SpreadKeys(a, b, b.keys)
  }

  /** Writes the entries of `b` under `ks` over `a`, in the order of `ks`. */
  function SpreadKeys<V>(a: Obj<V>, b: Obj<V>, ks: seq<string>): (r: Obj<V>)
    requires Seqs.Distinct(ks) && forall k :: k in ks ==> k in b.keys
    ensures r.keys == a.keys + Seqs.Filter(ks, (k: string) => k !in a.keys)
    ensures forall k :: Get(r, k) == if k in ks then Get(b, k) else Get(a, k)
  {
    if ks == [] then a
    else
      var t := SpreadKeys(a, b, ks[..|ks| - 1]);
      SpreadStep(a, b, ks, t);
      Put(t, ks[|ks| - 1], b.vals[ks[|ks| - 1]])
  }

  /** Writing the next key of `ks` extends the spread of the keys before it. */
  lemma SpreadStep<V>(a: Obj<V>, b: Obj<V>, ks: seq<string>, t: Obj<V>)
    requires ks != [] && Seqs.Distinct(ks) && ks[|ks| - 1] in b.keys
    requires t.keys == a.keys + Seqs.Filter(ks[..|ks| - 1], (k: string) => k !in a.keys)
    requires forall k :: Get(t, k) == if k in ks[..|ks| - 1] then Get(b, k) else Get(a, k)
    ensures var r := Put(t, ks[|ks| - 1], b.vals[ks[|ks| - 1]]);
            && r.keys == a.keys + Seqs.Filter(ks, (k: string) => k !in a.keys)
            && forall k :: Get(r, k) == if k in ks then Get(b, k) else Get(a, k)
  {
    SpreadOrderStep(a.keys, ks, t.keys);
    SpreadValueStep(a, b, ks, t);
  }

  /** The values after one step of a spread. */
  lemma SpreadValueStep<V>(a: Obj<V>, b: Obj<V>, ks: seq<string>, t: Obj<V>)
    requires ks != [] && ks[|ks| - 1] in b.keys
    requires forall k :: Get(t, k) == if k in ks[..|ks| - 1] then Get(b, k) else Get(a, k)
    ensures var r := Put(t, ks[|ks| - 1], b.vals[ks[|ks| - 1]]);
            forall k :: Get(r, k) == if k in ks then Get(b, k) else Get(a, k)
  {
    var last := ks[|ks| - 1];
    var r := Put(t, last, b.vals[last]);
    Seqs.InSnoc(ks);
    forall k
      ensures Get(r, k) == if k in ks then Get(b, k) else Get(a, k)
    {
      if k != last {
        assert Get(r, k) == Get(t, k);
      }
    }
  }

  /** Key order of one step of a spread: the next key of `ks` is appended exactly when
      it is not already among `ak`. */
  lemma SpreadOrderStep(ak: seq<string>, ks: seq<string>, tk: seq<string>)
    requires ks != [] && Seqs.Distinct(ks)
    requires tk == ak + Seqs.Filter(ks[..|ks| - 1], (k: string) => k !in ak)
    ensures (if ks[|ks| - 1] in tk then tk else tk + [ks[|ks| - 1]])
            == ak + Seqs.Filter(ks, (k: string) => k !in ak)
  {
    var front, last := ks[..|ks| - 1], ks[|ks| - 1];
    var added := Seqs.Filter(front, (k: string) => k !in ak);
    assert Seqs.Filter(ks, (k: string) => k !in ak) == added + (if last !in ak then [last] else []);
    if last !in ak {
      assert last !in front;
      assert last !in tk;
      Seqs.AppendAssoc(ak, added, [last]);
    }
  }
}
