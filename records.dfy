/** JavaScript plain objects used as dictionaries (`Record<string, T>`): a
    sequence of distinct keys in insertion order and the value of each key.
    Iteration (`Object.keys`, `Object.values`, `Object.entries`) follows the
    key sequence; assignment `obj[k] = v` overwrites an existing key in place
    and appends a new one at the end. */
module Records {

  datatype RawRecord<V> = Record(keys: seq<string>, vals: map<string, V>)

  /** The keys are distinct, each has a value, and no other key has one:
      the map has exactly as many keys as the sequence (see `DomainIsKeys`). */
  predicate WellFormed<V>(d: RawRecord<V>) {
    && (forall i, j :: 0 <= i < j < |d.keys| ==> d.keys[i] != d.keys[j])
    && (forall i :: 0 <= i < |d.keys| ==> d.keys[i] in d.vals)
    && |d.vals.Keys| == |d.keys|
  }

  type Record<V> = d: RawRecord<V> | WellFormed(d) witness Record([], map[])

  /** `{}` */
  function Empty<V>(): Record<V> {
    Record([], map[])
  }

  /** `obj[k] = v` */
  function Put<V>(d: Record<V>, k: string, v: V): (r: Record<V>)
    ensures r.vals == d.vals[k := v]
    ensures k in d.vals ==> r.keys == d.keys
    ensures k !in d.vals ==> r.keys == d.keys + [k]
  {
    if k in d.vals then Record(d.keys, d.vals[k := v])
    else Record(d.keys + [k], d.vals[k := v])
  }

  /** `Object.entries(obj)` */
  function Entries<V>(d: Record<V>): (es: seq<(string, V)>)
    ensures |es| == |d.keys|
    ensures forall i :: 0 <= i < |es| ==> es[i].0 == d.keys[i] && es[i].1 == d.vals[d.keys[i]]
  {
    seq(|d.keys|, i requires 0 <= i < |d.keys| => (d.keys[i], d.vals[d.keys[i]]))
  }

  /** `Object.values(obj)` */
  function Values<V>(d: Record<V>): (vs: seq<V>)
    ensures |vs| == |d.keys|
    ensures forall i :: 0 <= i < |vs| ==> vs[i] == d.vals[d.keys[i]]
  {
    seq(|d.keys|, i requires 0 <= i < |d.keys| => d.vals[d.keys[i]])
  }

  /** Assigning the entries `es` one after another, in order, into `d`:
      the effect of a `for (const [k, v] of es) d[k] = v` loop. */
  function PutAll<V>(d: Record<V>, es: seq<(string, V)>): Record<V>
    decreases |es|
  {
    if es == [] then d
    else
      var last := es[|es| - 1];
      Put(PutAll(d, es[..|es| - 1]), last.0, last.1)
  }

  /** Extending the assigned entries by one more: the step of a loop that
      assigns `es[i]` after `es[..i]`. */
  lemma PutAllSnoc<V>(d: Record<V>, es: seq<(string, V)>, i: nat)
    requires i < |es|
    ensures PutAll(d, es[..i + 1]) == Put(PutAll(d, es[..i]), es[i].0, es[i].1)
  {
    assert es[..i + 1][..i] == es[..i];
  }

  /** `Object.fromEntries(es)` */
  function FromEntries<V>(es: seq<(string, V)>): Record<V> {
    PutAll(Empty(), es)
  }

  /** The keys of `ks`, in order, that are not in `present`. */
  function KeysNotIn(ks: seq<string>, present: set<string>): (r: seq<string>)
    decreases |ks|
  {
    if ks == [] then []
    else
      var last := ks[|ks| - 1];
      KeysNotIn(ks[..|ks| - 1], present) + (if last in present then [] else [last])
  }

  /** The map holding the first `n` entries of `e`. */
  function PrefixMap<V>(e: Record<V>, n: nat): (m: map<string, V>)
    requires n <= |e.keys|
  {
    map k | k in e.keys[..n] :: e.vals[k]
  }

  /** One step of copying `e` into `d`: the `n`-th entry is assigned to the
      result of copying the first `n - 1`. */
  lemma PutAllStep<V>(d: Record<V>, e: Record<V>, n: nat)
    requires 0 < n <= |e.keys|
    ensures PutAll(d, Entries(e)[..n])
         == Put(PutAll(d, Entries(e)[..n - 1]), e.keys[n - 1], e.vals[e.keys[n - 1]])
  {
    PutAllSnoc(d, Entries(e), n - 1);
  }

  /** Copying the first `n` entries of `e` into `d`: every copied key takes
      `e`'s value. */
  lemma {:induction false} PutAllEntriesPrefixVals<V>(d: Record<V>, e: Record<V>, n: nat)
    requires n <= |e.keys|
    ensures PutAll(d, Entries(e)[..n]).vals == d.vals + PrefixMap(e, n)
  {
    if n > 0 {
      PutAllEntriesPrefixVals(d, e, n - 1);
      PutAllStep(d, e, n);
      PrefixMapStep(e, n);
      UpdateAfterUnion(d.vals, PrefixMap(e, n - 1), e.keys[n - 1], e.vals[e.keys[n - 1]]);
    } else {
      assert Entries(e)[..0] == [];
      assert PrefixMap(e, 0) == map[] by {
        assert e.keys[..0] == [];
      }
      EmptyUnion(d.vals);
    }
  }

  /** Copying the first `n` entries of `e` into `d`: the keys not yet in `d`
      are appended in `e`'s order. */
  lemma {:induction false} PutAllEntriesPrefixKeys<V>(d: Record<V>, e: Record<V>, n: nat)
    requires n <= |e.keys|
    ensures PutAll(d, Entries(e)[..n]).keys == d.keys + KeysNotIn(e.keys[..n], d.vals.Keys)
  {
    if n > 0 {
      PutAllEntriesPrefixKeys(d, e, n - 1);
      PutAllKeysStep(d, e, n);
    } else {
      assert PutAll(d, Entries(e)[..n]) == d by { assert Entries(e)[..n] == []; }
      assert KeysNotIn(e.keys[..n], d.vals.Keys) == [] by { assert e.keys[..n] == []; }
      assert d.keys + [] == d.keys;
    }
  }

  lemma PutAllKeysStep<V>(d: Record<V>, e: Record<V>, n: nat)
    requires 0 < n <= |e.keys|
    requires PutAll(d, Entries(e)[..n - 1]).keys == d.keys + KeysNotIn(e.keys[..n - 1], d.vals.Keys)
    ensures PutAll(d, Entries(e)[..n]).keys == d.keys + KeysNotIn(e.keys[..n], d.vals.Keys)
  {
    var k := e.keys[n - 1];
    var added := KeysNotIn(e.keys[..n - 1], d.vals.Keys);
    var prev := PutAll(d, Entries(e)[..n - 1]);
    PutAllStep(d, e, n);
    KeysNotInStep(e.keys, n, d.vals.Keys);
    PutAllEntriesPrefixVals(d, e, n - 1);
    NotInPrefix(e, n - 1);
    AppendAssoc(d.keys, added, if k in d.vals then [] else [k]);
  }

  lemma LastSplit<T>(s: seq<T>)
    requires |s| > 0
    ensures s == s[..|s| - 1] + [s[|s| - 1]]
  {
  }

  lemma AppendAssoc(a: seq<string>, b: seq<string>, c: seq<string>)
    ensures (a + b) + c == a + (b + c)
  {
  }

  lemma EmptyUnion<V>(m: map<string, V>)
    ensures m + map[] == m
    ensures map[] + m == m
  {
  }

  lemma NotInPrefix<V>(e: Record<V>, i: nat)
    requires i < |e.keys|
    ensures e.keys[i] !in e.keys[..i]
  {
  }

  lemma UpdateAfterUnion<V>(a: map<string, V>, b: map<string, V>, k: string, v: V)
    ensures (a + b)[k := v] == a + b[k := v]
  {
  }

  lemma PrefixMapStep<V>(e: Record<V>, n: nat)
    requires 0 < n <= |e.keys|
    ensures PrefixMap(e, n) == PrefixMap(e, n - 1)[e.keys[n - 1] := e.vals[e.keys[n - 1]]]
  {
    assert e.keys[..n] == e.keys[..n - 1] + [e.keys[n - 1]];
  }

  lemma KeysNotInStep(ks: seq<string>, n: nat, present: set<string>)
    requires 0 < n <= |ks|
    ensures KeysNotIn(ks[..n], present)
         == KeysNotIn(ks[..n - 1], present) + (if ks[n - 1] in present then [] else [ks[n - 1]])
  {
    assert ks[..n][..n - 1] == ks[..n - 1];
  }

  /** `Object.assign(d, e)`: values of `e` win, new keys are appended. */
  lemma PutAllEntries<V>(d: Record<V>, e: Record<V>)
    ensures PutAll(d, Entries(e)).vals == d.vals + e.vals
    ensures PutAll(d, Entries(e)).keys == d.keys + KeysNotIn(e.keys, d.vals.Keys)
  {
    PutAllEntriesPrefixVals(d, e, |e.keys|);
    PutAllEntriesPrefixKeys(d, e, |e.keys|);
    WholePrefix(e);
  }

  lemma WholePrefix<V>(e: Record<V>)
    ensures Entries(e)[..|e.keys|] == Entries(e)
    ensures e.keys[..|e.keys|] == e.keys
    ensures PrefixMap(e, |e.keys|) == e.vals
  {
    assert e.keys[..|e.keys|] == e.keys;
    DomainIsKeys(e);
  }

  lemma {:induction false} KeysNotInNone(ks: seq<string>)
    ensures KeysNotIn(ks, {}) == ks
    decreases |ks|
  {
    if ks != [] {
      KeysNotInNone(ks[..|ks| - 1]);
    }
  }

  /** A key of `ks` outside `present` survives the filter. */
  lemma {:induction false} KeysNotInKeeps(ks: seq<string>, present: set<string>, k: string)
    requires k in ks && k !in present
    ensures k in KeysNotIn(ks, present)
    decreases |ks|
  {
    var n := |ks|;
    if ks[n - 1] != k {
      assert ks == ks[..n - 1] + [ks[n - 1]];
      KeysNotInKeeps(ks[..n - 1], present, k);
    }
  }

  /** Filtering keys none of which is in `present` leaves them all. */
  lemma {:induction false} KeysNotInAll(ks: seq<string>, present: set<string>)
    requires forall k :: k in ks ==> k !in present
    ensures KeysNotIn(ks, present) == ks
    decreases |ks|
  {
    if ks != [] {
      var n := |ks|;
      assert forall k :: k in ks[..n - 1] ==> k in ks;
      KeysNotInAll(ks[..n - 1], present);
      assert ks == ks[..n - 1] + [ks[n - 1]];
    }
  }

  /** The keys of a record are exactly the keys that have a value. */
  lemma DomainIsKeys<V>(d: Record<V>)
    ensures forall k :: k in d.vals <==> k in d.keys
  {
    var ks := set i | 0 <= i < |d.keys| :: d.keys[i];
    DistinctCard(d.keys);
    assert ks <= d.vals.Keys;
    SubsetSameSize(ks, d.vals.Keys);
    forall k | k in d.vals
      ensures k in d.keys
    {
      assert k in ks;
    }
  }

  /** Distinct keys that are exactly the keys with a value form a record. */
  lemma MembershipWellFormed<V>(keys: seq<string>, vals: map<string, V>)
    requires forall i, j :: 0 <= i < j < |keys| ==> keys[i] != keys[j]
    requires forall i :: 0 <= i < |keys| ==> keys[i] in vals
    requires forall k :: k in vals ==> k in keys
    ensures WellFormed(Record(keys, vals))
  {
    var ks := set i | 0 <= i < |keys| :: keys[i];
    DistinctCard(keys);
    assert ks == vals.Keys;
  }

  lemma {:induction false} DistinctCard(ks: seq<string>)
    requires forall i, j :: 0 <= i < j < |ks| ==> ks[i] != ks[j]
    ensures |set i | 0 <= i < |ks| :: ks[i]| == |ks|
    decreases |ks|
  {
    if ks != [] {
      var n := |ks|;
      var init := ks[..n - 1];
      DistinctCard(init);
      var a := set i | 0 <= i < |init| :: init[i];
      var b := set i | 0 <= i < |ks| :: ks[i];
      assert b == a + {ks[n - 1]} by {
        forall x | x in b ensures x in a + {ks[n - 1]} {
          var i :| 0 <= i < |ks| && ks[i] == x;
          if i < n - 1 { assert init[i] == x; }
        }
        forall x | x in a ensures x in b {
          var i :| 0 <= i < |init| && init[i] == x;
          assert ks[i] == x;
        }
      }
      assert ks[n - 1] !in a;
    }
  }

  lemma SubsetSameSize<T>(a: set<T>, b: set<T>)
    requires a <= b && |a| == |b|
    ensures a == b
  {
    if b - a != {} {
      var x :| x in b - a;
      assert a <= b - {x};
      assert |b - {x}| == |b| - 1;
      SubsetSize(a, b - {x});
      assert false;
    } else {
      forall x | x in b ensures x in a {
        assert x !in b - a;
      }
    }
  }

  lemma SubsetSize<T>(a: set<T>, b: set<T>)
    requires a <= b
    ensures |a| <= |b|
  {
    assert b == a + (b - a);
  }

  /** New values under the same keys keep a record well formed. */
  lemma SameKeysWellFormed<V, W>(d: Record<V>, m: map<string, W>)
    requires forall k :: k in m <==> k in d.vals
    ensures WellFormed(Record(d.keys, m))
  {
    assert m.Keys == d.vals.Keys;
  }

  /** `Object.fromEntries(Object.entries(d))` rebuilds `d`, order included. */
  lemma FromEntriesOfEntries<V>(d: Record<V>)
    ensures FromEntries(Entries(d)) == d
  {
    var none: Record<V> := Empty();
    PutAllEntries(none, d);
    KeysNotInNone(d.keys);
    assert none.vals.Keys == {};
    assert PutAll(none, Entries(d)).keys == d.keys;
    EmptyUnion(d.vals);
    assert PutAll(none, Entries(d)).vals == d.vals;
  }
}
