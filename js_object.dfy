/**
 * JavaScript plain objects, keyed by property name (a type parameter K, instantiated
 * with string by the engine), as the engine uses them for the
 * schema and for the validation state: each key is bound once and keys keep
 * their insertion order (the order `Object.keys` reports).
 */
module JsObject {

  predicate Distinct<K(==)>(ks: seq<K>) {
    forall i, j | 0 <= i < j < |ks| :: ks[i] != ks[j]
  }

  /** The raw shape: key order plus bindings. */
  datatype Obj<K(==), V> = Obj(keys: seq<K>, fields: map<K, V>) {
    predicate Valid() {
      && Distinct(keys)
      && (forall k | k in keys :: k in fields)
      && (forall k | k in fields :: k in keys)
    }
  }

  /** `xs` is a prefix of `ys`. */
  predicate IsPrefix<K(==)>(xs: seq<K>, ys: seq<K>) {
    |xs| <= |ys| && forall i | 0 <= i < |xs| :: ys[i] == xs[i]
  }

  /** An object: every key listed once, and exactly the bound keys listed. */
  type Record<K(==), V> = o: Obj<K, V> | o.Valid() witness Obj([], map[])

  /** `{}` */
  function Empty<K(==), V>(): (r: Record<K, V>)
    ensures r.keys == [] && r.fields == map[]
  {
    Obj([], map[])
  }

  /** `R.assoc(k, v, {})`: the object with the one key `k`. */
  function Single<K(==), V>(k: K, v: V): (r: Record<K, V>)
    ensures r.keys == [k] && r.fields == map[k := v]
  {
    Obj([k], map[k := v])
  }

  /** `{...o, [k]: v}`: an existing key keeps its place, a new one goes last. */
  function Assoc<K(==), V>(o: Record<K, V>, k: K, v: V): (r: Record<K, V>)
    ensures r.fields == o.fields[k := v]
    ensures r.keys == if k in o.fields then o.keys else o.keys + [k]
  {
    if k in o.fields then Obj(o.keys, o.fields[k := v]) else Obj(o.keys + [k], o.fields[k := v])
  }

  /** The keys of `ks` that are not in `drop`, in their order in `ks`. */
  function Without<K(==)>(ks: seq<K>, drop: set<K>): (r: seq<K>)
    ensures forall x | x in r :: x in ks && x !in drop
    ensures forall x | x in ks && x !in drop :: x in r
    ensures Distinct(ks) ==> Distinct(r)
    ensures |r| <= |ks|
  {
    if ks == [] then []
    else if ks[0] in drop then Without(ks[1..], drop)
    else [ks[0]] + Without(ks[1..], drop)
  }

  /**
   * `R.mergeRight(a)(b)`, that is `{...a, ...b}`: the keys of `a` in their
   * order, then the keys only `b` has, in `b`'s order; `b` wins on shared keys.
   */
  function MergeRight<K(==), V>(a: Record<K, V>, b: Record<K, V>): (r: Record<K, V>)
    ensures r.fields == a.fields + b.fields
    ensures r.keys == a.keys + Without(b.keys, a.fields.Keys)
  {
    var extra := Without(b.keys, a.fields.Keys);
    assert Distinct(a.keys + extra) by {
      forall i, j | 0 <= i < j < |a.keys + extra|
        ensures (a.keys + extra)[i] != (a.keys + extra)[j]
      {
        var n := |a.keys|;
        if j < n {
          assert (a.keys + extra)[i] == a.keys[i] && (a.keys + extra)[j] == a.keys[j];
        } else if i < n {
          assert (a.keys + extra)[i] == a.keys[i] && a.keys[i] in a.fields;
          assert (a.keys + extra)[j] == extra[j - n] && extra[j - n] in extra;
        } else {
          assert (a.keys + extra)[i] == extra[i - n] && (a.keys + extra)[j] == extra[j - n];
        }
      }
    }
    Obj(a.keys + extra, a.fields + b.fields)
  }

  /** `Object.entries(o).map(([k, v]) => [k, f(v)])` folded back into an object. */
  function MapValues<K(==), V, W>(o: Record<K, V>, f: V -> W): (r: Record<K, W>)
    ensures r.keys == o.keys
    ensures r.fields.Keys == o.fields.Keys
    ensures forall k | k in o.fields :: r.fields[k] == f(o.fields[k])
  {
    Obj(o.keys, map k | k in o.fields :: f(o.fields[k]))
  }

  /**
   * `ks.reduce((acc, k) => ({...acc, [k]: v}), acc)` for keys `acc` does not
   * have yet: each key is appended, in order, bound to `v`.
   */
  function AssocAll<K(==), V>(ks: seq<K>, v: V, acc: Record<K, V>): (r: Record<K, V>)
    requires Distinct(ks)
    requires forall k | k in ks :: k !in acc.fields
    ensures r.keys == acc.keys + ks
    ensures forall k | k in acc.fields :: k in r.fields && r.fields[k] == acc.fields[k]
    ensures forall k | k in ks :: k in r.fields && r.fields[k] == v
  {
    if ks == [] then acc
    else
      var next := Assoc(acc, ks[0], v);
      assert forall k | k in ks[1..] :: k != ks[0] by {
        forall k | k in ks[1..] ensures k != ks[0] {
          var i :| 0 <= i < |ks[1..]| && ks[1..][i] == k;
          assert ks[i + 1] == k;
        }
      }
      ConsAssoc(acc.keys, ks);
      AssocAll(ks[1..], v, next)
  }

  /** Filling the keys of `o`, in order, with `v` gives an object over the same keys, in the same order. */
  lemma FillKeys<K, V, W>(o: Record<K, W>, v: V)
    ensures AssocAll(o.keys, v, Empty()).keys == o.keys
    ensures AssocAll(o.keys, v, Empty()).fields.Keys == o.fields.Keys
    ensures forall k | k in AssocAll(o.keys, v, Empty()).fields :: AssocAll(o.keys, v, Empty()).fields[k] == v
  {
    AppendEmpty(o.keys);
    FillBindsOnly(o, v, AssocAll(o.keys, v, Empty()));
  }

  /** An object over the listed keys of `o` binds exactly the keys `o` binds. */
  lemma FillBindsOnly<K, V, W>(o: Record<K, W>, v: V, r: Record<K, V>)
    requires r.keys == o.keys
    ensures r.fields.Keys == o.fields.Keys
  {
    forall k | k in r.fields
      ensures k in o.fields
    {
      assert k in r.keys;
    }
  }

  // Sequence facts kept apart from any object, so that proofs about
  // objects can use them without the objects' invariants in view.

  lemma ConsAssoc<K>(a: seq<K>, ks: seq<K>)
    requires ks != []
    ensures a + ks == (a + [ks[0]]) + ks[1..]
  {
    assert ks == [ks[0]] + ks[1..];
  }

  lemma ConsAppend<T>(a: seq<T>, b: seq<T>)
    requires a != []
    ensures (a + b)[0] == a[0] && (a + b)[1..] == a[1..] + b
  {
  }

  lemma AppendAssoc<T>(a: seq<T>, b: seq<T>, c: seq<T>)
    ensures a + (b + c) == (a + b) + c
  {
  }

  lemma AppendEmpty<T>(a: seq<T>)
    ensures [] + a == a && a + [] == a
  {
  }

  /** Under the same conditions, every position of `b`'s key order is a position of `a`'s. */
  lemma PrefixPosition<K, V, W>(a: Record<K, V>, b: Record<K, W>, j: nat)
    requires IsPrefix(a.keys, b.keys)
    requires a.fields.Keys == b.fields.Keys
    requires j < |b.keys|
    ensures j < |a.keys|
  {
    assert b.keys[j] in b.fields;
    assert b.keys[j] in a.keys;
    var i :| 0 <= i < |a.keys| && a.keys[i] == b.keys[j];
    assert b.keys[i] == b.keys[j];
  }

  /** An object whose key order extends another's, and which binds the same keys, lists them in the same order. */
  lemma PrefixSameKeys<K, V, W>(a: Record<K, V>, b: Record<K, W>)
    requires IsPrefix(a.keys, b.keys)
    requires a.fields.Keys == b.fields.Keys
    ensures a.keys == b.keys
  {
    if |b.keys| > 0 {
      PrefixPosition(a, b, |b.keys| - 1);
    }
  }

  /** Spreading a one-key object into `a` is the same as assigning that key. */
  lemma MergeSingle<K, V>(a: Record<K, V>, k: K, v: V)
    ensures MergeRight(a, Single(k, v)) == Assoc(a, k, v)
  {
    var m := MergeRight(a, Single(k, v));
    assert [k][1..] == [];
    assert Without([k][1..], a.fields.Keys) == [];
    assert m.fields == a.fields[k := v];
    if k in a.fields {
      assert Without([k], a.fields.Keys) == [];
      assert m.keys == a.keys;
    } else {
      assert Without([k], a.fields.Keys) == [k];
      assert m.keys == a.keys + [k];
    }
  }

  /**
   * Spreading `b` over `a` gives back `b` itself when `b` already starts with
   * all of `a`'s keys in `a`'s order.
   */
  lemma MergeExtension<K, V>(a: Record<K, V>, b: Record<K, V>)
    requires IsPrefix(a.keys, b.keys)
    ensures MergeRight(a, b) == b
  {
    MergeExtensionKeys(a, b);
    MergeExtensionFields(a, b);
  }

  lemma MergeExtensionKeys<K, V>(a: Record<K, V>, b: Record<K, V>)
    requires IsPrefix(a.keys, b.keys)
    ensures a.keys + Without(b.keys, a.fields.Keys) == b.keys
  {
    var n := |a.keys|;
    assert b.keys[..n] == a.keys;
    forall x | x in b.keys[n..] ensures x !in a.fields.Keys {
      NotInPrefix(a, b, x);
    }
    PrefixWithout(a.keys, b.keys, a.fields.Keys);
  }

  lemma PrefixWithout<K>(ak: seq<K>, bk: seq<K>, drop: set<K>)
    requires |ak| <= |bk| && bk[..|ak|] == ak
    requires forall x :: x in ak ==> x in drop
    requires forall x :: x in bk[|ak|..] ==> x !in drop
    ensures ak + Without(bk, drop) == bk
  {
    var rest := bk[|ak|..];
    assert bk == ak + rest;
    WithoutAppend(ak, rest, drop);
    WithoutNone(ak, drop);
    WithoutAll(rest, drop);
    calc {
      ak + Without(bk, drop);
      ak + (Without(ak, drop) + Without(rest, drop));
      ak + ([] + rest);
      { assert [] + rest == rest; }
      ak + rest;
    }
  }

  lemma MergeExtensionFields<K, V>(a: Record<K, V>, b: Record<K, V>)
    requires IsPrefix(a.keys, b.keys)
    ensures a.fields + b.fields == b.fields
  {
    forall k | k in a.fields ensures k in b.fields {
      var i :| 0 <= i < |a.keys| && a.keys[i] == k;
      assert b.keys[i] == k;
    }
    MapUnionSubsumed(a.fields, b.fields);
  }

  lemma MapUnionSubsumed<K, V>(x: map<K, V>, y: map<K, V>)
    requires x.Keys <= y.Keys
    ensures x + y == y
  {
  }

  lemma NotInPrefix<K, V>(a: Record<K, V>, b: Record<K, V>, x: K)
    requires IsPrefix(a.keys, b.keys)
    requires x in b.keys[|a.keys|..]
    ensures x !in a.fields
  {
    var n := |a.keys|;
    var j :| 0 <= j < |b.keys| - n && b.keys[n..][j] == x;
    assert b.keys[n + j] == x;
  }

  lemma {:induction false} WithoutAppend<K>(xs: seq<K>, ys: seq<K>, drop: set<K>)
    ensures Without(xs + ys, drop) == Without(xs, drop) + Without(ys, drop)
  {
    if xs != [] {
      ConsAppend(xs, ys);
      WithoutAppend(xs[1..], ys, drop);
      var rest := Without(xs[1..] + ys, drop);
      assert rest == Without(xs[1..], drop) + Without(ys, drop);
      if xs[0] !in drop {
        AppendAssoc([xs[0]], Without(xs[1..], drop), Without(ys, drop));
      }
    } else {
      AppendEmpty(ys);
      AppendEmpty(Without(ys, drop));
    }
  }

  lemma {:induction false} WithoutNone<K>(xs: seq<K>, drop: set<K>)
    requires forall x :: x in xs ==> x in drop
    ensures Without(xs, drop) == []
  {
    if xs != [] {
      WithoutNone(xs[1..], drop);
    }
  }

  lemma {:induction false} WithoutAll<K>(xs: seq<K>, drop: set<K>)
    requires forall x :: x in xs ==> x !in drop
    ensures Without(xs, drop) == xs
  {
    if xs != [] {
      WithoutAll(xs[1..], drop);
    }
  }

  /** Two objects with the same key order and the same bindings are equal. */
  lemma RecordExt<K, V>(a: Record<K, V>, b: Record<K, V>)
    requires a.keys == b.keys
    requires forall k :: k in a.fields ==> a.fields[k] == b.fields[k]
    ensures a == b
  {
    assert a.fields.Keys == b.fields.Keys;
  }
}
