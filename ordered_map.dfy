/** A JavaScript `Map` with string keys: entries in first-insertion order,
    `set` on an existing key replacing the value in place, `delete`
    removing the entry. */
module OrderedMap {
  import opened Wrappers

  type Entries<V> = seq<(string, V)>

  /** `m.get(k)`. */
  function Lookup<V>(m: Entries<V>, k: string): Option<V> {
    if m == [] then None
    else if m[0].0 == k then Some(m[0].1)
    else Lookup(m[1..], k)
  }

  /** `m.has(k)`. */
  predicate Has<V>(m: Entries<V>, k: string) {
    Lookup(m, k).Some?
  }

  /** `m.set(k, v)`. */
  function Put<V>(m: Entries<V>, k: string, v: V): (r: Entries<V>)
    ensures Lookup(r, k) == Some(v)
    ensures forall j :: j != k ==> Lookup(r, j) == Lookup(m, j)
    ensures !Has(m, k) ==> r == m + [(k, v)]
    ensures Has(m, k) ==> |r| == |m|
    ensures forall e :: e in r ==> e == (k, v) || e in m
  {
    if m == [] then [(k, v)]
    else if m[0].0 == k then [(k, v)] + m[1..]
    else
      var r := [m[0]] + Put(m[1..], k, v);
      assert !Has(m, k) ==> r == m + [(k, v)] by {
        if !Has(m, k) { assert m == [m[0]] + m[1..]; }
      }
      r
  }

  /** `m.delete(k)` (every entry with the key). */
  function Remove<V>(m: Entries<V>, k: string): (r: Entries<V>)
    ensures !Has(r, k)
    ensures forall j :: j != k ==> Lookup(r, j) == Lookup(m, j)
    ensures forall e :: e in r ==> e in m
    ensures !Has(m, k) ==> r == m
    ensures |r| <= |m|
  {
    if m == [] then []
    else if m[0].0 == k then Remove(m[1..], k)
    else
      var r := [m[0]] + Remove(m[1..], k);
      assert !Has(m, k) ==> r == m by {
        if !Has(m, k) { assert m == [m[0]] + m[1..]; }
      }
      r
  }

  /** `Array.from(m.values())`. */
  function Values<V>(m: Entries<V>): (vs: seq<V>)
    ensures |vs| == |m| && forall i :: 0 <= i < |m| ==> vs[i] == m[i].1
  {
    seq(|m|, i requires 0 <= i < |m| => m[i].1)
  }

  /** Removing a key that is present shortens the map by exactly one entry
      when keys are unique. */
  lemma {:induction false} RemovePresent<V>(m: Entries<V>, k: string)
    requires Has(m, k) && forall i, j :: 0 <= i < j < |m| ==> m[i].0 != m[j].0
    ensures |Remove(m, k)| == |m| - 1
  {
    if m[0].0 == k {
      assert forall j :: 0 <= j < |m[1..]| ==> m[1..][j].0 != k by {
        forall j | 0 <= j < |m[1..]| ensures m[1..][j].0 != k {
          assert m[1..][j] == m[j + 1];
        }
      }
      NotHas(m[1..], k);
    } else {
      RemovePresent(m[1..], k);
    }
  }

  /** A key no entry carries is absent. */
  lemma {:induction false} NotHas<V>(m: Entries<V>, k: string)
    requires forall j :: 0 <= j < |m| ==> m[j].0 != k
    ensures !Has(m, k)
  {
    if m != [] {
      NotHas(m[1..], k);
    }
  }

  /** `Put` and `Remove` keep keys unique. */
  predicate UniqueKeys<V>(m: Entries<V>) {
    forall i, j :: 0 <= i < j < |m| ==> m[i].0 != m[j].0
  }

  lemma {:induction false} HasIffEntry<V>(m: Entries<V>, k: string)
    ensures Has(m, k) <==> exists i :: 0 <= i < |m| && m[i].0 == k
  {
    if m != [] && m[0].0 != k {
      HasIffEntry(m[1..], k);
      if Has(m, k) {
        var i :| 0 <= i < |m[1..]| && m[1..][i].0 == k;
        assert m[i + 1].0 == k;
      } else {
        forall i | 1 <= i < |m| ensures m[i].0 != k {
          assert m[i] == m[1..][i - 1];
        }
      }
    }
  }

  lemma PutKeepsUnique<V>(m: Entries<V>, k: string, v: V)
    requires UniqueKeys(m)
    ensures UniqueKeys(Put(m, k, v))
  {
    var r := Put(m, k, v);
    if !Has(m, k) {
      HasIffEntry(m, k);
      assert r == m + [(k, v)];
    } else {
      PutInPlace(m, k, v);
    }
  }

  /** With the key present, `Put` changes only that entry's value. */
  lemma {:induction false} PutInPlace<V>(m: Entries<V>, k: string, v: V)
    requires Has(m, k)
    ensures |Put(m, k, v)| == |m|
    ensures forall i :: 0 <= i < |m| ==> Put(m, k, v)[i].0 == m[i].0
  {
    if m[0].0 != k {
      PutInPlace(m[1..], k, v);
    }
  }

  lemma {:induction false} RemoveKeepsUnique<V>(m: Entries<V>, k: string)
    requires UniqueKeys(m)
    ensures UniqueKeys(Remove(m, k))
  {
    if m != [] {
      RemoveKeepsUnique(m[1..], k);
      if m[0].0 != k {
        var rest := Remove(m[1..], k);
        forall e | e in rest ensures e.0 != m[0].0 {
          assert e in m[1..];
        }
      }
    }
  }
}
