/** Python dictionaries where their insertion order is observable: a list of (key, value)
    pairs with distinct keys. Assigning to an existing key keeps its position; a new key
    goes to the end; deleting closes the gap. */
module PyDict {
  import opened Common

  type Dict<K, V> = seq<(K, V)>

  function Keys<K, V>(d: Dict<K, V>): (r: seq<K>)
    ensures |r| == |d| && forall i :: 0 <= i < |d| ==> r[i] == d[i].0
  {
    seq(|d|, i requires 0 <= i < |d| => d[i].0)
  }

  predicate Valid<K(==), V>(d: Dict<K, V>)
  {
    Distinct(Keys(d))
  }

  predicate HasKey<K(==), V>(d: Dict<K, V>, k: K)
  {
    k in Keys(d)
  }

  /** Position of `k`, or `|d|` when absent. */
  function Find<K(==), V>(d: Dict<K, V>, k: K): (i: nat)
    ensures i <= |d|
    ensures i < |d| <==> HasKey(d, k)
    ensures i < |d| ==> d[i].0 == k
    ensures forall j :: 0 <= j < i ==> d[j].0 != k
  {
    IndexOf(Keys(d), k)
  }

  /** `d.get(k)` */
  function Get<K(==), V>(d: Dict<K, V>, k: K): (r: Option<V>)
    ensures r.Some? <==> HasKey(d, k)
  {
    var i := Find(d, k);
    if i < |d| then Some(d[i].1) else None
  }

  /** `d[k] = v` */
  function Put<K(==), V>(d: Dict<K, V>, k: K, v: V): (r: Dict<K, V>)
    ensures HasKey(d, k) ==> |r| == |d| && Keys(r) == Keys(d)
    ensures !HasKey(d, k) ==> r == d + [(k, v)]
    ensures HasKey(r, k)
  {
    var i := Find(d, k);
    if i < |d| then d[i := (k, v)]
    else
      assert Keys(d + [(k, v)])[|d|] == k;
      d + [(k, v)]
  }

  /** `del d[k]` (nothing when absent). */
  function Remove<K(==), V>(d: Dict<K, V>, k: K): (r: Dict<K, V>)
  {
    var i := Find(d, k);
    if i < |d| then d[..i] + d[i + 1..] else d
  }

  /** A written key reads back as written and the other keys read as before; the keys
      stay distinct. */
  lemma PutGet<K, V>(d: Dict<K, V>, k: K, v: V)
    requires Valid(d)
    ensures Valid(Put(d, k, v))
    ensures Get(Put(d, k, v), k) == Some(v)
    ensures forall k' :: k' != k ==> Get(Put(d, k, v), k') == Get(d, k')
  {
    var r := Put(d, k, v);
    if !HasKey(d, k) {
      assert Keys(r) == Keys(d) + [k];
      forall k' | k' != k ensures Get(r, k') == Get(d, k') {
        if HasKey(d, k') {
          var j := Find(d, k');
          assert Find(r, k') == j;
        } else {
          assert !HasKey(r, k');
        }
      }
    } else {
      var i := Find(d, k);
      assert Find(r, k) == i;
      forall k' | k' != k ensures Get(r, k') == Get(d, k') {
        if HasKey(d, k') {
          assert Find(r, k') == Find(d, k');
        }
      }
    }
  }

  /** A second write to the same key replaces the first in place. */
  lemma PutPut<K, V>(d: Dict<K, V>, k: K, v1: V, v2: V)
    ensures Put(Put(d, k, v1), k, v2) == Put(d, k, v2)
  {
    if !HasKey(d, k) {
      var d1 := d + [(k, v1)];
      assert Keys(d1)[|d|] == k;
      assert Find(d1, k) == |d|;
      assert d1[|d| := (k, v2)] == d + [(k, v2)];
    } else {
      assert Find(Put(d, k, v1), k) == Find(d, k);
    }
  }

  /** Every entry after a write is the written one or the entry that was at its place. */
  lemma PutEntries<K, V>(d: Dict<K, V>, k: K, v: V)
    ensures forall j :: 0 <= j < |Put(d, k, v)| ==>
      Put(d, k, v)[j] == (k, v) || (j < |d| && Put(d, k, v)[j] == d[j])
  {
  }

  /** In a dictionary with distinct keys, each entry is found at its own position. */
  lemma FindValid<K, V>(d: Dict<K, V>, j: nat)
    requires Valid(d) && j < |d|
    ensures Find(d, d[j].0) == j && Get(d, d[j].0) == Some(d[j].1)
  {
    assert Keys(d)[j] == d[j].0;
  }

  /** In a dictionary with distinct keys, the last entry's key reads back its value. */
  lemma LastGet<K, V>(d: Dict<K, V>)
    requires Valid(d) && d != []
    ensures Get(d, d[|d| - 1].0) == Some(d[|d| - 1].1)
  {
    var k := d[|d| - 1].0;
    assert Keys(d)[|d| - 1] == k;
    assert Find(d, k) == |d| - 1;
  }

  /** Deleting a key that no earlier entry carries removes exactly its entry. */
  lemma RemoveSplit<K, V>(a: Dict<K, V>, x: (K, V), b: Dict<K, V>)
    requires !HasKey(a, x.0)
    ensures Remove(a + [x] + b, x.0) == a + b
  {
    var d := a + [x] + b;
    assert Keys(d)[|a|] == x.0;
    assert forall j :: 0 <= j < |a| ==> Keys(d)[j] == Keys(a)[j];
    assert Find(d, x.0) == |a|;
    assert d[..|a|] == a && d[|a| + 1..] == b;
  }

  lemma RemoveKeys<K, V>(d: Dict<K, V>, k: K)
    requires HasKey(d, k)
    ensures Keys(Remove(d, k)) == Keys(d)[..Find(d, k)] + Keys(d)[Find(d, k) + 1..]
  {
  }

  /** Dropping one position of a list without duplicates leaves the other elements, still
      without duplicates, and not the dropped one. */
  lemma DropDistinct<T>(xs: seq<T>, i: nat)
    requires Distinct(xs) && i < |xs|
    ensures Distinct(xs[..i] + xs[i + 1..])
    ensures forall y :: y in xs[..i] + xs[i + 1..] <==> y in xs && y != xs[i]
  {
    var r := xs[..i] + xs[i + 1..];
    assert forall j :: 0 <= j < |r| ==> r[j] == (if j < i then xs[j] else xs[j + 1]);
    forall y | y in xs && y != xs[i] ensures y in r {
      var j :| 0 <= j < |xs| && xs[j] == y;
      if j < i { assert r[j] == y; } else { assert r[j - 1] == y; }
    }
  }

  /** A removed key is gone, the other keys keep their values and their order. */
  lemma RemoveGet<K, V>(d: Dict<K, V>, k: K)
    requires Valid(d)
    ensures Valid(Remove(d, k))
    ensures !HasKey(Remove(d, k), k)
    ensures forall k' :: k' != k ==> Get(Remove(d, k), k') == Get(d, k')
    ensures |Remove(d, k)| == if HasKey(d, k) then |d| - 1 else |d|
  {
    if HasKey(d, k) {
      RemoveKeys(d, k);
      DropDistinct(Keys(d), Find(d, k));
      forall k' | k' != k ensures Get(Remove(d, k), k') == Get(d, k') {
        RemoveOther(d, k, k');
      }
    }
  }

  /** Removing a present key leaves any other key's value where it was. */
  lemma RemoveOther<K, V>(d: Dict<K, V>, k: K, k': K)
    requires Valid(d) && HasKey(d, k) && k' != k
    ensures Get(Remove(d, k), k') == Get(d, k')
  {
    var i := Find(d, k);
    var r := Remove(d, k);
    RemoveKeys(d, k);
    DropDistinct(Keys(d), i);
    if HasKey(d, k') {
      var j := Find(d, k');
      var jr := if j < i then j else j - 1;
      assert r[jr] == d[j];
      assert Keys(r)[jr] == k';
      assert Find(r, k') == jr;
    }
  }

  /** The entries whose value satisfies `keep`, in their order. */
  function Filter<K, V>(d: Dict<K, V>, keep: V -> bool): (r: Dict<K, V>)
  {
    if d == [] then []
    else Filter(d[..|d| - 1], keep) + (if keep(d[|d| - 1].1) then [d[|d| - 1]] else [])
  }

  /** The keys of the entries that `keep` rejects, in their order. */
  function Rejected<K, V>(d: Dict<K, V>, keep: V -> bool): (r: seq<K>)
  {
    if d == [] then []
    else Rejected(d[..|d| - 1], keep) + (if keep(d[|d| - 1].1) then [] else [d[|d| - 1].0])
  }

  /** Filtering one more entry appends it when it is kept. */
  lemma FilterStep<K, V>(d: Dict<K, V>, i: nat, keep: V -> bool)
    requires i < |d|
    ensures Filter(d[..i + 1], keep) == Filter(d[..i], keep) + (if keep(d[i].1) then [d[i]] else [])
    ensures Rejected(d[..i + 1], keep) == Rejected(d[..i], keep) + (if keep(d[i].1) then [] else [d[i].0])
  {
    assert d[..i + 1][..i] == d[..i];
  }

  /** The filtered entries are exactly the kept entries. */
  lemma {:induction false} FilterMembers<K, V>(d: Dict<K, V>, keep: V -> bool)
    ensures forall e :: e in Filter(d, keep) <==> e in d && keep(e.1)
    decreases |d|
  {
    if d != [] {
      var init := d[..|d| - 1];
      FilterMembers(init, keep);
      assert d == init + [d[|d| - 1]];
    }
  }

  /** Filtering keeps the keys distinct and introduces no key. */
  lemma {:induction false} FilterKeys<K, V>(d: Dict<K, V>, keep: V -> bool)
    requires Valid(d)
    ensures Valid(Filter(d, keep))
    ensures forall k :: HasKey(Filter(d, keep), k) ==> HasKey(d, k)
    decreases |d|
  {
    if d != [] {
      var init := d[..|d| - 1];
      var last := d[|d| - 1];
      assert Keys(init) == Keys(d)[..|d| - 1];
      FilterKeys(init, keep);
      var r0 := Filter(init, keep);
      assert forall k :: HasKey(init, k) ==> HasKey(d, k);
      if keep(last.1) {
        assert Filter(d, keep) == r0 + [last];
        assert last.0 !in Keys(init) by {
          forall j | 0 <= j < |init| ensures Keys(init)[j] != last.0 {
            assert Keys(d)[|d| - 1] == last.0;
          }
        }
        assert !HasKey(r0, last.0);
        var ks := Keys(r0 + [last]);
        assert ks == Keys(r0) + [last.0];
        assert Keys(d)[|d| - 1] == last.0;
        assert forall k :: HasKey(r0 + [last], k) ==> HasKey(r0, k) || k == last.0;
      } else {
        assert Filter(d, keep) == r0;
      }
    }
  }

  /** A prefix of a dictionary with distinct keys does not hold the key that follows it. */
  lemma PrefixLacksNext<K, V>(d: Dict<K, V>, i: nat)
    requires Valid(d) && i < |d|
    ensures Valid(d[..i]) && !HasKey(d[..i], d[i].0)
  {
    assert Keys(d[..i]) == Keys(d)[..i];
    forall j | 0 <= j < i ensures Keys(d[..i])[j] != d[i].0 {
      assert Keys(d)[i] == d[i].0;
    }
  }

  /** A dictionary with distinct keys is its prefix with the last entry written to it. */
  lemma PutLast<K, V>(d: Dict<K, V>)
    requires Valid(d) && d != []
    ensures Valid(d[..|d| - 1]) && !HasKey(d[..|d| - 1], d[|d| - 1].0)
    ensures d == Put(d[..|d| - 1], d[|d| - 1].0, d[|d| - 1].1)
  {
    PrefixLacksNext(d, |d| - 1);
    assert d == d[..|d| - 1] + [d[|d| - 1]];
  }

  /** Deleting, during an in-order walk, the entry at the walk's position from the kept
      prefix followed by the unvisited rest removes exactly that entry. */
  lemma RemoveNext<K, V>(d: Dict<K, V>, i: nat, keep: V -> bool)
    requires Valid(d) && i < |d|
    ensures Remove(Filter(d[..i], keep) + d[i..], d[i].0) == Filter(d[..i], keep) + d[i + 1..]
  {
    PrefixLacksNext(d, i);
    FilterKeys(d[..i], keep);
    var a := Filter(d[..i], keep);
    assert !HasKey(a, d[i].0);
    assert d[i..] == [d[i]] + d[i + 1..];
    assert a + d[i..] == a + [d[i]] + d[i + 1..];
    RemoveSplit(a, d[i], d[i + 1..]);
  }

  /** One step of an in-order walk that deletes the rejected entries from the dictionary
      it walks a snapshot of: the kept prefix followed by the unvisited rest. */
  lemma FilterWalkStep<K, V>(d: Dict<K, V>, i: nat, keep: V -> bool)
    requires Valid(d) && i < |d|
    ensures !keep(d[i].1) ==>
      Remove(Filter(d[..i], keep) + d[i..], d[i].0) == Filter(d[..i + 1], keep) + d[i + 1..]
    ensures keep(d[i].1) ==> Filter(d[..i], keep) + d[i..] == Filter(d[..i + 1], keep) + d[i + 1..]
    ensures Rejected(d[..i + 1], keep) == Rejected(d[..i], keep) + (if keep(d[i].1) then [] else [d[i].0])
  {
    FilterStep(d, i, keep);
    if keep(d[i].1) {
      assert d[i..] == [d[i]] + d[i + 1..];
    } else {
      RemoveNext(d, i, keep);
    }
  }
}
