/** Insertion-ordered maps with unique keys, the way a PHP array stores its
    entries: a sequence of (key, value) pairs in which assigning to a present
    key keeps that key's position and assigning to a new key appends it. */
module OrderedMap {
  import opened Wrappers

  /** The keys of `m`, in order. */
  function Keys<K, V>(m: seq<(K, V)>): (ks: seq<K>)
    ensures |ks| == |m|
    ensures forall i :: 0 <= i < |m| ==> ks[i] == m[i].0
  {
    if m == [] then [] else [m[0].0] + Keys(m[1..])
  }

  predicate HasKey<K(==), V>(m: seq<(K, V)>, k: K) {
    k in Keys(m)
  }

  /** No key occurs twice: the invariant every PHP array keeps. */
  predicate UniqueKeys<K(==), V>(m: seq<(K, V)>) {
    forall i, j :: 0 <= i < j < |m| ==> m[i].0 != m[j].0
  }

  /** Position of the first entry with key `k`. */
  function IndexOf<K(==), V>(m: seq<(K, V)>, k: K): (i: nat)
    requires HasKey(m, k)
    ensures i < |m| && m[i].0 == k
    ensures forall j :: 0 <= j < i ==> m[j].0 != k
  {
    if m[0].0 == k then 0 else 1 + IndexOf(m[1..], k)
  }

  /** The value stored under `k` (the first one, should there be several). */
  function Find<K(==), V>(m: seq<(K, V)>, k: K): (r: Option<V>)
    ensures r.Some? <==> HasKey(m, k)
  {
    if HasKey(m, k) then Some(m[IndexOf(m, k)].1) else None
  }

  /** An index holding `x` with no `x` before it is the index `IndexOf` finds. */
  lemma FirstIndex<K, V>(m: seq<(K, V)>, x: K, i: nat)
    requires i < |m| && m[i].0 == x
    requires forall j :: 0 <= j < i ==> m[j].0 != x
    ensures HasKey(m, x) && IndexOf(m, x) == i
  {
    assert Keys(m)[i] == x;
  }

  lemma FindAt<K, V>(m: seq<(K, V)>, i: nat)
    requires UniqueKeys(m)
    requires i < |m|
    ensures Find(m, m[i].0) == Some(m[i].1)
  {
    FirstIndex(m, m[i].0, i);
  }

  /** A lookup checks the first entry, then the rest. */
  lemma FindCons<K, V>(m: seq<(K, V)>, x: K)
    requires m != []
    ensures Find(m, x) == if m[0].0 == x then Some(m[0].1) else Find(m[1..], x)
  {
    assert Keys(m) == [m[0].0] + Keys(m[1..]);
    if m[0].0 == x {
      FirstIndex(m, x, 0);
    } else if HasKey(m[1..], x) {
      var t := IndexOf(m[1..], x);
      assert m[t + 1] == m[1..][t];
      FirstIndex(m, x, t + 1);
    }
  }

  /** A key `m` lacks differs from every key stored in `m`. */
  lemma Absent<K, V>(m: seq<(K, V)>, k: K)
    requires !HasKey(m, k)
    ensures forall j :: 0 <= j < |m| ==> m[j].0 != k
  {
    forall j | 0 <= j < |m| ensures m[j].0 != k {
      assert Keys(m)[j] == m[j].0;
    }
  }

  /** Appending an entry leaves the lookups of the keys already present alone. */
  lemma FindAppend<K, V>(m: seq<(K, V)>, k: K, v: V, x: K)
    ensures Find(m + [(k, v)], x) == if HasKey(m, x) then Find(m, x) else if k == x then Some(v) else None
  {
    var r := m + [(k, v)];
    assert Keys(r) == Keys(m) + [k];
    if HasKey(m, x) {
      FirstIndex(r, x, IndexOf(m, x));
    } else if k == x {
      Absent(m, x);
      FirstIndex(r, x, |m|);
    }
  }

  /** Overwriting the first entry for `k` keeps every key and every other value. */
  lemma UpdateFind<K, V>(m: seq<(K, V)>, k: K, v: V, x: K)
    requires HasKey(m, k)
    ensures Keys(m[IndexOf(m, k) := (k, v)]) == Keys(m)
    ensures Find(m[IndexOf(m, k) := (k, v)], x) == if x == k then Some(v) else Find(m, x)
  {
    var i := IndexOf(m, k);
    var r := m[i := (k, v)];
    assert Keys(r) == Keys(m);
    if x == k {
      FirstIndex(r, k, i);
    } else if HasKey(m, x) {
      FirstIndex(r, x, IndexOf(m, x));
    }
  }

  /** `m` with `k` bound to `v`: a present key is updated in place, a new key
      goes to the end; every other key keeps its value and its position. */
  function Put<K(==, !new), V>(m: seq<(K, V)>, k: K, v: V): (r: seq<(K, V)>)
    ensures Find(r, k) == Some(v)
    ensures forall x :: x != k ==> Find(r, x) == Find(m, x)
    ensures HasKey(m, k) ==> Keys(r) == Keys(m)
    ensures !HasKey(m, k) ==> Keys(r) == Keys(m) + [k]
    ensures UniqueKeys(m) ==> UniqueKeys(r)
  {
    if HasKey(m, k) then
      var r := m[IndexOf(m, k) := (k, v)];
      UpdateFind(m, k, v, k);
      assert forall x :: x != k ==> Find(r, x) == Find(m, x) by {
        forall x | x != k ensures Find(r, x) == Find(m, x) {
          UpdateFind(m, k, v, x);
        }
      }
      r
    else
      var r := m + [(k, v)];
      assert Keys(r) == Keys(m) + [k];
      FindAppend(m, k, v, k);
      assert forall x :: x != k ==> Find(r, x) == Find(m, x) by {
        forall x | x != k ensures Find(r, x) == Find(m, x) {
          FindAppend(m, k, v, x);
        }
      }
      Absent(m, k);
      r
  }

  /** `r` is `m` with position `i` cut out: the entries before it stay, the later ones move down by one. */
  lemma CutEntries<K, V>(m: seq<(K, V)>, i: nat, r: seq<(K, V)>)
    requires i < |m| && r == m[..i] + m[i + 1..]
    ensures |r| == |m| - 1
    ensures forall j :: 0 <= j < |r| ==> r[j] == if j < i then m[j] else m[j + 1]
  {
  }

  lemma DeleteFind<K, V>(m: seq<(K, V)>, i: nat, x: K)
    requires i < |m| && m[i].0 != x
    ensures Find(m[..i] + m[i + 1..], x) == Find(m, x)
  {
    if HasKey(m, x) {
      DeleteFindPresent(m, i, x);
    } else {
      DeleteFindAbsent(m, i, x);
    }
  }

  lemma DeleteFindPresent<K, V>(m: seq<(K, V)>, i: nat, x: K)
    requires i < |m| && m[i].0 != x && HasKey(m, x)
    ensures Find(m[..i] + m[i + 1..], x) == Find(m, x)
  {
    var r := m[..i] + m[i + 1..];
    CutEntries(m, i, r);
    var t := IndexOf(m, x);
    var u := if t < i then t else t - 1;
    assert r[u] == m[t];
    forall j | 0 <= j < u ensures r[j].0 != x {
      if j < i {
        assert r[j] == m[j];
      } else {
        assert r[j] == m[j + 1];
      }
    }
    FirstIndex(r, x, u);
  }

  lemma DeleteFindAbsent<K, V>(m: seq<(K, V)>, i: nat, x: K)
    requires i < |m| && !HasKey(m, x)
    ensures !HasKey(m[..i] + m[i + 1..], x)
  {
    var r := m[..i] + m[i + 1..];
    CutEntries(m, i, r);
    Absent(m, x);
    forall j | 0 <= j < |r| ensures Keys(r)[j] != x {
      if j >= i {
        assert r[j] == m[j + 1];
      }
    }
  }

  /** Cutting an entry out of a key-unique map removes its key and keeps the rest unique. */
  lemma DeleteKeepsUnique<K, V>(m: seq<(K, V)>, i: nat, r: seq<(K, V)>)
    requires i < |m| && r == m[..i] + m[i + 1..]
    ensures UniqueKeys(m) ==> UniqueKeys(r) && !HasKey(r, m[i].0)
  {
    CutEntries(m, i, r);
    if UniqueKeys(m) {
      forall a, b | 0 <= a < b < |r| ensures r[a].0 != r[b].0 {
        var a' := if a < i then a else a + 1;
        var b' := if b < i then b else b + 1;
        assert r[a] == m[a'] && r[b] == m[b'];
      }
      forall j | 0 <= j < |r| ensures Keys(r)[j] != m[i].0 {
        var j' := if j < i then j else j + 1;
        assert r[j] == m[j'];
      }
    }
  }

  /** `m` without the entry for `k`; the remaining entries keep their order. */
  function Delete<K(==, !new), V>(m: seq<(K, V)>, k: K): (r: seq<(K, V)>)
    ensures !HasKey(m, k) ==> r == m
    ensures HasKey(m, k) ==> r == m[..IndexOf(m, k)] + m[IndexOf(m, k) + 1..]
    ensures forall x :: x != k ==> Find(r, x) == Find(m, x)
    ensures UniqueKeys(m) ==> UniqueKeys(r) && !HasKey(r, k)
  {
    if HasKey(m, k) then
      var i := IndexOf(m, k);
      var r := m[..i] + m[i + 1..];
      assert forall x :: x != k ==> Find(r, x) == Find(m, x) by {
        forall x | x != k ensures Find(r, x) == Find(m, x) {
          DeleteFind(m, i, x);
        }
      }
      DeleteKeepsUnique(m, i, r);
      r
    else
      m
  }

  /** Deleting a key just assigned is deleting it from the map before the
      assignment; for a new key that gives back the original map. */
  lemma DeleteAfterPut<K(!new), V>(m: seq<(K, V)>, k: K, v: V)
    ensures Delete(Put(m, k, v), k) == Delete(m, k)
    ensures !HasKey(m, k) ==> Delete(Put(m, k, v), k) == m
  {
    if HasKey(m, k) {
      var i := IndexOf(m, k);
      var r := m[i := (k, v)];
      assert Put(m, k, v) == r;
      FirstIndex(r, k, i);
      assert r[..i] == m[..i] && r[i + 1..] == m[i + 1..];
    } else {
      var r := m + [(k, v)];
      assert Put(m, k, v) == r;
      Absent(m, k);
      FirstIndex(r, k, |m|);
      assert r[..|m|] + r[|m| + 1..] == m;
    }
  }

  /** Of two assignments to the same key the second wins. */
  lemma PutTwice<K(!new), V>(m: seq<(K, V)>, k: K, v: V, w: V)
    ensures Put(Put(m, k, v), k, w) == Put(m, k, w)
  {
    if HasKey(m, k) {
      var i := IndexOf(m, k);
      var r := m[i := (k, v)];
      assert Put(m, k, v) == r;
      FirstIndex(r, k, i);
      assert r[i := (k, w)] == m[i := (k, w)];
    } else {
      var r := m + [(k, v)];
      assert Put(m, k, v) == r;
      Absent(m, k);
      FirstIndex(r, k, |m|);
      assert r[|m| := (k, w)] == m + [(k, w)];
    }
  }

  /** The keys of `ks` that are not in `present`, in the order of `ks`. */
  function Fresh<K(==)>(ks: seq<K>, present: seq<K>): seq<K>
  {
    if ks == [] then []
    else if ks[0] in present then Fresh(ks[1..], present)
    else [ks[0]] + Fresh(ks[1..], present)
  }

  /** Assigns every entry of `e` into `m`, front to back. */
  function PutAll<K(==, !new), V>(m: seq<(K, V)>, e: seq<(K, V)>): seq<(K, V)>
    decreases |e|
  {
    if e == [] then m else PutAll(Put(m, e[0].0, e[0].1), e[1..])
  }

  /** Assigning entries one by one never duplicates a key. */
  lemma {:induction false} PutAllUnique<K(!new), V>(m: seq<(K, V)>, e: seq<(K, V)>)
    requires UniqueKeys(m)
    ensures UniqueKeys(PutAll(m, e))
    decreases |e|
  {
    if e != [] {
      PutAllUnique(Put(m, e[0].0, e[0].1), e[1..]);
    }
  }

  lemma TailUnique<K, V>(e: seq<(K, V)>)
    requires UniqueKeys(e) && e != []
    ensures UniqueKeys(e[1..])
    ensures !HasKey(e[1..], e[0].0)
    ensures Keys(e) == [e[0].0] + Keys(e[1..])
  {
    forall i, j | 0 <= i < j < |e[1..]| ensures e[1..][i].0 != e[1..][j].0 {
      assert e[1..][i] == e[i + 1] && e[1..][j] == e[j + 1];
    }
    forall j | 0 <= j < |e[1..]| ensures Keys(e[1..])[j] != e[0].0 {
      assert e[1..][j] == e[j + 1];
    }
  }

  /** Adding a key that `ks` does not mention to `present` changes nothing in `Fresh`. */
  lemma {:induction false} FreshIgnores<K>(ks: seq<K>, present: seq<K>, k: K)
    requires k !in ks
    ensures Fresh(ks, present + [k]) == Fresh(ks, present)
  {
    if ks != [] {
      FreshIgnores(ks[1..], present, k);
    }
  }

  /** After `PutAll(m, e)` each key holds `e`'s value if `e` has it and `m`'s otherwise. */
  lemma {:induction false} PutAllFind<K(!new), V>(m: seq<(K, V)>, e: seq<(K, V)>, x: K)
    requires UniqueKeys(e)
    ensures Find(PutAll(m, e), x) == if HasKey(e, x) then Find(e, x) else Find(m, x)
    decreases |e|
  {
    if e != [] {
      var m' := Put(m, e[0].0, e[0].1);
      TailUnique(e);
      PutAllFind(m', e[1..], x);
      FindCons(e, x);
    }
  }

  /** Moving the first fresh key of `ks` into `present` keeps `present + Fresh(ks, present)`. */
  lemma FreshStep<K>(ks: seq<K>, present: seq<K>)
    requires ks != [] && ks[0] !in ks[1..]
    ensures ks[0] !in present ==>
      present + Fresh(ks, present) == (present + [ks[0]]) + Fresh(ks[1..], present + [ks[0]])
    ensures ks[0] in present ==> present + Fresh(ks, present) == present + Fresh(ks[1..], present)
  {
    if ks[0] !in present {
      FreshIgnores(ks[1..], present, ks[0]);
      var rest := Fresh(ks[1..], present);
      assert Fresh(ks, present) == [ks[0]] + rest;
      assert (present + [ks[0]]) + rest == present + ([ks[0]] + rest);
    }
  }

  /** After `PutAll(m, e)` the keys are those of `m`, in place, then the new keys of `e` in order. */
  lemma {:induction false} PutAllKeys<K(!new), V>(m: seq<(K, V)>, e: seq<(K, V)>)
    requires UniqueKeys(e)
    ensures Keys(PutAll(m, e)) == Keys(m) + Fresh(Keys(e), Keys(m))
    decreases |e|
  {
    if e == [] {
      assert Keys(e) == [];
    } else {
      var m' := Put(m, e[0].0, e[0].1);
      TailUnique(e);
      PutAllKeys(m', e[1..]);
      assert Keys(e)[1..] == Keys(e[1..]);
      FreshStep(Keys(e), Keys(m));
    }
  }
}
