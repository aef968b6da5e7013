/** Python's insertion-ordered `dict` with string keys, as the encoder builds it:
    `d[k] = v` (Set) and `d.update(e)` (Update). A dict is the sequence of its
    entries in insertion order. */
module Dicts {
  import opened Wrappers

  type Dict<V> = seq<(string, V)>

  /** The keys of `d`, in insertion order (what `list(d)` gives). */
  function Keys<V>(d: Dict<V>): (ks: seq<string>)
    ensures |ks| == |d|
    ensures forall i :: 0 <= i < |d| ==> ks[i] == d[i].0
  {
    seq(|d|, i requires 0 <= i < |d| => d[i].0)
  }

  lemma KeysAppend<V>(d: Dict<V>, e: Dict<V>)
    ensures Keys(d + e) == Keys(d) + Keys(e)
  {
  }

  predicate Distinct(ks: seq<string>) {
    forall i, j :: 0 <= i < j < |ks| ==> ks[i] != ks[j]
  }

  /** The position of the first occurrence of `k` in `ks`. */
  function FirstIndex(ks: seq<string>, k: string): (i: nat)
    requires k in ks
    ensures i < |ks| && ks[i] == k
    ensures forall j :: 0 <= j < i ==> ks[j] != k
  {
    if ks[0] == k then 0 else 1 + FirstIndex(ks[1..], k)
  }

  /** `d.get(k)`: the value stored under `k`, if any. */
  function Lookup<V>(d: Dict<V>, k: string): (r: Option<V>)
    ensures r.None? <==> k !in Keys(d)
    ensures r.Some? ==> exists i :: 0 <= i < |d| && d[i] == (k, r.value)
  {
    if k in Keys(d) then
      var i := FirstIndex(Keys(d), k);
      assert d[i].0 == k;
      Some(d[i].1)
    else None
  }

  /** `d[k] = v`: an existing key keeps its position and takes the new value;
      a new key is appended at the end. */
  function Set<V>(d: Dict<V>, k: string, v: V): (r: Dict<V>)
    ensures forall j :: j in Keys(r) <==> j in Keys(d) || j == k
    ensures |r| == if k in Keys(d) then |d| else |d| + 1
    ensures Keys(r)[..|d|] == Keys(d)
    ensures k !in Keys(d) ==> r == d + [(k, v)]
  {
    if k in Keys(d) then
      var i := FirstIndex(Keys(d), k);
      var r := d[i := (k, v)];
      assert Keys(r) == Keys(d);
      r
    else
      var r := d + [(k, v)];
      assert Keys(r) == Keys(d) + [k];
      r
  }

  /** After `d[k] = v`, `k` reads `v` and every other key reads as before. */
  lemma SetLookup<V>(d: Dict<V>, k: string, v: V, j: string)
    ensures Lookup(Set(d, k, v), j) == if j == k then Some(v) else Lookup(d, j)
  {
    var r := Set(d, k, v);
    if k in Keys(d) {
      assert Keys(r) == Keys(d);
    } else {
      assert Keys(r) == Keys(d) + [k];
      if j in Keys(d) {
        FirstIndexOfPrefix(Keys(d), [k], j);
      }
    }
  }

  /** After `d[k] = v`, every key other than `k` reads as before. */
  lemma SetLookupAll<V>(d: Dict<V>, k: string, v: V)
    ensures forall j :: j != k ==> Lookup(Set(d, k, v), j) == Lookup(d, j)
  {
    forall j | j != k ensures Lookup(Set(d, k, v), j) == Lookup(d, j) {
      SetLookup(d, k, v, j);
    }
  }

  /** `d[k] = v` stores no entry other than `(k, v)` and those of `d`,
      and keeps the keys pairwise distinct. */
  lemma SetEntries<V>(d: Dict<V>, k: string, v: V)
    ensures forall p :: p in Set(d, k, v) ==> p == (k, v) || p in d
    ensures Distinct(Keys(d)) ==> Distinct(Keys(Set(d, k, v)))
  {
    if k in Keys(d) {
      var i := FirstIndex(Keys(d), k);
      assert Set(d, k, v) == d[i := (k, v)];
    }
  }

  lemma {:induction false} FirstIndexOfPrefix(ks: seq<string>, more: seq<string>, k: string)
    requires k in ks
    ensures k in ks + more && FirstIndex(ks + more, k) == FirstIndex(ks, k)
  {
    if ks[0] != k {
      assert (ks + more)[1..] == ks[1..] + more;
      FirstIndexOfPrefix(ks[1..], more, k);
    }
  }

  /** No later entry of `e` has the key of entry `i`. */
  predicate LastOf<V>(e: Dict<V>, i: nat)
    requires i < |e|
  {
    e[i].0 !in Keys(e[i + 1..])
  }

  /** `d.update(e)`: the entries of `e` are set into `d` one by one, in order.
      Keys already in `d` keep their positions; the others follow them. */
  function Update<V>(d: Dict<V>, e: Dict<V>): (r: Dict<V>)
    decreases |e|
    ensures forall j :: j in Keys(r) <==> j in Keys(d) || j in Keys(e)
    ensures |d| <= |r| && Keys(r)[..|d|] == Keys(d)
  {
    if e == [] then d
    else
      var d' := Set(d, e[0].0, e[0].1);
      var r := Update(d', e[1..]);
      assert Keys(e) == [e[0].0] + Keys(e[1..]);
      assert Keys(r)[..|d|] == Keys(r)[..|d'|][..|d|];
      r
  }

  /** `d.update(e)` stores no entry that is not in `d` or `e`, and keeps the
      keys pairwise distinct. */
  lemma {:induction false} UpdateEntries<V>(d: Dict<V>, e: Dict<V>)
    ensures forall p :: p in Update(d, e) ==> p in d || p in e
    ensures Distinct(Keys(d)) ==> Distinct(Keys(Update(d, e)))
    decreases |e|
  {
    if e != [] {
      SetEntries(d, e[0].0, e[0].1);
      UpdateEntries(Set(d, e[0].0, e[0].1), e[1..]);
      assert forall p :: p in e[1..] ==> p in e;
    }
  }

  /** A key that `e` does not mention reads the same after `d.update(e)`. */
  lemma {:induction false} UpdateLookupOther<V>(d: Dict<V>, e: Dict<V>, j: string)
    requires j !in Keys(e)
    ensures Lookup(Update(d, e), j) == Lookup(d, j)
    decreases |e|
  {
    if e != [] {
      assert Keys(e) == [e[0].0] + Keys(e[1..]);
      SetLookup(d, e[0].0, e[0].1, j);
      UpdateLookupOther(Set(d, e[0].0, e[0].1), e[1..], j);
    }
  }

  /** After `d.update(e)`, a key holds the value of its last entry in `e`. */
  lemma {:induction false} UpdateLookupLast<V>(d: Dict<V>, e: Dict<V>, i: nat)
    requires i < |e| && LastOf(e, i)
    ensures Lookup(Update(d, e), e[i].0) == Some(e[i].1)
    decreases |e|
  {
    var d' := Set(d, e[0].0, e[0].1);
    if i == 0 {
      assert e[1..] == e[i + 1..];
      SetLookup(d, e[0].0, e[0].1, e[0].0);
      UpdateLookupOther(d', e[1..], e[0].0);
    } else {
      assert e[1..][i - 1] == e[i];
      assert e[1..][i - 1 + 1..] == e[i + 1..];
      UpdateLookupLast(d', e[1..], i - 1);
    }
  }

  /** Updating with fresh, pairwise distinct keys appends them in order. */
  lemma {:induction false} UpdateFresh<V>(d: Dict<V>, e: Dict<V>)
    requires forall i, j :: 0 <= i < j < |e| ==> e[i].0 != e[j].0
    requires forall i, j :: 0 <= i < |e| && 0 <= j < |d| ==> e[i].0 != d[j].0
    ensures Update(d, e) == d + e
    decreases |e|
  {
    if e != [] {
      var d' := d + [e[0]];
      assert e[0].0 !in Keys(d);
      assert Set(d, e[0].0, e[0].1) == d';
      UpdateFresh(d', e[1..]);
      AppendHead(d, e);
    }
  }

  /** Updating with pairwise distinct keys, none of them in `d`, appends them. */
  lemma UpdateFreshKeys<V>(d: Dict<V>, e: Dict<V>)
    requires Distinct(Keys(e))
    requires forall k :: k in Keys(e) ==> k !in Keys(d)
    ensures Update(d, e) == d + e
    ensures Keys(d + e) == Keys(d) + Keys(e)
  {
    assert forall i, j :: 0 <= i < |e| && 0 <= j < |d| ==> e[i].0 != d[j].0 by {
      forall i, j | 0 <= i < |e| && 0 <= j < |d| ensures e[i].0 != d[j].0 {
        assert Keys(e)[i] == e[i].0 && Keys(e)[i] in Keys(e);
        assert Keys(d)[j] == d[j].0 && Keys(d)[j] in Keys(d);
      }
    }
    assert forall i, j :: 0 <= i < j < |e| ==> e[i].0 != e[j].0 by {
      forall i, j | 0 <= i < j < |e| ensures e[i].0 != e[j].0 {
        assert Keys(e)[i] == e[i].0 && Keys(e)[j] == e[j].0;
      }
    }
    UpdateFresh(d, e);
    KeysAppend(d, e);
  }

  lemma AppendHead<V>(d: Dict<V>, e: Dict<V>)
    requires e != []
    ensures (d + [e[0]]) + e[1..] == d + e
  {
    assert e == [e[0]] + e[1..];
  }

  /** Updating with one more entry is setting that entry last. */
  lemma {:induction false} UpdateSnoc<V>(d: Dict<V>, e: Dict<V>, k: string, v: V)
    ensures Update(d, e + [(k, v)]) == Set(Update(d, e), k, v)
    decreases |e|
  {
    if e == [] {
      assert [(k, v)][1..] == [];
    } else {
      assert (e + [(k, v)])[0] == e[0];
      assert (e + [(k, v)])[1..] == e[1..] + [(k, v)];
      UpdateSnoc(Set(d, e[0].0, e[0].1), e[1..], k, v);
    }
  }
}
