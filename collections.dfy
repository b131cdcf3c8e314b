// Shared value types: optional values, results, insertion-ordered maps (the order
// JavaScript's Map and Object.keys give), per-key counts and a stable sort
// (Array.prototype.sort is stable).
module Collections {

  datatype Option<T> = None | Some(value: T)

  datatype Result<T, E> = Ok(value: T) | Err(error: E)

  // ------------------------------------------------------ insertion-ordered map

  /** A map that remembers the order in which its keys were first set. */
  datatype OMap<K, V> = OMap(keys: seq<K>, entries: map<K, V>)

  predicate Distinct<T(==)>(s: seq<T>) {
    forall i, j :: 0 <= i < j < |s| ==> s[i] != s[j]
  }

  ghost predicate ValidMap<K(!new), V>(m: OMap<K, V>) {
    Distinct(m.keys) && forall k :: k in m.entries <==> k in m.keys
  }

  /** A prefix one longer is the prefix and the next element. */
  lemma PrefixSnoc<T>(s: seq<T>, n: nat)
    requires n < |s|
    ensures s[..n + 1] == s[..n] + [s[n]]
  {
  }

  /** The members of a non-empty sequence are those before its last element and the last. */
  lemma InitMembers<T>(s: seq<T>)
    requires s != []
    ensures forall x :: x in s <==> x in s[..|s| - 1] || x == s[|s| - 1]
  {
    assert s == s[..|s| - 1] + [s[|s| - 1]];
  }

  /** The prefix of a one-longer prefix. */
  lemma PrefixOfPrefix<T>(s: seq<T>, n: nat)
    requires n < |s|
    ensures s[..n + 1][..n] == s[..n]
  {
  }

  lemma KeysInEntries<K(!new), V>(m: OMap<K, V>)
    requires ValidMap(m)
    ensures forall i :: 0 <= i < |m.keys| ==> m.keys[i] in m.entries
  {
  }

  function EmptyMap<K(!new), V>(): (m: OMap<K, V>)
    ensures ValidMap(m) && m.keys == [] && m.entries == map[]
  {
    OMap([], map[])
  }

  /** Map.prototype.set: a new key goes last, an existing key keeps its place. */
  function Put<K(!new), V>(m: OMap<K, V>, k: K, v: V): (r: OMap<K, V>)
    ensures ValidMap(m) ==> ValidMap(r)
    ensures r.entries == m.entries[k := v]
    ensures r.keys == if k in m.entries then m.keys else m.keys + [k]
  {
    if k in m.entries then OMap(m.keys, m.entries[k := v]) else OMap(m.keys + [k], m.entries[k := v])
  }

  function RemoveFrom<T(==)>(s: seq<T>, x: T): (r: seq<T>)
    ensures forall i :: 0 <= i < |r| ==> r[i] in s && r[i] != x
    ensures forall i :: 0 <= i < |s| && s[i] != x ==> s[i] in r
    ensures Distinct(s) ==> Distinct(r)
    ensures x !in s ==> r == s
  {
    if s == [] then [] else if s[0] == x then RemoveFrom(s[1..], x) else [s[0]] + RemoveFrom(s[1..], x)
  }

  /** Map.prototype.delete */
  function Remove<K(!new), V>(m: OMap<K, V>, k: K): (r: OMap<K, V>)
    requires ValidMap(m)
    ensures ValidMap(r)
    ensures r.entries == m.entries - {k}
    ensures k !in m.entries ==> r == m
  {
    OMap(RemoveFrom(m.keys, k), m.entries - {k})
  }

  /** Map.prototype.values, in key order. */
  function Values<K(!new), V>(m: OMap<K, V>): (r: seq<V>)
    requires ValidMap(m)
    ensures |r| == |m.keys|
    ensures forall i :: 0 <= i < |r| ==> r[i] == m.entries[m.keys[i]]
  {
    seq(|m.keys|, i requires 0 <= i < |m.keys| => m.entries[m.keys[i]])
  }

  /** Sets the keys in turn to their values (Object.assign, a spread). */
  function PutAll<K(!new), V>(m: OMap<K, V>, keys: seq<K>, vals: map<K, V>): (r: OMap<K, V>)
    requires forall k :: k in keys ==> k in vals
    ensures ValidMap(m) ==> ValidMap(r)
    decreases |keys|
  {
    if keys == [] then m else PutAll(Put(m, keys[0], vals[keys[0]]), keys[1..], vals)
  }

  lemma PutAllStep<K(!new), V>(m: OMap<K, V>, keys: seq<K>, vals: map<K, V>, j: nat)
    requires j < |keys| && forall k :: k in keys ==> k in vals
    ensures PutAll(m, keys[j..], vals) == PutAll(Put(m, keys[j], vals[keys[j]]), keys[j + 1..], vals)
  {
    assert keys[j..][1..] == keys[j + 1..];
  }

  /** After PutAll a cell holds its value from `keys` when set there, its old value otherwise. */
  lemma {:induction false} PutAllCell<K(!new), V>(m: OMap<K, V>, keys: seq<K>, vals: map<K, V>, k: K)
    requires forall j :: j in keys ==> j in vals
    ensures k in PutAll(m, keys, vals).entries <==> k in m.entries || k in keys
    ensures k in keys ==> PutAll(m, keys, vals).entries[k] == vals[k]
    ensures k !in keys && k in m.entries ==> PutAll(m, keys, vals).entries[k] == m.entries[k]
    decreases |keys|
  {
    if keys != [] {
      assert keys == [keys[0]] + keys[1..];
      PutAllCell(Put(m, keys[0], vals[keys[0]]), keys[1..], vals, k);
    }
  }

  /** PutAll of distinct keys none of which is in `m` appends them in order. */
  lemma {:induction false} PutAllFreshKeys<K(!new), V>(m: OMap<K, V>, keys: seq<K>, vals: map<K, V>)
    requires Distinct(keys) && forall j :: j in keys ==> j in vals && j !in m.entries
    ensures PutAll(m, keys, vals).keys == m.keys + keys
    decreases |keys|
  {
    if keys != [] {
      var k0, rest := keys[0], keys[1..];
      assert keys == [k0] + rest;
      var m2 := Put(m, k0, vals[k0]);
      assert forall j :: j in rest ==> j != k0 by {
        forall j | j in rest ensures j != k0 {
          var i :| 0 <= i < |rest| && rest[i] == j;
          assert keys[i + 1] == j;
        }
      }
      PutAllFreshKeys(m2, rest, vals);
      assert m2.keys == m.keys + [k0];
      SnocThenAppend(m.keys, k0, rest);
    }
  }

  lemma SnocThenAppend<K>(a: seq<K>, x: K, b: seq<K>)
    ensures (a + [x]) + b == a + ([x] + b)
  {
  }

  // ------------------------------------------------------------------ counting

  /** The distinct elements of `s` in order of first occurrence. */
  function Dedup<T(==)>(s: seq<T>): (r: seq<T>)
    ensures Distinct(r)
    ensures forall i :: 0 <= i < |r| ==> r[i] in s
    ensures forall i :: 0 <= i < |s| ==> s[i] in r
    ensures |r| <= |s|
  {
    if s == [] then []
    else
      var d := Dedup(s[..|s| - 1]);
      if s[|s| - 1] in d then d else d + [s[|s| - 1]]
  }

  /**
   * Dedup keeps the order of first occurrence: for i < j, the element at i occurs
   * in `s` at a position before which the element at j has not yet occurred.
   */
  lemma {:induction false} DedupOrder<T>(s: seq<T>, i: nat, j: nat)
    requires i < j < |Dedup(s)|
    ensures exists p :: 0 <= p < |s| && s[p] == Dedup(s)[i] && Dedup(s)[j] !in s[..p + 1]
  {
    var init := s[..|s| - 1];
    var d := Dedup(init);
    if j < |d| {
      DedupOrder(init, i, j);
      var p :| 0 <= p < |init| && init[p] == d[i] && d[j] !in init[..p + 1];
      assert s[..p + 1] == init[..p + 1];
      assert s[p] == Dedup(s)[i];
    } else {
      var last := s[|s| - 1];
      assert Dedup(s) == d + [last] && Dedup(s)[j] == last && last !in init;
      var p :| 0 <= p < |init| && init[p] == d[i];
      assert s[..p + 1] == init[..p + 1];
      assert s[p] == Dedup(s)[i];
    }
  }

  /** Setting the last element of `s` in a map keyed by the distinct elements before it keys it by those of `s`. */
  lemma PutKeysDedup<K(!new), V>(m: OMap<K, V>, s: seq<K>, v: V)
    requires s != [] && ValidMap(m) && m.keys == Dedup(s[..|s| - 1])
    ensures Put(m, s[|s| - 1], v).keys == Dedup(s)
  {
  }

  /** Setting a key in a map keyed by the distinct elements of `s` keys it by those of `s + [k]`. */
  lemma PutKeysDedupSnoc<K(!new), V>(m: OMap<K, V>, s: seq<K>, k: K, v: V)
    requires ValidMap(m) && m.keys == Dedup(s)
    ensures Put(m, k, v).keys == Dedup(s + [k])
  {
    assert (s + [k])[..|s|] == s;
  }

  function Count<T(==)>(s: seq<T>, x: T): nat {
    multiset(s)[x]
  }

  /** The sum over `keys` of how often each occurs in `s`. */
  function SumCounts<T(==)>(keys: seq<T>, s: seq<T>): nat {
    if keys == [] then 0 else Count(s, keys[0]) + SumCounts(keys[1..], s)
  }

  lemma {:induction false} SumCountsSnoc<T>(keys: seq<T>, s: seq<T>, x: T)
    requires Distinct(keys)
    ensures SumCounts(keys, s + [x]) == SumCounts(keys, s) + (if x in keys then 1 else 0)
  {
    if keys != [] {
      assert multiset(s + [x]) == multiset(s) + multiset{x};
      SumCountsSnoc(keys[1..], s, x);
      assert x in keys <==> x == keys[0] || x in keys[1..];
    }
  }

  /** Counting per key over a list of distinct keys that covers `s` accounts for all of `s`. */
  lemma {:induction false} SumCountsTotal<T>(keys: seq<T>, s: seq<T>)
    requires Distinct(keys)
    requires forall x :: x in s ==> x in keys
    ensures SumCounts(keys, s) == |s|
  {
    if s == [] {
      SumCountsEmpty(keys, s);
    } else {
      var init := s[..|s| - 1];
      assert s == init + [s[|s| - 1]];
      SumCountsTotal(keys, init);
      SumCountsSnoc(keys, init, s[|s| - 1]);
    }
  }

  lemma {:induction false} SumCountsEmpty<T>(keys: seq<T>, s: seq<T>)
    requires s == []
    ensures SumCounts(keys, s) == 0
  {
    if keys != [] {
      SumCountsEmpty(keys[1..], s);
    }
  }

  function Sum(s: seq<nat>): nat {
    if s == [] then 0 else s[0] + Sum(s[1..])
  }

  lemma {:induction false} SumAppend(a: seq<nat>, b: seq<nat>)
    ensures Sum(a + b) == Sum(a) + Sum(b)
  {
    if a != [] {
      assert (a + b)[0] == a[0] && (a + b)[1..] == a[1..] + b;
      SumAppend(a[1..], b);
      assert Sum(a + b) == a[0] + Sum(a[1..] + b);
    } else {
      assert a + b == b;
    }
  }

  /** A record of counts: each distinct element of `s` in first-seen order, with its number of occurrences. */
  ghost predicate Tally<T(!new)>(m: OMap<T, nat>, s: seq<T>) {
    ValidMap(m) && m.keys == Dedup(s) && forall x :: x in m.entries ==> m.entries[x] == Count(s, x)
  }

  /** The counts of a tally add up to the length of what was counted. */
  lemma TallySum<T(!new)>(m: OMap<T, nat>, s: seq<T>)
    requires Tally(m, s)
    ensures Sum(Values(m)) == |s|
  {
    KeysInEntries(m);
    SumValuesIsSumCounts(m, s, 0);
    assert m.keys[0..] == m.keys;
    SumCountsTotal(m.keys, s);
  }

  lemma {:induction false} SumValuesIsSumCounts<T(!new)>(m: OMap<T, nat>, s: seq<T>, i: nat)
    requires Tally(m, s) && i <= |m.keys|
    ensures Sum(Values(m)[i..]) == SumCounts(m.keys[i..], s)
    decreases |m.keys| - i
  {
    if i < |m.keys| {
      KeysInEntries(m);
      SumValuesIsSumCounts(m, s, i + 1);
      assert Values(m)[i..][1..] == Values(m)[i + 1..];
      assert m.keys[i..][1..] == m.keys[i + 1..];
    }
  }

  /** A part moved from the work that remains to the work done keeps the whole. */
  lemma Advance<T>(done: seq<T>, part: seq<T>, later: seq<T>, total: seq<T>)
    requires done + (part + later) == total
    ensures (done + part) + later == total
  {
  }

  // ----------------------------------------------------------------- flatten

  /** The lists one after another. */
  function Flatten<T>(ls: seq<seq<T>>): seq<T> {
    if ls == [] then [] else Flatten(ls[..|ls| - 1]) + ls[|ls| - 1]
  }

  lemma FlattenPrefixStep<T>(ls: seq<seq<T>>, j: nat)
    requires j < |ls|
    ensures Flatten(ls[..j + 1]) == Flatten(ls[..j]) + ls[j]
  {
    assert ls[..j + 1][..j] == ls[..j];
  }

  /** Flattening a list put in front. */
  lemma {:induction false} FlattenCons<T>(x: seq<T>, ls: seq<seq<T>>)
    ensures Flatten([x] + ls) == x + Flatten(ls)
  {
    if ls != [] {
      assert ([x] + ls)[..|[x] + ls| - 1] == [x] + ls[..|ls| - 1];
      FlattenCons(x, ls[..|ls| - 1]);
    } else {
      assert Flatten([x]) == Flatten([x][..0]) + x;
    }
  }

  /** Lists of the same lengths, one for one, flatten to the same length. */
  lemma {:induction false} FlattenSameShape<T, U>(ls: seq<seq<T>>, ms: seq<seq<U>>)
    requires |ls| == |ms| && forall k :: 0 <= k < |ls| ==> |ls[k]| == |ms[k]|
    ensures |Flatten(ls)| == |Flatten(ms)|
  {
    if ls != [] {
      FlattenSameShape(ls[..|ls| - 1], ms[..|ms| - 1]);
    }
  }

  /** Whatever one of the lists holds, the flattened list holds. */
  lemma {:induction false} InFlatten<T>(ls: seq<seq<T>>, k: nat, x: T)
    requires k < |ls| && x in ls[k]
    ensures x in Flatten(ls)
  {
    if k < |ls| - 1 {
      InFlatten(ls[..|ls| - 1], k, x);
    }
  }

  /** Whatever the flattened list holds, one of the lists holds. */
  lemma {:induction false} FlattenMember<T>(ls: seq<seq<T>>, x: T)
    requires x in Flatten(ls)
    ensures exists k :: 0 <= k < |ls| && x in ls[k]
  {
    if x !in ls[|ls| - 1] {
      FlattenMember(ls[..|ls| - 1], x);
      var k :| 0 <= k < |ls| - 1 && x in ls[..|ls| - 1][k];
      assert x in ls[k];
    }
  }

  // ------------------------------------------------------------- stable sort

  /** `before(a, b)`: `a` may be placed before `b`; a total preorder. */
  ghost predicate TotalPreorder<T(!new)>(before: (T, T) -> bool) {
    (forall a, b :: before(a, b) || before(b, a)) &&
    (forall a, b, c :: before(a, b) && before(b, c) ==> before(a, c))
  }

  predicate SortedBy<T>(s: seq<T>, before: (T, T) -> bool) {
    forall i, j :: 0 <= i < j < |s| ==> before(s[i], s[j])
  }

  /** Inserts `x` after every element it need not precede, which keeps equal elements in order. */
  function Insert<T(!new)>(x: T, s: seq<T>, before: (T, T) -> bool): (r: seq<T>)
    ensures multiset(r) == multiset(s) + multiset{x}
  {
    if s == [] then [x]
    else if before(s[0], x) then
      assert s == [s[0]] + s[1..];
      [s[0]] + Insert(x, s[1..], before)
    else [x] + s
  }

  lemma {:induction false} InsertSorted<T(!new)>(x: T, s: seq<T>, before: (T, T) -> bool)
    requires TotalPreorder(before) && SortedBy(s, before)
    ensures SortedBy(Insert(x, s, before), before)
  {
    if s != [] && before(s[0], x) {
      var rest := Insert(x, s[1..], before);
      InsertSorted(x, s[1..], before);
      assert s == [s[0]] + s[1..];
      forall k | 0 <= k < |rest| ensures before(s[0], rest[k]) {
        assert rest[k] in multiset(rest);
        assert rest[k] == x || rest[k] in multiset(s[1..]);
      }
    }
  }

  /** `a` and `b` are tied: each may be placed before the other. */
  predicate Tied<T>(before: (T, T) -> bool, a: T, b: T) {
    before(a, b) && before(b, a)
  }

  /** The elements of `s` tied with `x`, in the order `s` has them. */
  function TiedWith<T>(s: seq<T>, x: T, before: (T, T) -> bool): seq<T> {
    if s == [] then [] else (if Tied(before, s[0], x) then [s[0]] else []) + TiedWith(s[1..], x, before)
  }

  lemma {:induction false} TiedWithAppend<T>(a: seq<T>, b: seq<T>, x: T, before: (T, T) -> bool)
    ensures TiedWith(a + b, x, before) == TiedWith(a, x, before) + TiedWith(b, x, before)
  {
    if a == [] {
      assert a + b == b;
    } else {
      var h, rest := a[0], a[1..];
      assert a == [h] + rest && a + b == [h] + (rest + b);
      TiedWithAppend(rest, b, x, before);
      TiedWithCons(h, rest + b, x, before);
      TiedWithCons(h, rest, x, before);
    }
  }

  /** In a sorted list that starts after `y`, nothing is tied with something tied with `y`. */
  lemma {:induction false} NoneTied<T(!new)>(y: T, s: seq<T>, x: T, before: (T, T) -> bool)
    requires TotalPreorder(before) && SortedBy(s, before)
    requires s != [] && !before(s[0], y) && Tied(before, y, x)
    ensures TiedWith(s, x, before) == []
  {
    assert !Tied(before, s[0], x);
    if |s| > 1 {
      assert !before(s[1], y) by {
        assert before(s[0], s[1]);
      }
      NoneTied(y, s[1..], x, before);
    }
  }

  lemma TiedWithCons<T>(h: T, rest: seq<T>, x: T, before: (T, T) -> bool)
    ensures TiedWith([h] + rest, x, before) == (if Tied(before, h, x) then [h] else []) + TiedWith(rest, x, before)
  {
    assert ([h] + rest)[0] == h && ([h] + rest)[1..] == rest;
  }

  /** Inserting `y` puts it after every element tied with it. */
  lemma {:induction false} InsertTiedWith<T(!new)>(y: T, s: seq<T>, x: T, before: (T, T) -> bool)
    requires TotalPreorder(before) && SortedBy(s, before)
    ensures TiedWith(Insert(y, s, before), x, before)
      == TiedWith(s, x, before) + (if Tied(before, y, x) then [y] else [])
    decreases |s|, 1
  {
    if s == [] {
      TiedWithCons(y, [], x, before);
    } else if before(s[0], y) {
      InsertTiedWithLater(y, s, x, before);
    } else {
      TiedWithCons(y, s, x, before);
      if Tied(before, y, x) {
        NoneTied(y, s, x, before);
      }
    }
  }

  lemma {:induction false} InsertTiedWithLater<T(!new)>(y: T, s: seq<T>, x: T, before: (T, T) -> bool)
    requires TotalPreorder(before) && SortedBy(s, before)
    requires s != [] && before(s[0], y)
    ensures TiedWith(Insert(y, s, before), x, before)
      == TiedWith(s, x, before) + (if Tied(before, y, x) then [y] else [])
    decreases |s|, 0
  {
    var h, rest := s[0], s[1..];
    assert SortedBy(rest, before);
    InsertTiedWith(y, rest, x, before);
    assert Insert(y, s, before) == [h] + Insert(y, rest, before);
    assert s == [h] + rest;
    TiedWithConsBoth(h, rest, Insert(y, rest, before), x, if Tied(before, y, x) then [y] else [], before);
  }

  /** Putting the same head before two sequences keeps what their tied elements differ by. */
  lemma {:induction false} TiedWithConsBoth<T>(h: T, rest: seq<T>, longer: seq<T>, x: T, extra: seq<T>, before: (T, T) -> bool)
    requires TiedWith(longer, x, before) == TiedWith(rest, x, before) + extra
    ensures TiedWith([h] + longer, x, before) == TiedWith([h] + rest, x, before) + extra
  {
    TiedWithCons(h, longer, x, before);
    TiedWithCons(h, rest, x, before);
    var tied := TiedWith(rest, x, before);
    if Tied(before, h, x) {
      assert [h] + (tied + extra) == ([h] + tied) + extra;
    } else {
      assert [] + (tied + extra) == ([] + tied) + extra;
    }
  }

  /**
   * The sort is stable: the elements tied with any `x` come out in the order
   * they went in.
   */
  lemma {:induction false} StableSortStable<T(!new)>(s: seq<T>, x: T, before: (T, T) -> bool)
    requires TotalPreorder(before)
    ensures TiedWith(StableSort(s, before), x, before) == TiedWith(s, x, before)
  {
    if s != [] {
      var init, last := s[..|s| - 1], s[|s| - 1];
      var sorted := StableSort(init, before);
      StableSortStable(init, x, before);
      InsertTiedWith(last, sorted, x, before);
      assert s == init + [last];
      TiedWithSnoc(init, last, x, before);
    }
  }

  lemma TiedWithSnoc<T>(init: seq<T>, last: T, x: T, before: (T, T) -> bool)
    ensures TiedWith(init + [last], x, before) == TiedWith(init, x, before) + (if Tied(before, last, x) then [last] else [])
  {
    TiedWithAppend(init, [last], x, before);
    TiedWithCons(last, [], x, before);
  }

  /** Array.prototype.sort with a comparator: sorted and a permutation; StableSortStable proves it stable. */
  function StableSort<T(!new)>(s: seq<T>, before: (T, T) -> bool): (r: seq<T>)
    requires TotalPreorder(before)
    ensures SortedBy(r, before)
    ensures multiset(r) == multiset(s) && |r| == |s|
  {
    if s == [] then []
    else
      var init, last := s[..|s| - 1], s[|s| - 1];
      assert s == init + [last];
      assert multiset(s) == multiset(init) + multiset{last};
      var sorted := StableSort(init, before);
      InsertSorted(last, sorted, before);
      Insert(last, sorted, before)
  }
}
