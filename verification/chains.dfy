/**
  The storage of the hash map: a table of chains of entries. A Java chain is
  a linked list through `Entry.next`; here it is a sequence, head first. The
  lemmas relate the table to the map it represents.
 */
module Chains {
  import opened Results

  /** key is None for Java's null key; origKeyHash is the hash the entry was
      filed under. */
  datatype Entry<K, V> = Entry(key: Option<K>, origKeyHash: int, value: V)

  type Chain<K, V> = seq<Entry<K, V>>

  /** The hash an entry for key is filed under: the null key's is 0. */
  function KeyHash<K>(hash: K -> int, key: Option<K>): int {
    match key
    case None => 0
    case Some(k) => hash(k)
  }

  /** Java's `hash & (length - 1)`. For a power-of-two length this keeps the
      low bits of the two's-complement hash, which is the Euclidean remainder. */
  function IndexFor(h: int, len: int): (i: int)
    requires len > 0
    ensures 0 <= i < len
  {
    h % len
  }

  /** All entries of a table, bucket 0 first, each chain head first: the order
      in which rehash visits them. */
  function Flatten<K(==), V(==)>(table: seq<Chain<K, V>>): Chain<K, V>
    decreases |table|
  {
    if table == [] then [] else Flatten(table[..|table| - 1]) + table[|table| - 1]
  }

  /** The map a run of entries stands for; an earlier entry hides a later one
      with the same key, as a chain lookup does. */
  function EntriesMap<K(==), V(==)>(es: Chain<K, V>): map<Option<K>, V>
    decreases |es|
  {
    if es == [] then map[] else EntriesMap(es[1..])[es[0].key := es[0].value]
  }

  /** No entry occurs twice and no two entries share a key. */
  predicate UniqueKeys<K(==), V(==)>(b: multiset<Entry<K, V>>) {
    && (forall e | e in b :: b[e] == 1)
    && (forall e1, e2 | e1 in b && e2 in b && e1.key == e2.key :: e1 == e2)
  }

  // ---- the table as a whole ----

  lemma {:induction false} InFlatten<K, V>(table: seq<Chain<K, V>>, e: Entry<K, V>)
    ensures e in Flatten(table) <==> exists i | 0 <= i < |table| :: e in table[i]
    decreases |table|
  {
    if table != [] {
      var n := |table| - 1;
      InFlatten(table[..n], e);
      assert forall i | 0 <= i < n :: table[..n][i] == table[i];
    }
  }

  /** Replacing one chain replaces its entries in the whole. */
  lemma {:induction false} FlattenUpdate<K, V>(table: seq<Chain<K, V>>, i: int, s: Chain<K, V>)
    requires 0 <= i < |table|
    ensures multiset(Flatten(table[i := s])) + multiset(table[i]) == multiset(Flatten(table)) + multiset(s)
    decreases |table|
  {
    var n := |table| - 1;
    var t := table[i := s];
    var before, after := Flatten(table[..n]), Flatten(t[..n]);
    assert Flatten(t) == after + t[n];
    assert Flatten(table) == before + table[n];
    if i == n {
      assert t[..n] == table[..n];
    } else {
      assert t[..n] == table[..n][i := s];
      assert table[..n][i] == table[i];
      FlattenUpdate(table[..n], i, s);
      calc {
        multiset(Flatten(t)) + multiset(table[i]);
        multiset(after) + multiset(table[n]) + multiset(table[i]);
        (multiset(after) + multiset(table[i])) + multiset(table[n]);
        multiset(before) + multiset(s) + multiset(table[n]);
        multiset(Flatten(table)) + multiset(s);
      }
    }
  }

  lemma {:induction false} FlattenOfEmptyChains<K, V>(table: seq<Chain<K, V>>)
    requires forall i | 0 <= i < |table| :: table[i] == []
    ensures Flatten(table) == []
    decreases |table|
  {
    if table != [] {
      FlattenOfEmptyChains(table[..|table| - 1]);
    }
  }

  lemma {:induction false} EmptyFlatten<K, V>(table: seq<Chain<K, V>>)
    requires Flatten(table) == []
    ensures forall i | 0 <= i < |table| :: table[i] == []
    decreases |table|
  {
    if table != [] {
      EmptyFlatten(table[..|table| - 1]);
      assert forall i | 0 <= i < |table| - 1 :: table[..|table| - 1][i] == table[i];
    }
  }

  // ---- the map a run of entries stands for ----

  lemma {:induction false} EntriesMapDomain<K, V>(es: Chain<K, V>, k: Option<K>)
    ensures k in EntriesMap(es) <==> exists e | e in es :: e.key == k
    decreases |es|
  {
    if es != [] {
      EntriesMapDomain(es[1..], k);
      assert forall e | e in es :: e == es[0] || e in es[1..];
    }
  }

  lemma UniqueKeysOfPart<K, V>(a: multiset<Entry<K, V>>, b: multiset<Entry<K, V>>)
    requires UniqueKeys(a + b)
    ensures UniqueKeys(a) && UniqueKeys(b)
  {
    forall e | e in a
      ensures a[e] == 1
    {
      assert (a + b)[e] == a[e] + b[e];
    }
    forall e | e in b
      ensures b[e] == 1
    {
      assert (a + b)[e] == a[e] + b[e];
    }
  }

  lemma {:induction false} EntriesMapValue<K, V>(es: Chain<K, V>, e: Entry<K, V>)
    requires UniqueKeys(multiset(es)) && e in es
    ensures e.key in EntriesMap(es) && EntriesMap(es)[e.key] == e.value
    decreases |es|
  {
    assert es == [es[0]] + es[1..];
    if e != es[0] {
      UniqueKeysOfPart(multiset{es[0]}, multiset(es[1..]));
      EntriesMapValue(es[1..], e);
    }
  }

  /** With unique keys the order of the entries does not matter. */
  lemma EntriesMapOfPermutation<K, V>(a: Chain<K, V>, b: Chain<K, V>)
    requires multiset(a) == multiset(b) && UniqueKeys(multiset(a))
    ensures EntriesMap(a) == EntriesMap(b)
  {
    forall k | k in EntriesMap(a)
      ensures k in EntriesMap(b) && EntriesMap(a)[k] == EntriesMap(b)[k]
    {
      EntriesMapDomain(a, k);
      var e :| e in a && e.key == k;
      assert e in multiset(b);
      EntriesMapValue(a, e);
      EntriesMapValue(b, e);
    }
    forall k | k in EntriesMap(b)
      ensures k in EntriesMap(a)
    {
      EntriesMapDomain(b, k);
      var e :| e in b && e.key == k;
      assert e in multiset(a);
      EntriesMapDomain(a, k);
    }
  }

  /** With unique keys there is one key per entry. */
  lemma {:induction false} EntriesMapSize<K, V>(es: Chain<K, V>)
    requires UniqueKeys(multiset(es))
    ensures |EntriesMap(es).Keys| == |es|
    decreases |es|
  {
    if es != [] {
      assert es == [es[0]] + es[1..];
      UniqueKeysOfPart(multiset{es[0]}, multiset(es[1..]));
      EntriesMapSize(es[1..]);
      EntriesMapDomain(es[1..], es[0].key);
    }
  }

  // ---- the map after one entry is added, replaced or removed ----

  /** A run of unique entries that agrees with m entry by entry and covers
      its keys stands for m. */
  lemma EntriesMapEquals<K, V>(b: Chain<K, V>, m: map<Option<K>, V>)
    requires UniqueKeys(multiset(b))
    requires forall x | x in b :: x.key in m && m[x.key] == x.value
    requires forall k | k in m :: exists x | x in b :: x.key == k
    ensures EntriesMap(b) == m
  {
    forall k | k in EntriesMap(b)
      ensures k in m && EntriesMap(b)[k] == m[k]
    {
      EntriesMapDomain(b, k);
      var x :| x in b && x.key == k;
      EntriesMapValue(b, x);
    }
    forall k | k in m
      ensures k in EntriesMap(b)
    {
      EntriesMapDomain(b, k);
    }
  }

  lemma Cancel<T>(a: multiset<T>, b: multiset<T>, c: multiset<T>)
    requires a + c == b + c
    ensures a == b
  {
    forall x
      ensures a[x] == b[x]
    {
      assert (a + c)[x] == (b + c)[x];
    }
  }

  lemma EntriesMapAdd<K, V>(a: Chain<K, V>, b: Chain<K, V>, e: Entry<K, V>)
    requires UniqueKeys(multiset(a)) && e.key !in EntriesMap(a)
    requires multiset(b) == multiset(a) + multiset{e}
    ensures UniqueKeys(multiset(b))
    ensures EntriesMap(b) == EntriesMap(a)[e.key := e.value]
  {
    forall x | x in a
      ensures x.key != e.key
    {
      EntriesMapDomain(a, x.key);
    }
    assert multiset(a)[e] == 0;
    var m := EntriesMap(a)[e.key := e.value];
    forall x | x in b
      ensures x.key in m && m[x.key] == x.value
    {
      if x != e {
        assert (multiset(a) + multiset{e})[x] == multiset(a)[x] + multiset{e}[x];
        EntriesMapValue(a, x);
      }
    }
    forall k | k in m
      ensures exists x | x in b :: x.key == k
    {
      if k != e.key {
        EntriesMapDomain(a, k);
        var x :| x in a && x.key == k;
        assert x in multiset(b);
      } else {
        assert e in multiset(b);
      }
    }
    EntriesMapEquals(b, m);
  }

  lemma EntriesMapReplace<K, V>(a: Chain<K, V>, b: Chain<K, V>, e: Entry<K, V>, e': Entry<K, V>)
    requires UniqueKeys(multiset(a)) && e in a && e'.key == e.key
    requires multiset(b) + multiset{e} == multiset(a) + multiset{e'}
    ensures UniqueKeys(multiset(b))
    ensures EntriesMap(b) == EntriesMap(a)[e.key := e'.value]
  {
    var m := EntriesMap(a)[e.key := e'.value];
    assert e' != e ==> multiset(a)[e'] == 0;
    forall x | x in b
      ensures x == e' || (x in a && x.key != e.key)
      ensures multiset(b)[x] == 1
    {
      assert (multiset(b) + multiset{e})[x] == (multiset(a) + multiset{e'})[x];
    }
    forall x | x in b
      ensures x.key in m && m[x.key] == x.value
    {
      if x != e' {
        EntriesMapValue(a, x);
      }
    }
    forall k | k in m
      ensures exists x | x in b :: x.key == k
    {
      assert (multiset(b) + multiset{e})[e'] == (multiset(a) + multiset{e'})[e'];
      if k != e.key {
        EntriesMapDomain(a, k);
        var x :| x in a && x.key == k;
        assert (multiset(b) + multiset{e})[x] == (multiset(a) + multiset{e'})[x];
      } else if e' != e {
        assert e' in multiset(b);
      } else {
        assert e in multiset(b);
      }
    }
    EntriesMapEquals(b, m);
  }

  lemma EntriesMapRemove<K, V>(a: Chain<K, V>, b: Chain<K, V>, e: Entry<K, V>)
    requires UniqueKeys(multiset(a))
    requires multiset(b) + multiset{e} == multiset(a)
    ensures UniqueKeys(multiset(b))
    ensures EntriesMap(b) == EntriesMap(a) - {e.key}
  {
    assert e in multiset(a);
    var m := EntriesMap(a) - {e.key};
    forall x | x in b
      ensures x in a && x.key != e.key && multiset(b)[x] == 1
    {
      assert (multiset(b) + multiset{e})[x] == multiset(a)[x];
    }
    forall x | x in b
      ensures x.key in m && m[x.key] == x.value
    {
      EntriesMapValue(a, x);
    }
    forall k | k in m
      ensures exists x | x in b :: x.key == k
    {
      EntriesMapDomain(a, k);
      var x :| x in a && x.key == k;
      assert (multiset(b) + multiset{e})[x] == multiset(a)[x];
      assert x in multiset(b);
    }
    EntriesMapEquals(b, m);
  }
}
