/**
  The chained hash map: a power-of-two table of chains, with entries filed
  under the low bits of their key's hash and the null key in bucket 0. Each
  operation is a pure function from the map before to the map after, and
  its contract is stated against Contents, the map<Option<K>, V> the table
  stands for. Key hashing (`hashCode`) is the parameter `hash`; key equality
  (`equals`) is Dafny equality.
 */
module HashMaps {
  import opened Results
  import opened Chains
  import opened Capacity

  /** What init throws. */
  datatype Error = IllegalArgument

  /** The fields of the Java object: the table, the entry count, the
      structural-modification count, the load factor and the rehash threshold. */
  datatype HashMap<K, V> = HashMap(elementData: seq<Chain<K, V>>, elementCount: int, modCount: int,
                                   loadFactor: real, threshold: int)

  /** Java's Integer.MAX_VALUE. */
  const MaxInt: int := 0x7FFF_FFFF

  /** computeThreshold: `(int) (length * loadFactor)`. The cast truncates the
      non-negative product and saturates at MAX_VALUE. */
  function ComputeThreshold(len: int, loadFactor: real): (t: int)
    requires len >= 0 && loadFactor > 0.0
    ensures 0 <= t <= MaxInt
    ensures t as real <= len as real * loadFactor
    ensures t < MaxInt ==> len as real * loadFactor < t as real + 1.0
  {
    var p := (len as real * loadFactor).Floor;
    if p > MaxInt then MaxInt else p
  }

  /** Every entry carries its key's hash and sits in the bucket that hash selects. */
  predicate Placed<K(==), V(==)>(hash: K -> int, table: seq<Chain<K, V>>, len: int)
    requires len > 0
  {
    forall i, e | 0 <= i < |table| && e in table[i] ::
      e.origKeyHash == KeyHash(hash, e.key) && IndexFor(e.origKeyHash, len) == i
  }

  /** The representation invariant. */
  predicate Valid<K(==), V(==)>(hash: K -> int, m: HashMap<K, V>) {
    var len := |m.elementData|;
    && 1 <= len <= MaximumCapacity && IsPowerOfTwo(len)
    && Placed(hash, m.elementData, len)
    && UniqueKeys(multiset(Flatten(m.elementData)))
    && m.elementCount == |Flatten(m.elementData)|
    && m.loadFactor > 0.0
    && m.threshold == ComputeThreshold(len, m.loadFactor)
  }

  /** The map the table stands for. */
  function Contents<K(==), V(==)>(m: HashMap<K, V>): map<Option<K>, V> {
    EntriesMap(Flatten(m.elementData))
  }

  /** The bucket a key is filed under and looked up in. */
  function BucketOf<K>(hash: K -> int, key: Option<K>, len: int): (i: int)
    requires len > 0
    ensures 0 <= i < len
    ensures key.None? ==> i == 0
  {
    IndexFor(KeyHash(hash, key), len)
  }

  /** Only the key's own bucket can hold it, and that bucket decides what
      the map holds for it. */
  lemma BucketLookup<K, V>(hash: K -> int, m: HashMap<K, V>, key: Option<K>)
    requires Valid(hash, m)
    ensures var chain := m.elementData[BucketOf(hash, key, |m.elementData|)];
      && (key in Contents(m) <==> exists e | e in chain :: e.key == key)
      && forall e | e in chain && e.key == key :: Contents(m)[key] == e.value
  {
    BucketDomain(hash, m, key);
    var chain := m.elementData[BucketOf(hash, key, |m.elementData|)];
    forall e | e in chain && e.key == key
      ensures Contents(m)[key] == e.value
    {
      InFlatten(m.elementData, e);
      EntriesMapValue(Flatten(m.elementData), e);
    }
  }

  lemma BucketDomain<K, V>(hash: K -> int, m: HashMap<K, V>, key: Option<K>)
    requires Valid(hash, m)
    ensures key in Contents(m) <==> exists e | e in m.elementData[BucketOf(hash, key, |m.elementData|)] :: e.key == key
  {
    var table := m.elementData;
    var b := BucketOf(hash, key, |table|);
    EntriesMapDomain(Flatten(table), key);
    if key in Contents(m) {
      var e :| e in Flatten(table) && e.key == key;
      InFlatten(table, e);
      var i :| 0 <= i < |table| && e in table[i];
      assert i == b;
    }
    if e: Entry<K, V> :| e in table[b] && e.key == key {
      InFlatten(table, e);
    }
  }

  lemma NullKeyInBucketZero<K, V>(hash: K -> int, m: HashMap<K, V>)
    requires Valid(hash, m)
    ensures forall i, e | 0 <= i < |m.elementData| && e in m.elementData[i] && e.key.None? :: i == 0
  {
  }

  // ---- init ----

  /** A table of len null buckets. */
  function EmptyTable<K, V>(len: nat): (t: seq<Chain<K, V>>)
    ensures |t| == len && Flatten(t) == []
    ensures forall i | 0 <= i < len :: t[i] == []
  {
    var t := seq(len, _ => []);
    FlattenOfEmptyChains(t);
    t
  }

  /** init: a negative capacity or a non-positive load factor is refused;
      otherwise the table has calculateCapacity(capacity) empty buckets. */
  function Init<K(==), V(==)>(hash: K -> int, capacity: bv32, loadFactor: real): (r: Result<HashMap<K, V>, Error>)
    ensures r.Ok? <==> !IsNegative(capacity) && loadFactor > 0.0
    ensures r.Fail? ==> r.error == IllegalArgument
    ensures r.Ok? ==> && Valid(hash, r.value) && Contents(r.value) == map[]
                      && r.value.elementCount == 0 && r.value.modCount == 0
                      && |r.value.elementData| == TableLength(capacity)
  {
    if !IsNegative(capacity) && loadFactor > 0.0 then
      var len := TableLength(capacity);
      Ok(HashMap(EmptyTable(len), 0, 0, loadFactor, ComputeThreshold(len, loadFactor)))
    else
      Fail(IllegalArgument)
  }

  // ---- lookups ----

  /** findNullKeyEntry, on the chain of bucket 0: the position of the first
      entry whose key is null. */
  function FindNullKeyEntry<K(==), V(==)>(chain: Chain<K, V>): (r: Option<nat>)
    ensures r.Some? ==> r.value < |chain| && chain[r.value].key.None?
    ensures r.Some? ==> forall j | 0 <= j < r.value :: chain[j].key.Some?
    ensures r.None? ==> forall e | e in chain :: e.key.Some?
    decreases |chain|
  {
    if chain == [] then None
    else if chain[0].key.None? then Some(0)
    else match FindNullKeyEntry(chain[1..])
      case None => None
      case Some(j) => Some(j + 1)
  }

  /** findNonNullKeyEntry: the position of the first entry filed under
      keyHash whose key equals key. */
  function FindNonNullKeyEntry<K(==), V(==)>(chain: Chain<K, V>, key: K, keyHash: int): (r: Option<nat>)
    ensures r.Some? ==> r.value < |chain| && chain[r.value].origKeyHash == keyHash && chain[r.value].key == Some(key)
    ensures r.Some? ==> forall j | 0 <= j < r.value :: chain[j].origKeyHash != keyHash || chain[j].key != Some(key)
    ensures r.None? ==> forall e | e in chain :: e.origKeyHash != keyHash || e.key != Some(key)
    decreases |chain|
  {
    if chain == [] then None
    else if chain[0].origKeyHash == keyHash && chain[0].key == Some(key) then Some(0)
    else match FindNonNullKeyEntry(chain[1..], key, keyHash)
      case None => None
      case Some(j) => Some(j + 1)
  }

  /** The lookup getEntry, putImpl and removeEntry share: the bucket and the
      position in its chain of the entry for key, if any. */
  function Locate<K(==), V(==)>(hash: K -> int, m: HashMap<K, V>, key: Option<K>): (r: (int, Option<nat>))
    requires Valid(hash, m)
    ensures r.0 == BucketOf(hash, key, |m.elementData|)
    ensures r.1.Some? <==> key in Contents(m)
    ensures r.1.Some? ==> && r.1.value < |m.elementData[r.0]|
                          && m.elementData[r.0][r.1.value].key == key
                          && Contents(m)[key] == m.elementData[r.0][r.1.value].value
  {
    BucketLookup(hash, m, key);
    if key.None? then
      (0, FindNullKeyEntry(m.elementData[0]))
    else
      var h := hash(key.value);
      var index := IndexFor(h, |m.elementData|);
      (index, FindNonNullKeyEntry(m.elementData[index], key.value, h))
  }

  /** getEntry */
  function GetEntry<K(==), V(==)>(hash: K -> int, m: HashMap<K, V>, key: Option<K>): (r: Option<Entry<K, V>>)
    requires Valid(hash, m)
    ensures r.Some? <==> key in Contents(m)
    ensures r.Some? ==> r.value.key == key && r.value.value == Contents(m)[key]
    ensures r.Some? ==> r.value in m.elementData[BucketOf(hash, key, |m.elementData|)]
  {
    var (index, found) := Locate(hash, m, key);
    match found
    case None => None
    case Some(j) => Some(m.elementData[index][j])
  }

  /** get: the value for key, None when there is no entry for it. */
  function Get<K(==), V(==)>(hash: K -> int, m: HashMap<K, V>, key: Option<K>): (r: Option<V>)
    requires Valid(hash, m)
    ensures r.Some? <==> key in Contents(m)
    ensures r.Some? ==> r.value == Contents(m)[key]
  {
    match GetEntry(hash, m, key)
    case None => None
    case Some(e) => Some(e.value)
  }

  /** containsKey */
  function ContainsKey<K(==), V(==)>(hash: K -> int, m: HashMap<K, V>, key: Option<K>): (r: bool)
    requires Valid(hash, m)
    ensures r <==> key in Contents(m)
  {
    GetEntry(hash, m, key).Some?
  }

  /** size */
  function Size<K(==), V(==)>(hash: K -> int, m: HashMap<K, V>): (n: int)
    requires Valid(hash, m)
    ensures n == |Contents(m).Keys|
  {
    EntriesMapSize(Flatten(m.elementData));
    m.elementCount
  }

  /** isEmpty */
  function IsEmpty<K(==), V(==)>(hash: K -> int, m: HashMap<K, V>): (r: bool)
    requires Valid(hash, m)
    ensures r <==> Contents(m) == map[]
  {
    EntriesMapSize(Flatten(m.elementData));
    assert Contents(m) == map[] <==> |Contents(m).Keys| == 0;
    m.elementCount == 0
  }

  // ---- put ----

  /** The found-entry branch of putImpl: `entry.value = value` on the entry at
      position j of bucket index. */
  function SetValue<K(==), V(==)>(hash: K -> int, m: HashMap<K, V>, index: int, j: nat, value: V): (r: HashMap<K, V>)
    requires Valid(hash, m) && 0 <= index < |m.elementData| && j < |m.elementData[index]|
    ensures Valid(hash, r)
    ensures Contents(r) == Contents(m)[m.elementData[index][j].key := value]
    ensures r.elementCount == m.elementCount && r.modCount == m.modCount
    ensures |r.elementData| == |m.elementData| && r.threshold == m.threshold
  {
    var table := m.elementData;
    var chain := table[index];
    var e := chain[j];
    var e' := e.(value := value);
    var chain' := chain[j := e'];
    var table' := table[index := chain'];
    SetValueKeepsEntries(table, index, j, e');
    PlacedAfterUpdate(hash, table, index, chain');
    InFlatten(table, e);
    EntriesMapReplace(Flatten(table), Flatten(table'), e, e');
    m.(elementData := table')
  }

  lemma SetValueKeepsEntries<K, V>(table: seq<Chain<K, V>>, index: int, j: nat, e': Entry<K, V>)
    requires 0 <= index < |table| && j < |table[index]|
    ensures var table' := table[index := table[index][j := e']];
      && multiset(Flatten(table')) + multiset{table[index][j]} == multiset(Flatten(table)) + multiset{e'}
      && |Flatten(table')| == |Flatten(table)|
  {
    var chain := table[index];
    var e := chain[j];
    var chain' := chain[j := e'];
    var rest := multiset(chain[..j]) + multiset(chain[j + 1..]);
    assert chain == chain[..j] + [e] + chain[j + 1..];
    assert chain' == chain[..j] + [e'] + chain[j + 1..];
    assert multiset(chain) == rest + multiset{e};
    assert multiset(chain') == rest + multiset{e'};
    var after, before := multiset(Flatten(table[index := chain'])), multiset(Flatten(table));
    FlattenUpdate(table, index, chain');
    calc {
      after + multiset{e} + rest;
      after + multiset(chain);
      before + multiset(chain');
      before + multiset{e'} + rest;
    }
    Cancel(after + multiset{e}, before + multiset{e'}, rest);
    assert |after + multiset{e}| == |before + multiset{e'}|;
  }

  /** Pushing an entry at the head of a chain adds it to the table. */
  lemma PushAddsEntry<K, V>(table: seq<Chain<K, V>>, index: int, e: Entry<K, V>)
    requires 0 <= index < |table|
    ensures var table' := table[index := [e] + table[index]];
      && multiset(Flatten(table')) == multiset(Flatten(table)) + multiset{e}
      && |Flatten(table')| == |Flatten(table)| + 1
      && forall i, x | 0 <= i < |table| && x in table'[i] :: x in table[i] || (x == e && i == index)
  {
    var table' := table[index := [e] + table[index]];
    FlattenUpdate(table, index, [e] + table[index]);
    Cancel(multiset(Flatten(table')), multiset(Flatten(table)) + multiset{e}, multiset(table[index]));
    assert |multiset(Flatten(table'))| == |multiset(Flatten(table)) + multiset{e}|;
  }

  /** Replacing a chain by one whose entries are placed keeps the table placed. */
  lemma PlacedAfterUpdate<K, V>(hash: K -> int, table: seq<Chain<K, V>>, index: int, chain: Chain<K, V>)
    requires |table| > 0 && Placed(hash, table, |table|) && 0 <= index < |table|
    requires forall x | x in chain :: x.origKeyHash == KeyHash(hash, x.key) && IndexFor(x.origKeyHash, |table|) == index
    ensures Placed(hash, table[index := chain], |table|)
  {
  }

  /** The absent-key branch of putImpl: modCount++, createHashedEntry pushes
      a new entry at the head of the key's bucket (bucket 0 and hash 0 for
      the null key), ++elementCount. */
  function AddEntry<K(==), V(==)>(hash: K -> int, m: HashMap<K, V>, key: Option<K>, value: V): (r: HashMap<K, V>)
    requires Valid(hash, m) && key !in Contents(m)
    ensures Valid(hash, r)
    ensures Contents(r) == Contents(m)[key := value]
    ensures r.elementCount == m.elementCount + 1 && r.modCount == m.modCount + 1
    ensures |r.elementData| == |m.elementData| && r.threshold == m.threshold
    ensures var index := BucketOf(hash, key, |m.elementData|);
      r.elementData[index] == [Entry(key, KeyHash(hash, key), value)] + m.elementData[index]
  {
    var table := m.elementData;
    var h := KeyHash(hash, key);
    var index := if key.None? then 0 else IndexFor(h, |table|);
    var e := Entry(key, h, value);
    var table' := table[index := [e] + table[index]];
    PushAddsEntry(table, index, e);
    PlacedAfterUpdate(hash, table, index, [e] + table[index]);
    EntriesMapAdd(Flatten(table), Flatten(table'), e);
    m.(elementData := table', elementCount := m.elementCount + 1, modCount := m.modCount + 1)
  }

  /** putImpl: returns the map after and the previous value for key. */
  function Put<K(==), V(==)>(hash: K -> int, m: HashMap<K, V>, key: Option<K>, value: V): (r: (HashMap<K, V>, Option<V>))
    requires Valid(hash, m)
    ensures Valid(hash, r.0)
    ensures Contents(r.0) == Contents(m)[key := value]
    ensures key in Contents(m) ==> && r.1 == Some(Contents(m)[key])
                                   && r.0.elementCount == m.elementCount && r.0.modCount == m.modCount
                                   && |r.0.elementData| == |m.elementData|
    ensures key !in Contents(m) ==> && r.1 == None
                                    && r.0.elementCount == m.elementCount + 1 && r.0.modCount == m.modCount + 1
                                    && |r.0.elementData| == if m.elementCount + 1 > m.threshold
                                                            then RehashLength(|m.elementData|)
                                                            else |m.elementData|
  {
    var (index, found) := Locate(hash, m, key);
    match found
    case Some(j) =>
      (SetValue(hash, m, index, j, value), Some(m.elementData[index][j].value))
    case None =>
      var m1 := AddEntry(hash, m, key, value);
      (if m1.elementCount > m1.threshold then Rehash(hash, m1) else m1, None)
  }

  // ---- rehash ----

  /** One step of the loop of rehash: `entry.next = newData[index];
      newData[index] = entry`, with index the bucket the entry's stored hash
      selects in the new table. */
  function Push<K, V>(table: seq<Chain<K, V>>, e: Entry<K, V>): (r: seq<Chain<K, V>>)
    requires |table| > 0
    ensures |r| == |table|
  {
    var index := IndexFor(e.origKeyHash, |table|);
    table[index := [e] + table[index]]
  }

  /** Every entry of r was already in the same bucket of table, or is one of
      es and sits in the bucket its stored hash selects. */
  predicate ReinsertedFrom<K(==), V(==)>(r: seq<Chain<K, V>>, table: seq<Chain<K, V>>, es: Chain<K, V>)
    requires |r| == |table| > 0
  {
    forall i, e | 0 <= i < |r| && e in r[i] ::
      e in table[i] || (e in es && IndexFor(e.origKeyHash, |table|) == i)
  }

  /** The loop of rehash: each entry, in table order, is pushed at the head
      of the bucket its stored hash selects in the new table. */
  function Reinsert<K(==), V(==)>(table: seq<Chain<K, V>>, es: Chain<K, V>): (r: seq<Chain<K, V>>)
    requires |table| > 0
    ensures |r| == |table|
    ensures multiset(Flatten(r)) == multiset(Flatten(table)) + multiset(es)
    ensures |Flatten(r)| == |Flatten(table)| + |es|
    ensures ReinsertedFrom(r, table, es)
    decreases |es|
  {
    if es == [] then table
    else
      var r := Reinsert(Push(table, es[0]), es[1..]);
      ReinsertStep(table, es, r);
      r
  }

  lemma ReinsertStep<K, V>(table: seq<Chain<K, V>>, es: Chain<K, V>, r: seq<Chain<K, V>>)
    requires |table| > 0 && es != []
    requires var table' := Push(table, es[0]);
      && |r| == |table|
      && multiset(Flatten(r)) == multiset(Flatten(table')) + multiset(es[1..])
      && |Flatten(r)| == |Flatten(table')| + |es[1..]|
      && ReinsertedFrom(r, table', es[1..])
    ensures multiset(Flatten(r)) == multiset(Flatten(table)) + multiset(es)
    ensures |Flatten(r)| == |Flatten(table)| + |es|
    ensures ReinsertedFrom(r, table, es)
  {
    PushAddsEntry(table, IndexFor(es[0].origKeyHash, |table|), es[0]);
    assert es == [es[0]] + es[1..];
  }

  /** rehash(): a table of the next length, the same entries, each in the
      bucket its stored hash selects there; the threshold follows the length. */
  function Rehash<K(==), V(==)>(hash: K -> int, m: HashMap<K, V>): (r: HashMap<K, V>)
    requires Valid(hash, m)
    ensures Valid(hash, r)
    ensures Contents(r) == Contents(m)
    ensures r.elementCount == m.elementCount && r.modCount == m.modCount
    ensures |r.elementData| == RehashLength(|m.elementData|)
  {
    var length := RehashLength(|m.elementData|);
    var table := Reinsert(EmptyTable(length), Flatten(m.elementData));
    RehashPlaces(hash, m, table);
    EntriesMapOfPermutation(Flatten(m.elementData), Flatten(table));
    m.(elementData := table, threshold := ComputeThreshold(length, m.loadFactor))
  }

  lemma RehashPlaces<K, V>(hash: K -> int, m: HashMap<K, V>, table: seq<Chain<K, V>>)
    requires Valid(hash, m) && |table| > 0
    requires ReinsertedFrom(table, EmptyTable(|table|), Flatten(m.elementData))
    ensures Placed(hash, table, |table|)
  {
    forall i, e | 0 <= i < |table| && e in table[i]
      ensures e.origKeyHash == KeyHash(hash, e.key)
    {
      InFlatten(m.elementData, e);
    }
  }

  // ---- remove ----

  /** Unlinks the entry at position j of bucket index: the head case
      `elementData[index] = entry.next` and the inner case
      `last.next = entry.next` alike; then modCount++ and elementCount--. */
  function Unlink<K(==), V(==)>(hash: K -> int, m: HashMap<K, V>, index: int, j: nat): (r: HashMap<K, V>)
    requires Valid(hash, m) && 0 <= index < |m.elementData| && j < |m.elementData[index]|
    ensures Valid(hash, r)
    ensures Contents(r) == Contents(m) - {m.elementData[index][j].key}
    ensures r.elementCount == m.elementCount - 1 && r.modCount == m.modCount + 1
    ensures |r.elementData| == |m.elementData| && r.threshold == m.threshold
  {
    var table := m.elementData;
    var chain := table[index];
    var e := chain[j];
    var chain' := chain[..j] + chain[j + 1..];
    var table' := table[index := chain'];
    UnlinkDropsEntry(table, index, j);
    PlacedAfterUpdate(hash, table, index, chain');
    EntriesMapRemove(Flatten(table), Flatten(table'), e);
    m.(elementData := table', elementCount := m.elementCount - 1, modCount := m.modCount + 1)
  }

  lemma UnlinkDropsEntry<K, V>(table: seq<Chain<K, V>>, index: int, j: nat)
    requires 0 <= index < |table| && j < |table[index]|
    ensures var chain := table[index];
      && multiset(Flatten(table[index := chain[..j] + chain[j + 1..]])) + multiset{chain[j]} == multiset(Flatten(table))
      && |Flatten(table[index := chain[..j] + chain[j + 1..]])| + 1 == |Flatten(table)|
      && forall e | e in chain[..j] + chain[j + 1..] :: e in chain
  {
    var chain := table[index];
    var chain' := chain[..j] + chain[j + 1..];
    assert chain == chain[..j] + [chain[j]] + chain[j + 1..];
    FlattenUpdate(table, index, chain');
    Cancel(multiset(Flatten(table[index := chain'])) + multiset{chain[j]},
           multiset(Flatten(table)), multiset(chain'));
    assert |multiset(Flatten(table[index := chain'])) + multiset{chain[j]}| == |multiset(Flatten(table))|;
  }

  /** removeEntry(Object): the same search as getEntry, then the unlink. */
  function RemoveEntry<K(==), V(==)>(hash: K -> int, m: HashMap<K, V>, key: Option<K>): (r: (HashMap<K, V>, Option<Entry<K, V>>))
    requires Valid(hash, m)
    ensures Valid(hash, r.0)
    ensures Contents(r.0) == Contents(m) - {key}
    ensures r.1.Some? <==> key in Contents(m)
    ensures r.1.Some? ==> && r.1.value.key == key && r.1.value.value == Contents(m)[key]
                          && r.0.elementCount == m.elementCount - 1 && r.0.modCount == m.modCount + 1
    ensures r.1.None? ==> r.0 == m
    ensures |r.0.elementData| == |m.elementData|
  {
    var (index, found) := Locate(hash, m, key);
    match found
    case None => (m, None)
    case Some(j) => (Unlink(hash, m, index, j), Some(m.elementData[index][j]))
  }

  /** remove: the removed value, None when there was no entry for key. */
  function Remove<K(==), V(==)>(hash: K -> int, m: HashMap<K, V>, key: Option<K>): (r: (HashMap<K, V>, Option<V>))
    requires Valid(hash, m)
    ensures Valid(hash, r.0)
    ensures Contents(r.0) == Contents(m) - {key}
    ensures key in Contents(m) ==> && r.1 == Some(Contents(m)[key])
                                   && r.0.elementCount == m.elementCount - 1 && r.0.modCount == m.modCount + 1
    ensures key !in Contents(m) ==> r.1 == None && r.0 == m
  {
    var (m', entry) := RemoveEntry(hash, m, key);
    (m', if entry.Some? then Some(entry.value.value) else None)
  }

  // ---- clear ----

  /** clear: a non-empty map loses every entry and counts a modification;
      an empty one is left alone. */
  function Clear<K(==), V(==)>(hash: K -> int, m: HashMap<K, V>): (r: HashMap<K, V>)
    requires Valid(hash, m)
    ensures Valid(hash, r)
    ensures Contents(r) == map[] && r.elementCount == 0
    ensures |r.elementData| == |m.elementData| && forall i | 0 <= i < |r.elementData| :: r.elementData[i] == []
    ensures r.modCount == if m.elementCount > 0 then m.modCount + 1 else m.modCount
  {
    if m.elementCount > 0 then
      m.(elementCount := 0, elementData := EmptyTable(|m.elementData|), modCount := m.modCount + 1)
    else
      EmptyFlatten(m.elementData);
      m
  }

  // ---- the rehash overflow ----

  /** Finding: `new HashMap(1 << 30, 1e-9f)` is accepted with a table of 2^30
      buckets and threshold 1, so the second new key makes putImpl rehash;
      rehash as written then asks for a table of MIN_VALUE entries, where the
      corrected Rehash keeps 2^30. */
  lemma RehashOverflowReachable<K, V>(hash: K -> int)
    ensures var r := Init<K, V>(hash, 0x4000_0000, 1.0 / 1_000_000_000 as real);
      && r.Ok?
      && |r.value.elementData| == MaximumCapacity && r.value.threshold == 1
      && IsNegative(RehashLengthAsWritten(|r.value.elementData|))
      && RehashLength(|r.value.elementData|) == MaximumCapacity
  {
    var lf := 1.0 / 1_000_000_000 as real;
    assert TableLength(0x4000_0000) == MaximumCapacity;
    assert MaximumCapacity as real * lf == 1.073741824;
    assert ComputeThreshold(MaximumCapacity, lf) == 1;
    RehashOverflowsAtMaximum();
  }
}
