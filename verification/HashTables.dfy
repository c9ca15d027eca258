/** The self-expanding hash table: an array of linked lists that represents a finite map from keys to items, and the
    iterator over it. */
module HashTables {
  import opened Lists

  const INITIAL_BUCKETS := 4
  const RESIZE_RATIO := 3
  const INCREASE_SIZE_BY := 4

  datatype Lookup<T> = Found(item: T) | NotFound

  /** How a table's user describes its items. */
  datatype Keying<!Key, !T> = Keying(getKey: T -> Key, hash: Key -> nat)

  function HashValue<Key, T>(keying: Keying<Key, T>, key: Key, numBuckets: nat): (b: nat)
    requires numBuckets > 0
    ensures b < numBuckets
  {
    keying.hash(key) % numBuckets
  }

  /** Keys with the same hash value are in the same bucket, and the hash is spread over the buckets by going round. */
  lemma HashGoesRound<Key, T>(keying: Keying<Key, T>, key: Key, numBuckets: nat)
    requires numBuckets > 0
    ensures exists turns: nat :: keying.hash(key) == turns * numBuckets + HashValue(keying, key, numBuckets)
  {
    var turns := keying.hash(key) / numBuckets;
    assert keying.hash(key) == turns * numBuckets + HashValue(keying, key, numBuckets);
  }

  /** Every item sits in the bucket its key hashes to. */
  ghost predicate Placed<Key, T>(keying: Keying<Key, T>, buckets: seq<seq<T>>) {
    forall b, i :: 0 <= b < |buckets| && 0 <= i < |buckets[b]| ==> HashValue(keying, keying.getKey(buckets[b][i]), |buckets|) == b
  }

  ghost predicate DistinctKeys<Key, T>(keying: Keying<Key, T>, bucket: seq<T>) {
    forall i, j :: 0 <= i < j < |bucket| ==> keying.getKey(bucket[i]) != keying.getKey(bucket[j])
  }

  /** The buckets hold exactly the items of the map, each under its own key and in its key's bucket, once. */
  ghost predicate Represents<Key, T>(keying: Keying<Key, T>, buckets: seq<seq<T>>, m: map<Key, T>) {
    && Placed(keying, buckets)
    && (forall b :: 0 <= b < |buckets| ==> DistinctKeys(keying, buckets[b]))
    && (forall b, i :: 0 <= b < |buckets| && 0 <= i < |buckets[b]| ==> HasItem(keying, m, buckets[b][i]))
    && (forall key :: key in m ==>
          keying.getKey(m[key]) == key && 0 < |buckets| && m[key] in buckets[HashValue(keying, key, |buckets|)])
  }

  predicate HasItem<Key, T(==)>(keying: Keying<Key, T>, m: map<Key, T>, item: T) {
    keying.getKey(item) in m && m[keying.getKey(item)] == item
  }

  lemma EmptyRepresents<Key, T>(keying: Keying<Key, T>, buckets: seq<seq<T>>)
    requires forall b :: 0 <= b < |buckets| ==> buckets[b] == []
    ensures Represents(keying, buckets, map[])
  {
  }

  lemma EmptyBucketsEmptyMap<Key, T>(keying: Keying<Key, T>, buckets: seq<seq<T>>, m: map<Key, T>)
    requires Represents(keying, buckets, m) && forall b :: 0 <= b < |buckets| ==> buckets[b] == []
    ensures m == map[]
  {
    assert m.Keys == {};
  }

  function Added<Key, T>(keying: Keying<Key, T>, buckets: seq<seq<T>>, item: T): seq<seq<T>>
    requires |buckets| > 0
  {
    var b := HashValue(keying, keying.getKey(item), |buckets|);
    buckets[b := buckets[b] + [item]]
  }

  /** Appending an item with a new key to its bucket adds the pair to the map. */
  lemma AddedRepresents<Key, T>(keying: Keying<Key, T>, buckets: seq<seq<T>>, m: map<Key, T>, item: T)
    requires Represents(keying, buckets, m) && |buckets| > 0 && keying.getKey(item) !in m
    ensures Represents(keying, Added(keying, buckets, item), m[keying.getKey(item) := item])
  {
    var key := keying.getKey(item);
    var b := HashValue(keying, key, |buckets|);
    var buckets' := Added(keying, buckets, item);
    hide HashValue;
    forall i | 0 <= i < |buckets[b]| ensures keying.getKey(buckets[b][i]) != key {
      assert HasItem(keying, m, buckets[b][i]);
    }
    assert item in buckets'[b];
    forall c, i | 0 <= c < |buckets'| && 0 <= i < |buckets'[c]|
      ensures HasItem(keying, m[key := item], buckets'[c][i])
    {
      assert buckets'[c][i] == item || HasItem(keying, m, buckets'[c][i]);
    }
  }

  function Taken<T>(buckets: seq<seq<T>>, b: nat, i: nat): seq<seq<T>>
    requires b < |buckets| && i < |buckets[b]|
  {
    buckets[b := buckets[b][..i] + buckets[b][i + 1..]]
  }

  /** Where the items left in the bucket come from, and where the ones before went. */
  lemma TakenAt<T>(bucket: seq<T>, i: nat)
    requires i < |bucket|
    ensures var after := bucket[..i] + bucket[i + 1..];
      && |after| == |bucket| - 1
      && (forall j :: 0 <= j < |after| ==> after[j] == bucket[if j < i then j else j + 1])
      && forall x :: x in bucket && x != bucket[i] ==> x in after
  {
    var after := bucket[..i] + bucket[i + 1..];
    forall x | x in bucket && x != bucket[i] ensures x in after {
      var j :| 0 <= j < |bucket| && bucket[j] == x;
      assert after[if j < i then j else j - 1] == x;
    }
  }

  /** Taking an item out of its bucket takes its pair out of the map. */
  lemma TakenRepresents<Key, T>(keying: Keying<Key, T>, buckets: seq<seq<T>>, m: map<Key, T>, b: nat, i: nat)
    requires Represents(keying, buckets, m) && b < |buckets| && i < |buckets[b]|
    ensures HasItem(keying, m, buckets[b][i])
    ensures Represents(keying, Taken(buckets, b, i), m - {keying.getKey(buckets[b][i])})
  {
    hide HashValue;
    var item := buckets[b][i];
    var key := keying.getKey(item);
    var buckets', m' := Taken(buckets, b, i), m - {key};
    assert HasItem(keying, m, item);
    TakenAt(buckets[b], i);
    forall c, j | 0 <= c < |buckets'| && 0 <= j < |buckets'[c]| ensures HasItem(keying, m', buckets'[c][j]) {
      TakenHasItem(keying, buckets, m, b, i, c, j);
    }
    forall k | k in m' ensures m[k] in buckets'[HashValue(keying, k, |buckets|)] {
      assert m[k] in buckets[HashValue(keying, k, |buckets|)] && m[k] != item;
    }
  }

  lemma TakenHasItem<Key, T>(keying: Keying<Key, T>, buckets: seq<seq<T>>, m: map<Key, T>, b: nat, i: nat, c: nat,
      j: nat)
    requires Represents(keying, buckets, m) && b < |buckets| && i < |buckets[b]|
    requires c < |buckets| && j < |Taken(buckets, b, i)[c]|
    ensures HasItem(keying, m - {keying.getKey(buckets[b][i])}, Taken(buckets, b, i)[c][j])
  {
    hide HashValue;
    if c == b {
      TakenAt(buckets[b], i);
      assert HasItem(keying, m, buckets[b][if j < i then j else j + 1]);
    } else {
      assert HasItem(keying, m, buckets[c][j]);
      assert HashValue(keying, keying.getKey(buckets[b][i]), |buckets|) == b;
    }
  }

  /** A key is in the map exactly if its bucket holds an item with that key, and then it is the map's. */
  lemma InBucketIfInMap<Key, T>(keying: Keying<Key, T>, buckets: seq<seq<T>>, m: map<Key, T>, key: Key)
    requires Represents(keying, buckets, m) && |buckets| > 0
    ensures var bucket := buckets[HashValue(keying, key, |buckets|)];
      && (forall i :: 0 <= i < |bucket| && keying.getKey(bucket[i]) == key ==> key in m && m[key] == bucket[i])
      && (key in m ==> exists i :: 0 <= i < |bucket| && bucket[i] == m[key] && keying.getKey(bucket[i]) == key)
  {
    var bucket := buckets[HashValue(keying, key, |buckets|)];
    forall i | 0 <= i < |bucket| && keying.getKey(bucket[i]) == key ensures key in m && m[key] == bucket[i] {
      assert HasItem(keying, m, bucket[i]);
    }
  }

  /** The first occurrence of an item in its bucket is its only one. */
  lemma TakenIsWithout<Key, T>(keying: Keying<Key, T>, buckets: seq<seq<T>>, m: map<Key, T>, b: nat, i: nat)
    requires Represents(keying, buckets, m) && b < |buckets| && i < |buckets[b]|
    ensures Taken(buckets, b, i) == buckets[b := Without(buckets[b], buckets[b][i])]
  {
    var bucket := buckets[b];
    forall j | 0 <= j < i ensures bucket[j] != bucket[i] {
      assert keying.getKey(bucket[j]) != keying.getKey(bucket[i]);
    }
    WithoutAt(bucket, bucket[i], i);
  }

  /** All items, bucket after bucket. */
  function Flatten<T>(buckets: seq<seq<T>>): seq<T> {
    if buckets == [] then [] else buckets[0] + Flatten(buckets[1..])
  }

  ghost predicate InBuckets<T>(buckets: seq<seq<T>>, b: nat, item: T) {
    exists c :: b <= c < |buckets| && item in buckets[c]
  }

  /** From any bucket on, the items are those of these buckets, and no key comes twice. */
  lemma {:induction false} FlattenFrom<Key, T>(keying: Keying<Key, T>, buckets: seq<seq<T>>, b: nat)
    requires Placed(keying, buckets) && b <= |buckets|
    requires forall c :: 0 <= c < |buckets| ==> DistinctKeys(keying, buckets[c])
    ensures DistinctKeys(keying, Flatten(buckets[b..]))
    ensures forall item :: item in Flatten(buckets[b..]) <==> InBuckets(buckets, b, item)
    decreases |buckets| - b
  {
    if b < |buckets| {
      FlattenFrom(keying, buckets, b + 1);
      var here, there := buckets[b], Flatten(buckets[b + 1..]);
      assert buckets[b..][1..] == buckets[b + 1..];
      assert Flatten(buckets[b..]) == here + there;
      forall i, j | 0 <= i < |here| && 0 <= j < |there| ensures keying.getKey(here[i]) != keying.getKey(there[j]) {
        assert there[j] in there && InBuckets(buckets, b + 1, there[j]);
        var c :| b + 1 <= c < |buckets| && there[j] in buckets[c];
      }
    }
  }

  lemma OneKeyLess<Key, T>(m: map<Key, T>, key: Key)
    requires key in m
    ensures |m - {key}| == |m| - 1
  {
    assert (m - {key}).Keys == m.Keys - {key};
  }

  lemma LastKey<Key, T>(keying: Keying<Key, T>, front: seq<T>, last: T, m: map<Key, T>)
    requires DistinctKeys(keying, front + [last])
    requires forall item :: item in front + [last] ==> HasItem(keying, m, item)
    ensures keying.getKey(last) in m && m[keying.getKey(last)] == last && DistinctKeys(keying, front)
    ensures forall item :: item in front ==> HasItem(keying, m - {keying.getKey(last)}, item)
  {
    var items, n := front + [last], |front|;
    assert items[n] == last && HasItem(keying, m, items[n]);
    forall item | item in front ensures HasItem(keying, m - {keying.getKey(last)}, item) {
      var i :| 0 <= i < n && front[i] == item;
      assert items[i] == item && keying.getKey(items[i]) != keying.getKey(items[n]) && HasItem(keying, m, items[i]);
    }
    forall i, j | 0 <= i < j < n ensures keying.getKey(front[i]) != keying.getKey(front[j]) {
      assert front[i] == items[i] && front[j] == items[j];
    }
  }

  lemma {:induction false} CountKeys<Key, T>(keying: Keying<Key, T>, items: seq<T>, m: map<Key, T>)
    requires DistinctKeys(keying, items)
    requires forall item :: item in items ==> HasItem(keying, m, item)
    requires forall key :: key in m ==> m[key] in items && keying.getKey(m[key]) == key
    ensures |items| == |m|
  {
    if items == [] {
      assert m.Keys == {};
    } else {
      var n := |items| - 1;
      var front, last := items[..n], items[n];
      assert items == front + [last];
      LastKey(keying, front, last, m);
      OneKeyLess(m, keying.getKey(last));
      CountKeys(keying, front, m - {keying.getKey(last)});
    }
  }

  /** Going through the buckets meets every pair of the map exactly once. */
  lemma FlattenIsContents<Key, T>(keying: Keying<Key, T>, buckets: seq<seq<T>>, m: map<Key, T>)
    requires Represents(keying, buckets, m)
    ensures DistinctKeys(keying, Flatten(buckets)) && |Flatten(buckets)| == |m|
    ensures forall item :: item in Flatten(buckets) ==> HasItem(keying, m, item)
    ensures forall key :: key in m ==> m[key] in Flatten(buckets) && keying.getKey(m[key]) == key
  {
    var items := Flatten(buckets);
    FlattenFrom(keying, buckets, 0);
    assert buckets[0..] == buckets;
    assert forall key :: key in m ==> keying.getKey(m[key]) == key;
    forall item | item in items ensures HasItem(keying, m, item) {
      assert InBuckets(buckets, 0, item);
      var c :| 0 <= c < |buckets| && item in buckets[c];
      var i :| 0 <= i < |buckets[c]| && buckets[c][i] == item;
      assert HasItem(keying, m, buckets[c][i]);
    }
    forall key | key in m ensures m[key] in items {
      assert InBuckets(buckets, 0, m[key]);
    }
    hide Represents, Flatten;
    CountKeys(keying, items, m);
  }

  /** A list in order, among the objects that are its own. */
  ghost predicate Owns<T>(own: set<object>, l: List<T>)
    reads own
  {
    l in own && (forall e :: e in l.spine ==> e in own) && l.Valid()
  }

  ghost function AllOf(owns: seq<set<object>>): set<object> {
    set b, o | 0 <= b < |owns| && o in owns[b] :: o
  }

  lemma AllOfMore(owns: seq<set<object>>, own: set<object>)
    ensures AllOf(owns + [own]) == AllOf(owns) + own && AllOf([]) == {}
  {
    var owns' := owns + [own];
    assert owns'[|owns|] == own && forall b :: 0 <= b < |owns| ==> owns'[b] == owns[b];
  }

  lemma OwnsAllocated(owns: seq<set<object>>)
    ensures forall o :: o in AllOf(owns) ==> allocated(o)
  {
  }

  /** The buckets are lists in order, and no two share an object. */
  ghost predicate Chained<T>(table: array<List<T>>, owns: seq<set<object>>)
    reads table, AllOf(owns)
  {
    && |owns| == table.Length && table !in AllOf(owns)
    && (forall b :: 0 <= b < |owns| ==> Owns(owns[b], table[b]))
    && (forall b, c :: 0 <= b < |owns| && 0 <= c < |owns| && b != c ==> owns[b] !! owns[c])
  }

  /** What the buckets hold. */
  ghost function Rows<T>(table: array<List<T>>): (rows: seq<seq<T>>)
    reads table, table[..]
    ensures |rows| == table.Length
  {
    seq(table.Length, b requires 0 <= b < table.Length reads table, table[..] => table[b].Contents())
  }

  lemma RowsWithin<T>(table: array<List<T>>, owns: seq<set<object>>)
    requires Chained(table, owns)
    ensures |owns| == table.Length && table !in AllOf(owns)
    ensures forall b :: 0 <= b < |owns| ==> table[b] in AllOf(owns) && owns[b] <= AllOf(owns)
  {
    assert forall b :: 0 <= b < |owns| ==> Owns(owns[b], table[b]);
  }

  lemma RowOwned<T>(table: array<List<T>>, owns: seq<set<object>>, b: nat)
    requires Chained(table, owns) && b < table.Length
    ensures |owns| == table.Length && Owns(owns[b], table[b]) && table[b].Valid() && Rows(table)[b] == table[b].Contents()
    ensures owns[b] <= AllOf(owns)
  {
  }

  /** A bucket is empty exactly if its row is. */
  lemma EmptyBucket<T>(table: array<List<T>>, owns: seq<set<object>>, b: nat)
    requires Chained(table, owns) && b < table.Length
    ensures table[b].IsEmpty() <==> Rows(table)[b] == []
  {
    assert Owns(owns[b], table[b]);
  }

  /** A table of empty lists. */
  method InitBuckets<T(==)>(sz: nat) returns (table: array<List<T>>, ghost owns: seq<set<object>>)
    ensures fresh(table) && fresh(AllOf(owns)) && table.Length == sz && Chained(table, owns)
    ensures forall b :: 0 <= b < sz ==> Rows(table)[b] == []
  {
    hide AllOf;
    AllOfMore([], {});
    var none := new List<T>();
    table := new List<T>[sz](_ => none);
    owns := [];
    for i := 0 to sz
      invariant |owns| == i && fresh(AllOf(owns)) && table !in AllOf(owns)
      invariant forall b :: 0 <= b < i ==> Owns(owns[b], table[b]) && table[b].spine == []
      invariant forall b, c :: 0 <= b < i && 0 <= c < i && b != c ==> owns[b] !! owns[c]
    {
      var bucket := new List<T>();
      table[i] := bucket;
      AllOfMore(owns, {bucket});
      owns := owns + [{bucket}];
    }
  }

  /** Appends to one bucket. */
  method AppendTo<T(==)>(table: array<List<T>>, b: nat, item: T, ghost owns: seq<set<object>>)
      returns (ghost owns': seq<set<object>>)
    requires Chained(table, owns) && b < table.Length && item !in table[b].Contents()
    modifies owns[b]
    ensures Chained(table, owns') && (forall o :: o in AllOf(owns') ==> o in AllOf(owns) || fresh(o))
    ensures Rows(table) == old(Rows(table))[b := old(table[b].Contents()) + [item]]
  {
    hide Items, List.Valid;
    var l := table[b];
    assert forall c :: 0 <= c < |owns| && c != b ==> table[c] in owns[c] && table[c] !in owns[b];
    l.Append(item);
    ghost var own: set<object> := owns[b] + set e | e in l.spine;
    owns' := owns[b := own];
    assert forall o :: o in own ==> o in owns[b] || fresh(o);
    assert forall c :: 0 <= c < |owns| && c != b ==> Owns(owns[c], table[c]) && owns[c] !! own;
  }

  /** Takes the front item out of one bucket. */
  method TakeFrontOf<T(==)>(table: array<List<T>>, b: nat, ghost owns: seq<set<object>>) returns (item: T)
    requires Chained(table, owns) && b < table.Length && !table[b].IsEmpty()
    modifies owns[b]
    ensures Chained(table, owns) && old(table[b].Contents()) == [item] + table[b].Contents()
    ensures Rows(table) == old(Rows(table))[b := old(table[b].Contents())[1..]]
  {
    assert forall c :: 0 <= c < |owns| && c != b ==> table[c] in owns[c] && table[c] !in owns[b];
    item := table[b].RemoveFront();
    assert forall c :: 0 <= c < |owns| && c != b ==> Owns(owns[c], table[c]);
  }

  /** Takes an item out of one bucket, wherever it is there. */
  method RemoveFrom<T(==)>(table: array<List<T>>, b: nat, item: T, ghost owns: seq<set<object>>)
    requires Chained(table, owns) && b < table.Length && item in table[b].Contents()
    modifies owns[b]
    ensures Chained(table, owns) && Rows(table) == old(Rows(table))[b := Without(old(table[b].Contents()), item)]
  {
    hide Items, Without, List.Valid;
    assert forall c :: 0 <= c < |owns| && c != b ==> table[c] in owns[c] && table[c] !in owns[b];
    table[b].Remove(item);
    assert forall c :: 0 <= c < |owns| && c != b ==> Owns(owns[c], table[c]);
  }

  /** An item whose key is not in the map is in no bucket. */
  lemma NotInBuckets<Key, T>(keying: Keying<Key, T>, buckets: seq<seq<T>>, m: map<Key, T>, item: T, b: nat)
    requires Represents(keying, buckets, m) && keying.getKey(item) !in m && b < |buckets|
    ensures item !in buckets[b]
  {
    hide Placed, HashValue;
    forall i | 0 <= i < |buckets[b]| ensures buckets[b][i] != item {
      assert HasItem(keying, m, buckets[b][i]);
    }
  }

  class HashTable<!Key(==), !T(==)> {
    const keying: Keying<Key, T>
    var buckets: array<List<T>>
    var numBuckets: nat
    var numItems: nat
    ghost var contents: map<Key, T>
    ghost var owns: seq<set<object>>

    /** The buckets are in order, and apart from the table itself. */
    ghost predicate InOrder()
      reads this, buckets, AllOf(owns)
    {
      numBuckets == buckets.Length > 0 && this !in AllOf(owns) && Chained(buckets, owns)
    }

    ghost predicate Valid()
      reads this, buckets, AllOf(owns), buckets[..]
    {
      && InOrder()
      && Represents(keying, Rows(buckets), contents)
      && numItems == |contents| <= RESIZE_RATIO * numBuckets
    }

    constructor (keying: Keying<Key, T>)
      ensures Valid() && this.keying == keying && contents == map[] && fresh(buckets) && fresh(AllOf(owns))
    {
      var table, own := InitBuckets<T>(INITIAL_BUCKETS);
      this.keying := keying;
      numItems := 0;
      numBuckets := INITIAL_BUCKETS;
      buckets, owns := table, own;
      contents := map[];
      new;
      EmptyRepresents(keying, Rows(buckets));
    }

    /** Appends an item with a new key to the bucket that the key hashes to. */
    method PutInBucket(item: T, ghost m: map<Key, T>)
      requires InOrder() && Represents(keying, Rows(buckets), m) && keying.getKey(item) !in m
      modifies this`owns, AllOf(owns)
      ensures InOrder() && (forall o :: o in AllOf(owns) ==> o in old(AllOf(owns)) || fresh(o))
      ensures Represents(keying, Rows(buckets), m[keying.getKey(item) := item])
    {
      hide Represents, HashValue;
      var b := HashValue(keying, keying.getKey(item), numBuckets);
      AddedRepresents(keying, Rows(buckets), m, item);
      NotInBuckets(keying, Rows(buckets), m, item, b);
      assert Rows(buckets)[b] == buckets[b].Contents();
      owns := AppendTo(buckets, b, item, owns);
    }

    /** The table grows, but it represents the same map, and every item sits where its key now hashes to. */
    method ReHash()
      requires InOrder() && Represents(keying, Rows(buckets), contents)
      modifies this`buckets, this`numBuckets, this`owns, AllOf(owns)
      ensures fresh(buckets) && fresh(AllOf(owns)) && numBuckets == INCREASE_SIZE_BY * old(numBuckets)
      ensures InOrder() && Represents(keying, Rows(buckets), contents)
    {
      hide Represents, HashValue, Added, Taken, HasItem, Chained, Rows;
      var oldTable, oldSize := buckets, numBuckets;
      ghost var oldOwns := owns;
      numBuckets := numBuckets * INCREASE_SIZE_BY;
      buckets, owns := InitBuckets(numBuckets);
      EmptyRepresents(keying, Rows(buckets));
      ghost var left, moved := contents, map[];
      for i := 0 to oldSize
        invariant oldTable.Length == oldSize && fresh(buckets) && fresh(AllOf(owns)) && numBuckets == INCREASE_SIZE_BY * oldSize
        invariant InOrder() && Beside(oldTable, oldOwns)
        invariant Represents(keying, Rows(oldTable), left) && Represents(keying, Rows(buckets), moved)
        invariant left.Keys !! moved.Keys && left + moved == contents
        invariant forall b :: 0 <= b < i ==> Rows(oldTable)[b] == []
      {
        left, moved := MoveBucket(oldTable, oldOwns, i, left, moved);
      }
      EmptyBucketsEmptyMap(keying, Rows(oldTable), left);
      assert moved == contents;
    }

    /** An old table in order that shares nothing with this one. */
    ghost predicate Beside(oldTable: array<List<T>>, oldOwns: seq<set<object>>)
      reads this, oldTable, AllOf(oldOwns)
    {
      && Chained(oldTable, oldOwns) && oldTable != buckets && oldTable !in AllOf(owns)
      && this !in AllOf(oldOwns) && buckets !in AllOf(oldOwns) && AllOf(owns) !! AllOf(oldOwns)
    }

    /** One pass of ReHash's outer loop: `left` and `moved` are what the old and the new table represent. */
    method MoveBucket(oldTable: array<List<T>>, ghost oldOwns: seq<set<object>>, i: nat, ghost left: map<Key, T>,
        ghost moved: map<Key, T>)
        returns (ghost left': map<Key, T>, ghost moved': map<Key, T>)
      requires InOrder() && Beside(oldTable, oldOwns) && i < oldTable.Length
      requires Represents(keying, Rows(oldTable), left) && Represents(keying, Rows(buckets), moved)
      requires left.Keys !! moved.Keys
      modifies this`owns, AllOf(oldOwns), AllOf(owns)
      ensures InOrder() && Beside(oldTable, oldOwns)
      ensures forall o :: o in AllOf(owns) ==> o in old(AllOf(owns)) || fresh(o)
      ensures Represents(keying, Rows(oldTable), left') && Represents(keying, Rows(buckets), moved')
      ensures left'.Keys !! moved'.Keys && left' + moved' == left + moved
      ensures Rows(oldTable) == old(Rows(oldTable))[i := []]
    {
      hide Represents, Chained, AllOf;
      left', moved' := left, moved;
      EmptyBucket(oldTable, oldOwns, i);
      while !oldTable[i].IsEmpty()
        invariant InOrder() && Beside(oldTable, oldOwns)
        invariant forall o :: o in AllOf(owns) ==> o in old(AllOf(owns)) || fresh(o)
        invariant Represents(keying, Rows(oldTable), left') && Represents(keying, Rows(buckets), moved')
        invariant left'.Keys !! moved'.Keys && left' + moved' == left + moved
        invariant oldTable[i].IsEmpty() <==> Rows(oldTable)[i] == []
        invariant forall b :: 0 <= b < oldTable.Length && b != i ==> Rows(oldTable)[b] == old(Rows(oldTable))[b]
        decreases |Rows(oldTable)[i]|
      {
        left', moved' := MoveItem(oldTable, oldOwns, i, left', moved');
        EmptyBucket(oldTable, oldOwns, i);
      }
    }

    /** Takes the next item to move out of the old table. */
    method TakeItem(oldTable: array<List<T>>, ghost oldOwns: seq<set<object>>, i: nat, ghost left: map<Key, T>)
        returns (item: T)
      requires InOrder() && Beside(oldTable, oldOwns) && i < oldTable.Length && !oldTable[i].IsEmpty()
      requires Represents(keying, Rows(oldTable), left)
      modifies oldOwns[i]
      ensures InOrder() && Beside(oldTable, oldOwns) && Rows(buckets) == old(Rows(buckets))
      ensures HasItem(keying, left, item) && Represents(keying, Rows(oldTable), left - {keying.getKey(item)})
      ensures old(Rows(oldTable))[i] != [] && Rows(oldTable) == old(Rows(oldTable))[i := old(Rows(oldTable))[i][1..]]
    {
      hide Represents, HashValue, Items, List.Valid;
      ghost var before := Rows(oldTable);
      assert forall b :: 0 <= b < buckets.Length ==> Owns(owns[b], buckets[b]) && buckets[b] in AllOf(owns);
      assert forall o :: o in oldOwns[i] ==> o in AllOf(oldOwns);
      item := TakeFrontOf(oldTable, i, oldOwns);
      assert before[i][0] == item && before[i][..0] + before[i][1..] == before[i][1..];
      TakenRepresents(keying, before, left, i, 0);
      assert HasItem(keying, left, item);
    }

    /** One pass of ReHash's inner loop. */
    method MoveItem(oldTable: array<List<T>>, ghost oldOwns: seq<set<object>>, i: nat, ghost left: map<Key, T>,
        ghost moved: map<Key, T>)
        returns (ghost left': map<Key, T>, ghost moved': map<Key, T>)
      requires InOrder() && Beside(oldTable, oldOwns) && i < oldTable.Length && !oldTable[i].IsEmpty()
      requires Represents(keying, Rows(oldTable), left) && Represents(keying, Rows(buckets), moved)
      requires left.Keys !! moved.Keys
      modifies this`owns, AllOf(oldOwns), AllOf(owns)
      ensures InOrder() && Beside(oldTable, oldOwns)
      ensures forall o :: o in AllOf(owns) ==> o in old(AllOf(owns)) || fresh(o)
      ensures Represents(keying, Rows(oldTable), left') && Represents(keying, Rows(buckets), moved')
      ensures left'.Keys !! moved'.Keys && left' + moved' == left + moved
      ensures old(Rows(oldTable))[i] != [] && Rows(oldTable) == old(Rows(oldTable))[i := old(Rows(oldTable))[i][1..]]
    {
      hide Represents, Chained, Rows, AllOf;
      RowsWithin(oldTable, oldOwns);
      OwnsAllocated(oldOwns);
      var item := TakeItem(oldTable, oldOwns, i, left);
      left', moved' := left - {keying.getKey(item)}, moved[keying.getKey(item) := item];
      PutInBucket(item, moved);
    }

    /** The test in Insert: the table grows if it is full. */
    method MakeRoom()
      requires Valid()
      modifies this`buckets, this`numBuckets, this`owns, AllOf(owns)
      ensures Valid() && numItems < RESIZE_RATIO * numBuckets
      ensures numBuckets == old(numBuckets) * if old(numItems) >= 3 * old(numBuckets) then 4 else 1
      ensures buckets == old(buckets) || fresh(buckets)
      ensures forall o :: o in AllOf(owns) ==> o in old(AllOf(owns)) || fresh(o)
    {
      hide Represents, Chained, Rows, HashValue, AllOf;
      if numItems / numBuckets >= RESIZE_RATIO {
        ReHash();
      }
    }

    /** A new item joins the map, whether or not the table has to grow first. */
    method Insert(item: T)
      requires Valid() && keying.getKey(item) !in contents
      modifies this, AllOf(owns)
      ensures Valid() && contents == old(contents)[keying.getKey(item) := item]
      ensures numBuckets == old(numBuckets) * if old(numItems) >= 3 * old(numBuckets) then 4 else 1
      ensures buckets == old(buckets) || fresh(buckets)
      ensures forall o :: o in AllOf(owns) ==> o in old(AllOf(owns)) || fresh(o)
    {
      hide Represents, Chained, Rows, HashValue, AllOf;
      MakeRoom();
      PutInBucket(item, contents);
      numItems := numItems + 1;
      contents := contents[keying.getKey(item) := item];
    }

    /** Looks for an item in one bucket. */
    method FindInBucket(bucket: nat, key: Key) returns (found: Lookup<T>, ghost at: nat)
      requires InOrder() && bucket < buckets.Length
      ensures at <= |Rows(buckets)[bucket]|
      ensures found.Found? ==>
        at < |Rows(buckets)[bucket]| && Rows(buckets)[bucket][at] == found.item && keying.getKey(found.item) == key
      ensures found == NotFound ==>
        forall i :: 0 <= i < |Rows(buckets)[bucket]| ==> keying.getKey(Rows(buckets)[bucket][i]) != key
    {
      hide Chained, List.Valid, ListIterator.Valid, ListIterator.Rest, Owns, Items, Rows, AllOf;
      RowOwned(buckets, owns, bucket);
      var position := new ListIterator(buckets[bucket]);
      ghost var items := Rows(buckets)[bucket];
      at := 0;
      while !position.IsDone()
        invariant position.Valid() && position.list == buckets[bucket]
        invariant at <= |items| && position.Rest() == items[at..]
        invariant forall j :: 0 <= j < at ==> keying.getKey(items[j]) != key
        decreases |items| - at
      {
        if key == keying.getKey(position.Item()) {
          return Found(position.Item()), at;
        }
        position.Next();
        at := at + 1;
      }
      return NotFound, at;
    }

    /** Find agrees with the map. */
    method Find(key: Key) returns (found: Lookup<T>)
      requires Valid()
      ensures found == if key in contents then Found(contents[key]) else NotFound
    {
      hide Chained, Rows;
      var bucket := HashValue(keying, key, numBuckets);
      ghost var at;
      found, at := FindInBucket(bucket, key);
      InBucketIfInMap(keying, Rows(buckets), contents, key);
    }

    /** Remove returns the key's item and takes the pair out of the map. */
    method Remove(key: Key) returns (item: T)
      requires Valid() && key in contents
      modifies this, AllOf(owns)
      ensures Valid() && item == old(contents)[key] && contents == old(contents) - {key}
      ensures buckets == old(buckets) && owns == old(owns)
    {
      hide Represents, HashValue, HasItem, Without, Chained, Rows;
      var bucket := HashValue(keying, key, numBuckets);
      var found, at := FindInBucket(bucket, key);
      ghost var before := Rows(buckets);
      InBucketIfInMap(keying, before, contents, key);
      item := found.item;
      TakenRepresents(keying, before, contents, bucket, at);
      TakenIsWithout(keying, before, contents, bucket, at);
      RowOwned(buckets, owns, bucket);
      RemoveFrom(buckets, bucket, item, owns);
      numItems := numItems - 1;
      contents := contents - {key};
    }
  }

  /** The items from a place in the table on, in the order in which the iterator meets them. */
  function RestFrom<T>(buckets: seq<seq<T>>, b: nat, at: nat): seq<T> {
    if b < |buckets| && at <= |buckets[b]| then buckets[b][at..] + Flatten(buckets[b + 1..]) else []
  }

  /** Leading empty buckets hold nothing to visit. */
  lemma {:induction false} SkipEmpty<T>(buckets: seq<seq<T>>, b: nat, c: nat)
    requires b <= c <= |buckets| && forall k :: b <= k < c ==> buckets[k] == []
    ensures Flatten(buckets[b..]) == RestFrom(buckets, c, 0)
    decreases c - b
  {
    if b < |buckets| {
      assert buckets[b..][1..] == buckets[b + 1..];
    }
    if b < c {
      SkipEmpty(buckets, b + 1, c);
    }
  }

  /** Leaving one item behind, and with it perhaps its bucket and empty ones. */
  lemma RestOfRest<T>(buckets: seq<seq<T>>, b: nat, at: nat)
    requires b < |buckets| && at < |buckets[b]|
    ensures RestFrom(buckets, b, at) != [] && RestFrom(buckets, b, at)[0] == buckets[b][at]
    ensures RestFrom(buckets, b, at)[1..] ==
      if at + 1 < |buckets[b]| then RestFrom(buckets, b, at + 1) else Flatten(buckets[b + 1..])
  {
  }

  class HashIterator<!Key(==), !T(==)> {
    const table: HashTable<Key, T>
    var bucket: nat
    var bucketIter: ListIterator?<T>

    /** The table is in order, and the iterator stands at an item of the current bucket, unless it is done. */
    ghost predicate Valid()
      reads this, bucketIter, table, table.buckets, AllOf(table.owns)
    {
      && table.InOrder() && bucket <= table.numBuckets && this !in AllOf(table.owns) && bucketIter !in AllOf(table.owns)
      && (bucketIter == null <==> bucket == table.numBuckets)
      && (bucketIter != null ==>
            Owns(table.owns[bucket], table.buckets[bucket]) && bucketIter.list == table.buckets[bucket] &&
            bucketIter.Valid() && !bucketIter.IsDone())
    }

    /** The items not visited yet, the current one first. */
    ghost function Rest(): seq<T>
      reads this, bucketIter, table, table.buckets, table.buckets[..]
    {
      if bucketIter == null then [] else RestFrom(Rows(table.buckets), bucket, bucketIter.at)
    }

    constructor (table: HashTable<Key, T>)
      requires table.InOrder()
      ensures Valid() && this.table == table && Rest() == Flatten(Rows(table.buckets))
      ensures bucketIter == null || fresh(bucketIter)
    {
      hide Represents, Flatten, RestFrom, Chained;
      this.table := table;
      bucket := 0;
      bucketIter := null;
      new;
      GoToBucket(0);
      assert Rows(table.buckets)[0..] == Rows(table.buckets);
    }

    /** Goes to the first item of the next full bucket, if there is one. */
    method GoToBucket(start: nat)
      requires table.InOrder() && start <= table.numBuckets && this !in AllOf(table.owns)
      modifies this
      ensures Valid() && Rest() == Flatten(Rows(table.buckets)[start..]) && (bucketIter == null || fresh(bucketIter))
    {
      hide Represents, Flatten, Chained, List.Valid, ListIterator.Valid, Rows, Items;
      var next := FindNextFullBucket(start);
      SkipEmpty(Rows(table.buckets), start, next);
      var position: ListIterator?<T> := null;
      if next < table.numBuckets {
        RowOwned(table.buckets, table.owns, next);
        position := new ListIterator(table.buckets[next]);
      }
      bucket, bucketIter := next, position;
    }

    method FindNextFullBucket(start: nat) returns (next: nat)
      requires table.InOrder() && start <= table.numBuckets
      ensures start <= next <= table.numBuckets
      ensures forall k :: start <= k < next ==> Rows(table.buckets)[k] == []
      ensures next < table.numBuckets ==> Rows(table.buckets)[next] != []
    {
      hide Chained, Rows;
      next := start;
      while next < table.numBuckets
        invariant start <= next <= table.numBuckets
        invariant forall k :: start <= k < next ==> Rows(table.buckets)[k] == []
      {
        EmptyBucket(table.buckets, table.owns, next);
        if !table.buckets[next].IsEmpty() {
          break;
        }
        next := next + 1;
      }
    }

    predicate IsDone()
      requires Valid()
      reads this, bucketIter, table, table.buckets, AllOf(table.owns), table.buckets[..]
      ensures IsDone() <==> Rest() == []
    {
      bucket == table.numBuckets
    }

    function Item(): (item: T)
      requires Valid() && !IsDone()
      reads this, bucketIter, table, table.buckets, AllOf(table.owns), table.buckets[..]
      ensures item == Rest()[0]
    {
      assert forall o :: o in table.owns[bucket] ==> o in AllOf(table.owns);
      bucketIter.Item()
    }

    /** Next drops the current item from what is left and nothing else. */
    method Next()
      requires Valid() && !IsDone()
      modifies this, bucketIter
      ensures Valid() && Rest() == old(Rest())[1..]
      ensures bucketIter == null || bucketIter == old(bucketIter) || fresh(bucketIter)
    {
      hide Flatten, RestFrom, Chained;
      RestOfRest(Rows(table.buckets), bucket, bucketIter.at);
      bucketIter.Next();
      if bucketIter.IsDone() {
        GoToBucket(bucket + 1);
      }
    }
  }

  /** The loop of an iterator's user visits each item of the table exactly once. */
  method VisitAll<Key(==), T(==)>(table: HashTable<Key, T>) returns (visited: seq<T>)
    requires table.Valid()
    ensures |visited| == |table.contents| && DistinctKeys(table.keying, visited)
    ensures forall item :: item in visited ==> HasItem(table.keying, table.contents, item)
    ensures forall key :: key in table.contents ==> table.contents[key] in visited
  {
    visited := RunIterator(table);
    FlattenIsContents(table.keying, Rows(table.buckets), table.contents);
  }

  method RunIterator<Key(==), T(==)>(table: HashTable<Key, T>) returns (visited: seq<T>)
    requires table.InOrder()
    ensures visited == Flatten(Rows(table.buckets))
  {
    hide Represents, Flatten, RestFrom, Chained, Rows, Owns, List.Valid, ListIterator.Valid, AllOf,
         HashTable.InOrder, HashIterator.Rest;
    var position := new HashIterator(table);
    visited := [];
    while !position.IsDone()
      invariant position.Valid() && position.table == table && (position.bucketIter == null || fresh(position.bucketIter))
      invariant visited + position.Rest() == Flatten(Rows(table.buckets))
      decreases |position.Rest()|
    {
      visited := visited + [position.Item()];
      position.Next();
    }
  }
}
