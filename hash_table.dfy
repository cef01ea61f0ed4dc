/**
 * A hash table of string keys and values with ten buckets and separate
 * chaining. The hash is the sum of the key's character codes modulo ten; a
 * new key goes at the end of its bucket's chain, an existing key has its
 * value replaced. The table counts its elements and the insertions that
 * landed in an occupied bucket.
 */
module HashTable {
  import opened Common

  const TableSize: int := 10

  datatype Entry = Entry(key: string, value: string)

  /** The buckets' contents and the two counters. */
  datatype Table = Table(buckets: seq<seq<Entry>>, totalElements: int, collisions: int)

  // ---------------------------------------------------------------------
  // Hashing

  /** The sum of the character codes of the first |s| characters. */
  function CodeSum(s: string): nat {
    if s == [] then 0 else CodeSum(s[..|s| - 1]) + s[|s| - 1] as int
  }

  function Hash(key: string): (h: nat)
    ensures h < TableSize
  {
    CodeSum(key) % TableSize
  }

  /** The summing loop. */
  method HashFunction(key: string) returns (h: int)
    ensures h == Hash(key)
  {
    var hash := 0;
    var i := 0;
    while i < |key|
      invariant 0 <= i <= |key|
      invariant hash == CodeSum(key[..i])
    {
      assert key[..i + 1][..i] == key[..i];
      hash := hash + key[i] as int;
      i := i + 1;
    }
    assert key[..|key|] == key;
    h := hash % TableSize;
  }

  // ---------------------------------------------------------------------
  // Chains

  /** Where the key first occurs in the chain, or |c|. */
  function IndexOfKey(c: seq<Entry>, key: string): (k: nat)
    ensures k <= |c|
    ensures forall j :: 0 <= j < k ==> c[j].key != key
    ensures k < |c| ==> c[k].key == key
  {
    if c == [] then 0
    else if c[0].key == key then 0
    else 1 + IndexOfKey(c[1..], key)
  }

  function LookupChain(c: seq<Entry>, key: string): Option<string> {
    var k := IndexOfKey(c, key);
    if k < |c| then Some(c[k].value) else None
  }

  /** An existing key gets the new value; a new key is appended. */
  function ChainInserted(c: seq<Entry>, key: string, value: string): seq<Entry> {
    var k := IndexOfKey(c, key);
    if k < |c| then c[k := Entry(key, value)] else c + [Entry(key, value)]
  }

  /** The key's entry is unlinked; an absent key leaves the chain alone. */
  function ChainDeleted(c: seq<Entry>, key: string): seq<Entry> {
    var k := IndexOfKey(c, key);
    if k < |c| then RemoveAt(c, k) else c
  }

  predicate UniqueKeys(c: seq<Entry>) {
    forall i, j :: 0 <= i < j < |c| ==> c[i].key != c[j].key
  }

  // ---------------------------------------------------------------------
  // The table as a whole

  function Lookup(bs: seq<seq<Entry>>, key: string): Option<string>
    requires |bs| == TableSize
  {
    LookupChain(bs[Hash(key)], key)
  }

  /** The key occurs somewhere in the table. */
  ghost predicate Present(bs: seq<seq<Entry>>, key: string) {
    exists b, i :: 0 <= b < |bs| && 0 <= i < |bs[b]| && bs[b][i].key == key
  }

  function Total(bs: seq<seq<Entry>>): nat {
    if bs == [] then 0 else Total(bs[..|bs| - 1]) + |bs[|bs| - 1]|
  }

  /** Entries beyond the first of each chain: the least number of collisions that built the chains. */
  function Overflow(bs: seq<seq<Entry>>): nat {
    if bs == [] then 0 else Overflow(bs[..|bs| - 1]) + (if bs[|bs| - 1] == [] then 0 else |bs[|bs| - 1]| - 1)
  }

  /**
   * The table invariant: ten buckets, every key in the bucket its hash
   * names, no key twice in a chain, the element count equal to the chains'
   * total length, and at least as many collisions counted as entries that
   * share a bucket with an earlier one.
   */
  ghost predicate Inv(t: Table) {
    && |t.buckets| == TableSize
    && (forall b, i :: 0 <= b < TableSize && 0 <= i < |t.buckets[b]| ==> Hash(t.buckets[b][i].key) == b)
    && (forall b :: 0 <= b < TableSize ==> UniqueKeys(t.buckets[b]))
    && t.totalElements == Total(t.buckets)
    && t.collisions >= Overflow(t.buckets)
  }

  function Inserted(t: Table, key: string, value: string): Table
    requires |t.buckets| == TableSize
  {
    var h := Hash(key);
    var c := t.buckets[h];
    var isNew := IndexOfKey(c, key) == |c|;
    Table(t.buckets[h := ChainInserted(c, key, value)],
          t.totalElements + (if isNew then 1 else 0),
          t.collisions + (if isNew && c != [] then 1 else 0))
  }

  function Deleted(t: Table, key: string): Table
    requires |t.buckets| == TableSize
  {
    var h := Hash(key);
    var c := t.buckets[h];
    if IndexOfKey(c, key) == |c| then t
    else t.(buckets := t.buckets[h := ChainDeleted(c, key)], totalElements := t.totalElements - 1)
  }

  // ---------------------------------------------------------------------
  // Chain properties

  /** The first-occurrence index is determined by its defining facts. */
  lemma IndexOfKeyIs(c: seq<Entry>, key: string, k: nat)
    requires k <= |c| && (forall j :: 0 <= j < k ==> c[j].key != key) && (k < |c| ==> c[k].key == key)
    ensures IndexOfKey(c, key) == k
  {
  }

  /** Inserting makes the key map to the value and leaves other keys alone; keys stay unique. */
  lemma ChainInsertedLookup(c: seq<Entry>, key: string, value: string, other: string)
    requires UniqueKeys(c)
    ensures UniqueKeys(ChainInserted(c, key, value))
    ensures LookupChain(ChainInserted(c, key, value), other) == if other == key then Some(value) else LookupChain(c, other)
  {
    var c' := ChainInserted(c, key, value);
    var k := IndexOfKey(c, key);
    var o := IndexOfKey(c, other);
    if k < |c| {
      IndexOfKeyIs(c', other, o);
    } else if other == key {
      IndexOfKeyIs(c', other, |c|);
    } else {
      IndexOfKeyIs(c', other, if o < |c| then o else |c'|);
    }
  }

  /** Deleting makes the key absent and leaves other keys alone; keys stay unique. */
  lemma ChainDeletedLookup(c: seq<Entry>, key: string, other: string)
    requires UniqueKeys(c)
    ensures UniqueKeys(ChainDeleted(c, key))
    ensures LookupChain(ChainDeleted(c, key), other) == if other == key then None else LookupChain(c, other)
  {
    var c' := ChainDeleted(c, key);
    var k := IndexOfKey(c, key);
    if k < |c| {
      var o := IndexOfKey(c, other);
      if other == key {
        IndexOfKeyIs(c', other, |c'|);
      } else if o < k {
        IndexOfKeyIs(c', other, o);
      } else {
        IndexOfKeyIs(c', other, o - 1);
      }
    }
  }

  /** Looking up in a chain with one more entry at the end. */
  lemma LookupChainAppend(c: seq<Entry>, e: Entry, key: string)
    ensures LookupChain(c + [e], key) ==
      if LookupChain(c, key).Some? then LookupChain(c, key)
      else if e.key == key then Some(e.value) else None
  {
    var k := IndexOfKey(c, key);
    if k < |c| || e.key == key {
      IndexOfKeyIs(c + [e], key, k);
    } else {
      IndexOfKeyIs(c + [e], key, |c| + 1);
    }
  }

  lemma {:induction false} TotalUpdate(bs: seq<seq<Entry>>, b: nat, c: seq<Entry>)
    requires b < |bs|
    ensures Total(bs[b := c]) == Total(bs) - |bs[b]| + |c|
    ensures Overflow(bs[b := c]) ==
      Overflow(bs) - (if bs[b] == [] then 0 else |bs[b]| - 1) + (if c == [] then 0 else |c| - 1)
    decreases |bs|
  {
    var bs' := bs[b := c];
    assert bs'[..|bs'| - 1] == if b == |bs| - 1 then bs[..|bs| - 1] else bs[..|bs| - 1][b := c];
    if b < |bs| - 1 {
      TotalUpdate(bs[..|bs| - 1], b, c);
    }
  }

  // ---------------------------------------------------------------------
  // Table properties

  /**
   * Insertion keeps the invariant. An existing key keeps the element count;
   * a new key raises it by one, and raises the collision count exactly when
   * its bucket was occupied.
   */
  lemma InsertKeepsInv(t: Table, key: string, value: string)
    requires Inv(t)
    ensures var t' := Inserted(t, key, value);
      && Inv(t')
      && (Lookup(t.buckets, key).Some? ==> t'.totalElements == t.totalElements && t'.collisions == t.collisions)
      && (Lookup(t.buckets, key).None? ==>
            && t'.totalElements == t.totalElements + 1
            && t'.collisions == t.collisions + (if t.buckets[Hash(key)] == [] then 0 else 1))
  {
    var h := Hash(key);
    var c := t.buckets[h];
    var c' := ChainInserted(c, key, value);
    ChainInsertedLookup(c, key, value, key);
    TotalUpdate(t.buckets, h, c');
    var t' := Inserted(t, key, value);
    forall b, i | 0 <= b < TableSize && 0 <= i < |t'.buckets[b]|
      ensures Hash(t'.buckets[b][i].key) == b
    {
      if b == h && IndexOfKey(c, key) == |c| && i == |c| {
      } else if b == h {
        assert t'.buckets[b][i].key == c[i].key;
      }
    }
  }

  /** After an insertion the key finds the new value; every other key finds what it found before. */
  lemma InsertThenLookup(t: Table, key: string, value: string, other: string)
    requires Inv(t)
    ensures Lookup(Inserted(t, key, value).buckets, other) == if other == key then Some(value) else Lookup(t.buckets, other)
  {
    ChainInsertedLookup(t.buckets[Hash(key)], key, value, other);
  }

  /**
   * Deletion of an absent key changes nothing; of a present key, it lowers
   * the element count by one and leaves the collision count. The invariant
   * holds afterwards.
   */
  lemma DeleteKeepsInv(t: Table, key: string)
    requires Inv(t)
    ensures var t' := Deleted(t, key);
      && Inv(t')
      && (Lookup(t.buckets, key).None? <==> t' == t)
      && (Lookup(t.buckets, key).Some? ==> t'.totalElements == t.totalElements - 1)
      && t'.collisions == t.collisions
  {
    var h := Hash(key);
    var c := t.buckets[h];
    if IndexOfKey(c, key) < |c| {
      var c' := ChainDeleted(c, key);
      ChainDeletedLookup(c, key, key);
      TotalUpdate(t.buckets, h, c');
      var t' := Deleted(t, key);
      assert t'.buckets[h] != t.buckets[h] by {
        assert |c'| == |c| - 1;
      }
      forall b, i | 0 <= b < TableSize && 0 <= i < |t'.buckets[b]|
        ensures Hash(t'.buckets[b][i].key) == b
      {
        if b == h {
          assert t'.buckets[b][i] in c;
        }
      }
    }
  }

  /** After a deletion the key is gone; every other key finds what it found before. */
  lemma DeleteThenLookup(t: Table, key: string, other: string)
    requires Inv(t)
    ensures Lookup(Deleted(t, key).buckets, other) == if other == key then None else Lookup(t.buckets, other)
  {
    ChainDeletedLookup(t.buckets[Hash(key)], key, other);
  }

  /** A lookup finds nothing exactly when the key occurs nowhere in the table. */
  lemma LookupNoneIffAbsent(t: Table, key: string)
    requires Inv(t)
    ensures Lookup(t.buckets, key).None? <==> !Present(t.buckets, key)
  {
    var h := Hash(key);
    if Present(t.buckets, key) {
      var b, i :| 0 <= b < |t.buckets| && 0 <= i < |t.buckets[b]| && t.buckets[b][i].key == key;
      assert b == h;
    }
  }

  // ---------------------------------------------------------------------
  // Searching a chain

  /** The chain walk: the key's position, or None. */
  method FindInChain(c: seq<Entry>, key: string) returns (k: Option<nat>)
    ensures k.None? <==> IndexOfKey(c, key) == |c|
    ensures k.Some? ==> k.value == IndexOfKey(c, key)
  {
    var i := 0;
    while i < |c|
      invariant 0 <= i <= |c|
      invariant forall j :: 0 <= j < i ==> c[j].key != key
    {
      if c[i].key == key {
        IndexOfKeyIs(c, key, i);
        return Some(i);
      }
      i := i + 1;
    }
    IndexOfKeyIs(c, key, |c|);
    return None;
  }

  // ---------------------------------------------------------------------
  // The table, updated in place

  class HashTable {
    var table: array<seq<Entry>>
    var totalElements: int
    var collisions: int

    ghost function State(): Table
      reads this, table
    {
      Table(table[..], totalElements, collisions)
    }

    ghost predicate Valid()
      reads this, table
    {
      Inv(State())
    }

    constructor ()
      ensures Valid() && fresh(table)
      ensures forall k :: Lookup(table[..], k).None?
      ensures totalElements == 0 && collisions == 0
    {
      var a := new seq<Entry>[TableSize](_ => []);
      ZeroSums(a[..], TableSize);
      assert a[..][..TableSize] == a[..];
      table := a;
      totalElements := 0;
      collisions := 0;
    }

    method Insert(key: string, value: string)
      requires Valid()
      modifies this, table
      ensures Valid() && table == old(table)
      ensures State() == Inserted(old(State()), key, value)
    {
      InsertKeepsInv(State(), key, value);
      var index := HashFunction(key);
      var chain := table[index];
      var found := FindInChain(chain, key);
      if found.Some? {
        table[index] := chain[found.value := Entry(key, value)];
        return;
      }
      if chain != [] {
        collisions := collisions + 1;
      }
      table[index] := chain + [Entry(key, value)];
      totalElements := totalElements + 1;
    }

    method Search(key: string) returns (r: Option<string>)
      requires Valid()
      ensures r == Lookup(table[..], key)
    {
      var index := HashFunction(key);
      var found := FindInChain(table[index], key);
      if found.Some? {
        return Some(table[index][found.value].value);
      }
      return None;
    }

    /** Returns 1 when the key was found and removed, 0 otherwise. */
    method DeleteKey(key: string) returns (deleted: int)
      requires Valid()
      modifies this, table
      ensures Valid() && table == old(table)
      ensures State() == Deleted(old(State()), key)
      ensures deleted == 1 <==> Lookup(old(table[..]), key).Some?
      ensures deleted == 0 || deleted == 1
    {
      DeleteKeepsInv(State(), key);
      var index := HashFunction(key);
      var chain := table[index];
      var found := FindInChain(chain, key);
      if found.None? {
        return 0;
      }
      table[index] := RemoveAt(chain, found.value);
      totalElements := totalElements - 1;
      deleted := 1;
    }

    /** A new table holding every entry of this one, inserted bucket by bucket and chain order. */
    method Rehash() returns (t: HashTable)
      requires Valid()
      ensures fresh(t) && fresh(t.table) && t.Valid()
      ensures forall k :: Lookup(t.table[..], k) == Lookup(table[..], k)
    {
      t := new HashTable();
      var i := 0;
      while i < TableSize
        invariant 0 <= i <= TableSize
        invariant fresh(t) && fresh(t.table) && t.Valid()
        invariant forall k :: Lookup(t.table[..], k) == if Hash(k) < i then Lookup(table[..], k) else None
      {
        CopyBucket(t, i);
        i := i + 1;
      }
    }

    /** Inserts the entries of bucket i, in chain order, into table t, which so far holds the buckets before i. */
    method CopyBucket(t: HashTable, i: nat)
      requires Valid() && t.Valid() && i < TableSize && t.table != table
      requires forall k :: Lookup(t.table[..], k) == if Hash(k) < i then Lookup(table[..], k) else None
      modifies t, t.table
      ensures t.Valid() && t.table == old(t.table)
      ensures forall k :: Lookup(t.table[..], k) == if Hash(k) <= i then Lookup(table[..], k) else None
    {
      var chain := table[i];
      var j := 0;
      while j < |chain|
        invariant 0 <= j <= |chain|
        invariant t.Valid() && t.table == old(t.table)
        invariant forall k :: Lookup(t.table[..], k) ==
                    (if Hash(k) < i then Lookup(table[..], k)
                     else if Hash(k) == i then LookupChain(chain[..j], k)
                     else None)
      {
        var e := chain[j];
        RehashStep(t.State(), chain, i, j);
        t.Insert(e.key, e.value);
        j := j + 1;
      }
      assert chain[..|chain|] == chain;
      assert forall k :: Hash(k) == i ==> Lookup(table[..], k) == LookupChain(chain, k);
    }
  }

  /** Inserting the next entry of bucket i's chain extends what the new table knows by that entry. */
  lemma RehashStep(before: Table, chain: seq<Entry>, i: nat, j: nat)
    requires Inv(before) && UniqueKeys(chain) && j < |chain|
    requires forall x :: 0 <= x < |chain| ==> Hash(chain[x].key) == i
    requires forall k :: Hash(k) == i ==> Lookup(before.buckets, k) == LookupChain(chain[..j], k)
    ensures forall k :: Lookup(Inserted(before, chain[j].key, chain[j].value).buckets, k) ==
                          (if Hash(k) == i then LookupChain(chain[..j + 1], k) else Lookup(before.buckets, k))
  {
    var e := chain[j];
    assert chain[..j + 1] == chain[..j] + [e];
    forall k
      ensures Lookup(Inserted(before, e.key, e.value).buckets, k) ==
                (if Hash(k) == i then LookupChain(chain[..j + 1], k) else Lookup(before.buckets, k))
    {
      InsertThenLookup(before, e.key, e.value, k);
      LookupChainAppend(chain[..j], e, k);
      if k == e.key {
        IndexOfKeyIs(chain[..j], k, j);
      }
    }
  }

  lemma {:induction false} ZeroSums(bs: seq<seq<Entry>>, n: nat)
    requires n <= |bs| && forall b :: 0 <= b < |bs| ==> bs[b] == []
    ensures Total(bs[..n]) == 0 && Overflow(bs[..n]) == 0
  {
    if n > 0 {
      ZeroSums(bs, n - 1);
      assert bs[..n][..n - 1] == bs[..n - 1];
    }
  }
}
