/** Separate-chaining hash table: a fixed vector of buckets, each an ordered list of entries.
    An entry lives in bucket KeyHash(key) % number-of-buckets; a key appears at most once. */
module HashTables {

  datatype Entry<K, V> = Entry(key: K, value: V)

  /** Some entry of `bucket` carries `key`. */
  ghost predicate HasKey<K, V>(bucket: seq<Entry<K, V>>, key: K)
  {
    exists i :: 0 <= i < |bucket| && bucket[i].key == key
  }

  class HashTable<K(==, !new), V> {
    /** The key hash function handed to the constructor (KeyHash). */
    const keyHash: K -> nat
    /** The bucket vector; its size is fixed once the constructor has run. */
    const buckets: array<seq<Entry<K, V>>>
    /** The abstract content: the key/value pairs stored. */
    ghost var Contents: map<K, V>

    /** The bucket a key belongs to. */
    function Home(key: K): nat
      requires buckets.Length > 0
    {
      keyHash(key) % buckets.Length
    }

    ghost predicate Valid()
      reads this, buckets
    {
      && buckets.Length > 0
      // every entry sits in its home bucket
      && (forall b, i :: 0 <= b < buckets.Length && 0 <= i < |buckets[b]| ==> Home(buckets[b][i].key) == b)
      // no two entries of a bucket share a key
      && (forall b, i, j :: 0 <= b < buckets.Length && 0 <= i < j < |buckets[b]| ==>
            buckets[b][i].key != buckets[b][j].key)
      // the buckets hold exactly Contents
      && (forall k :: k in Contents <==> HasKey(buckets[Home(k)], k))
      && (forall b, i :: 0 <= b < buckets.Length && 0 <= i < |buckets[b]| ==>
            buckets[b][i].key in Contents && Contents[buckets[b][i].key] == buckets[b][i].value)
    }

    /** Builds `nrBuckets` empty buckets, unless the caller passes in an error, in which case
        the bucket vector stays empty. The table is usable when there is at least one bucket. */
    constructor (nrBuckets: nat, err: int, keyHash: K -> nat)
      ensures this.keyHash == keyHash
      ensures buckets.Length == (if err != 0 then 0 else nrBuckets)
      ensures forall b :: 0 <= b < buckets.Length ==> buckets[b] == []
      ensures Contents == map[]
      ensures err == 0 && nrBuckets > 0 ==> Valid()
      ensures fresh(buckets)
    {
      this.keyHash := keyHash;
      buckets := new seq<Entry<K, V>>[if err != 0 then 0 else nrBuckets](_ => []);
      Contents := map[];
    }

    /** Adds key/value at the tail of the key's home bucket, unless the key is already present. */
    method Insert(key: K, value: V) returns (inserted: bool)
      requires Valid()
      modifies this, buckets
      ensures Valid()
      ensures inserted <==> key !in old(Contents)
      ensures Contents == if inserted then old(Contents)[key := value] else old(Contents)
      ensures buckets[Home(key)] ==
                if inserted then old(buckets[Home(key)]) + [Entry(key, value)] else old(buckets[Home(key)])
      ensures forall b :: 0 <= b < buckets.Length && b != Home(key) ==> buckets[b] == old(buckets[b])
    {
      var h := keyHash(key) % buckets.Length;
      var list := buckets[h];
      var i := 0;
      while i < |list|
        invariant 0 <= i <= |list|
        invariant forall j :: 0 <= j < i ==> list[j].key != key
      {
        if list[i].key == key {
          return false;
        }
        i := i + 1;
      }
      buckets[h] := list + [Entry(key, value)];
      Contents := Contents[key := value];
      InsertKeepsIndex(old(buckets[..]), buckets[..], old(Contents), key, value);
      return true;
    }

    /** Erases the entry with the given key from its home bucket, if there is one. */
    method Remove(key: K) returns (removed: bool)
      requires Valid()
      modifies this, buckets
      ensures Valid()
      ensures removed <==> key in old(Contents)
      ensures Contents == old(Contents) - {key}
      ensures removed ==> exists i :: 0 <= i < |old(buckets[Home(key)])| && old(buckets[Home(key)])[i].key == key &&
                                      buckets[Home(key)] == old(buckets[Home(key)])[..i] + old(buckets[Home(key)])[i + 1..]
      ensures !removed ==> buckets[Home(key)] == old(buckets[Home(key)])
      ensures forall b :: 0 <= b < buckets.Length && b != Home(key) ==> buckets[b] == old(buckets[b])
    {
      var h := keyHash(key) % buckets.Length;
      var list := buckets[h];
      var i := 0;
      while i < |list|
        invariant 0 <= i <= |list|
        invariant forall j :: 0 <= j < i ==> list[j].key != key
      {
        if list[i].key == key {
          buckets[h] := list[..i] + list[i + 1..];
          Contents := Contents - {key};
          RemoveKeepsIndex(old(buckets[..]), buckets[..], old(Contents), key, i);
          return true;
        }
        i := i + 1;
      }
      return false;
    }

    /** Is there an entry with this key? Only the home bucket is searched. */
    method Exists(key: K) returns (found: bool)
      requires Valid()
      ensures found <==> HasKey(buckets[Home(key)], key)
      ensures found <==> key in Contents
    {
      var list := buckets[keyHash(key) % buckets.Length];
      var i := 0;
      while i < |list|
        invariant 0 <= i <= |list|
        invariant forall j :: 0 <= j < i ==> list[j].key != key
      {
        if list[i].key == key {
          return true;
        }
        i := i + 1;
      }
      return false;
    }

    /** The value stored with `key`; the key must be present (the source asserts it). */
    method Get(key: K) returns (value: V)
      requires Valid()
      requires key in Contents
      ensures value == Contents[key]
      ensures exists i :: 0 <= i < |buckets[Home(key)]| && buckets[Home(key)][i] == Entry(key, value)
    {
      var list := buckets[keyHash(key) % buckets.Length];
      ghost var k :| 0 <= k < |list| && list[k].key == key;
      var i := 0;
      while list[i].key != key
        invariant i <= k
        decreases k - i
      {
        i := i + 1;
      }
      value := list[i].value;
    }

    /** After appending a fresh key to its home bucket, the table again satisfies Valid(). */
    lemma InsertKeepsIndex(before: seq<seq<Entry<K, V>>>, after: seq<seq<Entry<K, V>>>,
                           oldContents: map<K, V>, key: K, value: V)
      requires |before| == |after| == buckets.Length > 0
      requires after == buckets[..] && Contents == oldContents[key := value]
      requires forall b, i :: 0 <= b < |before| && 0 <= i < |before[b]| ==> Home(before[b][i].key) == b
      requires forall b, i, j :: 0 <= b < |before| && 0 <= i < j < |before[b]| ==> before[b][i].key != before[b][j].key
      requires forall k :: k in oldContents <==> HasKey(before[Home(k)], k)
      requires forall b, i :: 0 <= b < |before| && 0 <= i < |before[b]| ==>
                 before[b][i].key in oldContents && oldContents[before[b][i].key] == before[b][i].value
      requires !HasKey(before[Home(key)], key)
      requires after[Home(key)] == before[Home(key)] + [Entry(key, value)]
      requires forall b :: 0 <= b < |before| && b != Home(key) ==> after[b] == before[b]
      ensures Valid()
    {
      InsertKeepsLayout(before, after, key, value);
      InsertKeepsKeys(before, after, oldContents, key, value);
      InsertKeepsValues(before, after, oldContents, key, value);
    }

    /** Appending a fresh key to its home bucket keeps every entry home, with distinct keys. */
    lemma InsertKeepsLayout(before: seq<seq<Entry<K, V>>>, after: seq<seq<Entry<K, V>>>, key: K, value: V)
      requires |before| == |after| == buckets.Length > 0
      requires forall b, i :: 0 <= b < |before| && 0 <= i < |before[b]| ==> Home(before[b][i].key) == b
      requires forall b, i, j :: 0 <= b < |before| && 0 <= i < j < |before[b]| ==> before[b][i].key != before[b][j].key
      requires !HasKey(before[Home(key)], key)
      requires after[Home(key)] == before[Home(key)] + [Entry(key, value)]
      requires forall b :: 0 <= b < |before| && b != Home(key) ==> after[b] == before[b]
      ensures forall b, i :: 0 <= b < |after| && 0 <= i < |after[b]| ==> Home(after[b][i].key) == b
      ensures forall b, i, j :: 0 <= b < |after| && 0 <= i < j < |after[b]| ==> after[b][i].key != after[b][j].key
    {
      var h := Home(key);
      assert forall i :: 0 <= i < |before[h]| ==> after[h][i] == before[h][i];
    }

    /** Appending a fresh key to its home bucket makes exactly that key findable in addition. */
    lemma InsertKeepsKeys(before: seq<seq<Entry<K, V>>>, after: seq<seq<Entry<K, V>>>,
                          oldContents: map<K, V>, key: K, value: V)
      requires |before| == |after| == buckets.Length > 0
      requires forall k :: k in oldContents <==> HasKey(before[Home(k)], k)
      requires after[Home(key)] == before[Home(key)] + [Entry(key, value)]
      requires forall b :: 0 <= b < |before| && b != Home(key) ==> after[b] == before[b]
      ensures forall k :: k in oldContents[key := value] <==> HasKey(after[Home(k)], k)
    {
      var h := Home(key);
      forall k
        ensures k in oldContents[key := value] <==> HasKey(after[Home(k)], k)
      {
        if k == key {
          assert after[h][|before[h]|].key == key;
        } else if Home(k) == h {
          if HasKey(before[h], k) {
            var i :| 0 <= i < |before[h]| && before[h][i].key == k;
            assert after[h][i].key == k;
          }
          if HasKey(after[h], k) {
            var i :| 0 <= i < |after[h]| && after[h][i].key == k;
            assert before[h][i].key == k;
          }
        } else {
          assert after[Home(k)] == before[Home(k)];
        }
      }
    }

    /** Appending a fresh key to its home bucket leaves entries that agree with the new contents. */
    lemma InsertKeepsValues(before: seq<seq<Entry<K, V>>>, after: seq<seq<Entry<K, V>>>,
                            oldContents: map<K, V>, key: K, value: V)
      requires |before| == |after| == buckets.Length > 0
      requires forall b, i :: 0 <= b < |before| && 0 <= i < |before[b]| ==>
                 before[b][i].key in oldContents && oldContents[before[b][i].key] == before[b][i].value
      requires forall b, i :: 0 <= b < |before| && 0 <= i < |before[b]| ==> Home(before[b][i].key) == b
      requires !HasKey(before[Home(key)], key)
      requires after[Home(key)] == before[Home(key)] + [Entry(key, value)]
      requires forall b :: 0 <= b < |before| && b != Home(key) ==> after[b] == before[b]
      ensures forall b, i :: 0 <= b < |after| && 0 <= i < |after[b]| ==>
                after[b][i].key in oldContents[key := value] && oldContents[key := value][after[b][i].key] == after[b][i].value
    {
      var h := Home(key);
      assert forall i :: 0 <= i < |before[h]| ==> after[h][i] == before[h][i];
    }

    /** After erasing the entry at index `at` of the key's home bucket, the table again satisfies Valid(). */
    lemma RemoveKeepsIndex(before: seq<seq<Entry<K, V>>>, after: seq<seq<Entry<K, V>>>,
                           oldContents: map<K, V>, key: K, at: nat)
      requires |before| == |after| == buckets.Length > 0
      requires after == buckets[..] && Contents == oldContents - {key}
      requires forall b, i :: 0 <= b < |before| && 0 <= i < |before[b]| ==> Home(before[b][i].key) == b
      requires forall b, i, j :: 0 <= b < |before| && 0 <= i < j < |before[b]| ==> before[b][i].key != before[b][j].key
      requires forall k :: k in oldContents <==> HasKey(before[Home(k)], k)
      requires forall b, i :: 0 <= b < |before| && 0 <= i < |before[b]| ==>
                 before[b][i].key in oldContents && oldContents[before[b][i].key] == before[b][i].value
      requires at < |before[Home(key)]| && before[Home(key)][at].key == key
      requires after[Home(key)] == before[Home(key)][..at] + before[Home(key)][at + 1..]
      requires forall b :: 0 <= b < |before| && b != Home(key) ==> after[b] == before[b]
      ensures Valid()
    {
      RemoveKeepsLayout(before, after, key, at);
      RemoveKeepsKeys(before, after, oldContents, key, at);
      RemoveKeepsValues(before, after, oldContents, key, at);
    }

    /** Erasing one entry leaves every other entry in its home bucket, with distinct keys. */
    lemma RemoveKeepsLayout(before: seq<seq<Entry<K, V>>>, after: seq<seq<Entry<K, V>>>, key: K, at: nat)
      requires |before| == |after| == buckets.Length > 0
      requires forall b, i :: 0 <= b < |before| && 0 <= i < |before[b]| ==> Home(before[b][i].key) == b
      requires forall b, i, j :: 0 <= b < |before| && 0 <= i < j < |before[b]| ==> before[b][i].key != before[b][j].key
      requires at < |before[Home(key)]|
      requires after[Home(key)] == before[Home(key)][..at] + before[Home(key)][at + 1..]
      requires forall b :: 0 <= b < |before| && b != Home(key) ==> after[b] == before[b]
      ensures forall b, i :: 0 <= b < |after| && 0 <= i < |after[b]| ==> Home(after[b][i].key) == b
      ensures forall b, i, j :: 0 <= b < |after| && 0 <= i < j < |after[b]| ==> after[b][i].key != after[b][j].key
    {
      var h := Home(key);
      assert forall i :: 0 <= i < |after[h]| ==> after[h][i] == before[h][if i < at then i else i + 1];
    }

    /** Erasing the entry of `key` leaves exactly the other keys findable in their home buckets. */
    lemma RemoveKeepsKeys(before: seq<seq<Entry<K, V>>>, after: seq<seq<Entry<K, V>>>,
                          oldContents: map<K, V>, key: K, at: nat)
      requires |before| == |after| == buckets.Length > 0
      requires forall i, j :: 0 <= i < j < |before[Home(key)]| ==> before[Home(key)][i].key != before[Home(key)][j].key
      requires forall k :: k in oldContents <==> HasKey(before[Home(k)], k)
      requires at < |before[Home(key)]| && before[Home(key)][at].key == key
      requires after[Home(key)] == before[Home(key)][..at] + before[Home(key)][at + 1..]
      requires forall b :: 0 <= b < |before| && b != Home(key) ==> after[b] == before[b]
      ensures forall k :: k in oldContents - {key} <==> HasKey(after[Home(k)], k)
    {
      var h := Home(key);
      assert forall i :: 0 <= i < |after[h]| ==> after[h][i] == before[h][if i < at then i else i + 1];
      forall k
        ensures k in oldContents - {key} <==> HasKey(after[Home(k)], k)
      {
        if Home(k) == h {
          if HasKey(after[h], k) {
            var i :| 0 <= i < |after[h]| && after[h][i].key == k;
            assert before[h][if i < at then i else i + 1].key == k;
          }
          if k != key && HasKey(before[h], k) {
            var i :| 0 <= i < |before[h]| && before[h][i].key == k;
            assert after[h][if i < at then i else i - 1].key == k;
          }
        } else {
          assert after[Home(k)] == before[Home(k)];
        }
      }
    }

    /** Erasing the entry of `key` leaves entries that agree with the remaining contents. */
    lemma RemoveKeepsValues(before: seq<seq<Entry<K, V>>>, after: seq<seq<Entry<K, V>>>,
                            oldContents: map<K, V>, key: K, at: nat)
      requires |before| == |after| == buckets.Length > 0
      requires forall i, j :: 0 <= i < j < |before[Home(key)]| ==> before[Home(key)][i].key != before[Home(key)][j].key
      requires forall b, i :: 0 <= b < |before| && 0 <= i < |before[b]| ==>
                 before[b][i].key in oldContents && oldContents[before[b][i].key] == before[b][i].value
      requires forall b, i :: 0 <= b < |before| && 0 <= i < |before[b]| ==> Home(before[b][i].key) == b
      requires at < |before[Home(key)]| && before[Home(key)][at].key == key
      requires after[Home(key)] == before[Home(key)][..at] + before[Home(key)][at + 1..]
      requires forall b :: 0 <= b < |before| && b != Home(key) ==> after[b] == before[b]
      ensures forall b, i :: 0 <= b < |after| && 0 <= i < |after[b]| ==>
                after[b][i].key in oldContents - {key} && (oldContents - {key})[after[b][i].key] == after[b][i].value
    {
      var h := Home(key);
      assert forall i :: 0 <= i < |after[h]| ==> after[h][i] == before[h][if i < at then i else i + 1];
    }
  }
}
