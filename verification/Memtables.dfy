/** The memtable: a sorted map of entries behind a Bloom filter. The filter never hides a key that was
    inserted, for any hash function.
 */
module Memtables {
  import opened Wrappers
  import opened Bytes
  import opened Entries

  // ---------------------------------------------------------------------
  // The sorted map

  /** Insertion into the skip map: replaces the entry of the key, or goes where the order puts it. */
  function InsertSorted(es: seq<Entry>, e: Entry): (r: seq<Entry>)
  {
    if es == [] || Less(e.key, es[0].key) then [e] + es
    else if es[0].key == e.key then [e] + es[1..]
    else [es[0]] + InsertSorted(es[1..], e)
  }

  lemma {:induction false} InsertFinds(es: seq<Entry>, e: Entry, k: Key)
    requires Sorted(es)
    ensures Find(InsertSorted(es, e), k) == if k == e.key then Some(e) else Find(es, k)
  {
    if es == [] || Less(e.key, es[0].key) {
      assert ([e] + es)[1..] == es;
    } else if es[0].key == e.key {
      assert ([e] + es[1..])[1..] == es[1..];
    } else {
      SortedTail(es, 1);
      InsertFinds(es[1..], e, k);
      assert ([es[0]] + InsertSorted(es[1..], e))[1..] == InsertSorted(es[1..], e);
    }
  }

  lemma SortedCons(e: Entry, es: seq<Entry>)
    requires Sorted(es) && AllAbove(es, e.key)
    ensures Sorted([e] + es)
  {
  }

  lemma {:induction false} InsertKeepsSorted(es: seq<Entry>, e: Entry)
    requires Sorted(es)
    ensures Sorted(InsertSorted(es, e))
    ensures forall low | AllAbove(es, low) && Less(low, e.key) :: AllAbove(InsertSorted(es, e), low)
  {
    hide Less;
    if es == [] {
    } else {
      LessTrichotomy(e.key, es[0].key);
      SortedTail(es, 1);
      assert AllAbove(es[1..], es[0].key);
      if Less(e.key, es[0].key) {
        forall i | 0 <= i < |es|
          ensures Less(e.key, es[i].key)
        {
          if i > 0 {
            LessTransitive(e.key, es[0].key, es[i].key);
          }
        }
        SortedCons(e, es);
      } else if es[0].key == e.key {
        SortedCons(e, es[1..]);
      } else {
        InsertKeepsSorted(es[1..], e);
        SortedCons(es[0], InsertSorted(es[1..], e));
      }
    }
  }

  // ---------------------------------------------------------------------
  // The memtable as a value

  /** key, value offset, creation time, tombstone marker */
  const ENTRY_OVERHEAD: nat := 13

  /** The entries, the size that decides when it is full, and the largest offset inserted. */
  datatype Memtable = Memtable(entries: seq<Entry>, size: nat, recent: nat)

  const EmptyTable: Memtable := Memtable([], 0, 0)

  function Inserted(m: Memtable, e: Entry): (m': Memtable)
  {
    Memtable(InsertSorted(m.entries, e), m.size + |e.key| + ENTRY_OVERHEAD,
             if e.offset > m.recent then e.offset else m.recent)
  }

  predicate Full(m: Memtable, capacity: nat, keyLen: nat)
  {
    m.size + keyLen + ENTRY_OVERHEAD >= capacity
  }

  // ---------------------------------------------------------------------
  // The Bloom filter

  class BloomFilter {
    const hash: (Key, nat) -> nat
    const hashes: nat
    const bits: array<bool>
    var elements: nat
    ghost var added: set<Key>

    /** A filter with no hash functions accepts everything and needs no bits. A bit is set if and only if an added
        key asks for it. */
    ghost predicate Valid()
      reads this, bits
    {
      (hashes > 0 ==> bits.Length > 0) &&
      (forall k | k in added :: Covered(k)) &&
      forall j | 0 <= j < bits.Length && bits[j] :: AskedFor(j)
    }

    ghost predicate AskedFor(j: nat)
      requires j < bits.Length
      reads this
    {
      exists k, i | k in added && 0 <= i < hashes :: hash(k, i) % bits.Length == j
    }

    ghost predicate Covered(k: Key)
      reads this, bits
    {
      hashes > 0 ==> bits.Length > 0 && forall i | 0 <= i < hashes :: bits[hash(k, i) % bits.Length]
    }

    constructor (hash: (Key, nat) -> nat, hashes: nat, size: nat)
      requires hashes > 0 ==> size > 0
      ensures this.hash == hash && this.hashes == hashes && fresh(bits) && bits.Length == size
      ensures Valid() && added == {} && elements == 0
    {
      this.hash, this.hashes, elements, added := hash, hashes, 0, {};
      bits := new bool[size](_ => false);
    }

    method Set(key: Key)
      requires Valid()
      modifies bits, this`elements, this`added
      ensures Valid() && added == old(added) + {key} && elements == old(elements) + 1
      ensures forall j | 0 <= j < bits.Length :: old(bits[j]) ==> bits[j]
    {
      var i := 0;
      while i < hashes
        invariant 0 <= i <= hashes
        invariant forall j | 0 <= j < i :: bits[hash(key, j) % bits.Length]
        invariant forall j | 0 <= j < bits.Length :: old(bits[j]) ==> bits[j]
        invariant forall j | 0 <= j < bits.Length && bits[j] ::
                    old(bits[j]) || exists n | 0 <= n < i :: hash(key, n) % bits.Length == j
        invariant added == old(added) && elements == old(elements)
      {
        bits[hash(key, i) % bits.Length] := true;
        i := i + 1;
      }
      forall k | k in added
        ensures Covered(k)
      {
        assert old(Covered(k));
      }
      elements := elements + 1;
      added := added + {key};
      forall j | 0 <= j < bits.Length && bits[j]
        ensures AskedFor(j)
      {
        if old(bits[j]) {
          assert old(AskedFor(j));
        }
      }
    }

    ghost method Admit(key: Key)
      requires Valid() && Covered(key)
      modifies this`added
      ensures Valid() && added == old(added) + {key}
    {
      added := added + {key};
      forall k | k in added
        ensures Covered(k)
      {
        assert old(Covered(k));
      }
      forall j | 0 <= j < bits.Length && bits[j]
        ensures AskedFor(j)
      {
        assert old(AskedFor(j));
      }
    }

    /** Accepts exactly the keys all of whose bits are set, so every key that was added. */
    method Contains(key: Key) returns (r: bool)
      requires Valid()
      ensures r <==> Covered(key)
      ensures key in added ==> r
    {
      var i := 0;
      while i < hashes
        invariant 0 <= i <= hashes
        invariant forall j | 0 <= j < i :: bits[hash(key, j) % bits.Length]
      {
        if !bits[hash(key, i) % bits.Length] {
          return false;
        }
        i := i + 1;
      }
      return true;
    }

    /** After a restart the bits are rebuilt from the entries of the table: the rebuilt filter accepts
        every key of the table. */
    method BuildFromEntries(es: seq<Entry>)
      requires Valid()
      modifies bits, this`elements, this`added
      ensures Valid() && added == old(added) + set e | e in es :: e.key
    {
      var i := 0;
      while i < |es|
        invariant 0 <= i <= |es| && Valid()
        invariant added == old(added) + set e | e in es[..i] :: e.key
      {
        assert es[..i + 1] == es[..i] + [es[i]];
        Set(es[i].key);
        i := i + 1;
      }
      assert es[..i] == es;
    }
  }

  class MemTable {
    var entries: seq<Entry>
    const filter: BloomFilter
    var size: nat
    const capacity: nat
    var readOnly: bool
    var mostRecent: Entry

    ghost predicate Valid()
      reads this, filter, filter.bits
    {
      filter.Valid() && Sorted(entries) && forall e | e in entries :: e.key in filter.added
    }

    ghost function Value(): (m: Memtable)
      reads this
    {
      Memtable(entries, size, mostRecent.offset)
    }

    constructor (capacity: nat, hash: (Key, nat) -> nat, hashes: nat, bits: nat)
      requires hashes > 0 ==> bits > 0
      ensures Valid() && Value() == EmptyTable && this.capacity == capacity && !readOnly
      ensures fresh(filter) && fresh(filter.bits)
    {
      this.capacity := capacity;
      entries, size, readOnly, mostRecent := [], 0, false, Entry([], 0, 0, false);
      filter := new BloomFilter(hash, hashes, bits);
    }

    method Insert(entry: Entry)
      requires Valid()
      modifies this, filter, filter.bits
      ensures Valid() && Value() == Inserted(old(Value()), entry)
      ensures readOnly == old(readOnly)
    {
      hide InsertSorted;
      var seen := filter.Contains(entry.key);
      if !seen {
        filter.Set(entry.key);
      } else {
        // A false positive leaves the counter alone; its bits are all set already.
        filter.Admit(entry.key);
      }
      InsertKeepsSorted(entries, entry);
      InsertMembers(entries, entry);
      entries := InsertSorted(entries, entry);
      if entry.offset > mostRecent.offset {
        mostRecent := entry;
      }
      size := size + |entry.key| + ENTRY_OVERHEAD;
    }

    /** The lookup behind the filter is the plain lookup in the map. */
    method Get(key: Key) returns (r: Option<Entry>)
      requires Valid()
      ensures r == Find(entries, key)
    {
      var seen := filter.Contains(key);
      if seen {
        r := Find(entries, key);
      } else {
        r := None;
      }
    }

    /** Full exactly when the next insertion of a key of that length would reach the capacity. */
    method IsFull(keyLen: nat) returns (r: bool)
      ensures r == Full(Value(), capacity, keyLen)
      ensures forall e: Entry | |e.key| == keyLen :: r <==> Inserted(Value(), e).size >= capacity
    {
      hide InsertSorted;
      r := size + keyLen + 4 + 8 + 1 >= capacity;
    }
  }

  lemma {:induction false} InsertMembers(es: seq<Entry>, e: Entry)
    ensures forall x | x in InsertSorted(es, e) :: x == e || x in es
  {
    if es == [] || Less(e.key, es[0].key) {
    } else if es[0].key == e.key {
    } else {
      InsertMembers(es[1..], e);
    }
  }
}
