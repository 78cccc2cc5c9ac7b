/** Entries of memtables and SSTables: a key with the place of its value in the value log, the
    time of the write and a deletion marker. A table is iterated in key order.
 */
module Entries {
  import opened Wrappers
  import opened Bytes

  datatype Entry = Entry(key: Key, offset: nat, time: nat, tomb: bool)

  /** Strictly increasing keys: what iterating a skip map yields. */
  predicate Sorted(es: seq<Entry>)
  {
    forall i, j | 0 <= i < j < |es| :: Less(es[i].key, es[j].key)
  }

  /** The entry for `k`, in a sequence with at most one. */
  function Find(es: seq<Entry>, k: Key): (r: Option<Entry>)
    ensures r.Some? ==> r.value in es && r.value.key == k
    ensures r.None? <==> forall e | e in es :: e.key != k
  {
    if es == [] then None
    else if es[0].key == k then Some(es[0])
    else Find(es[1..], k)
  }

  lemma {:induction false} FindConcat(a: seq<Entry>, b: seq<Entry>, k: Key)
    ensures Find(a + b, k) == if Find(a, k).Some? then Find(a, k) else Find(b, k)
  {
    if a == [] {
      assert a + b == b;
    } else if a[0].key != k {
      assert (a + b)[1..] == a[1..] + b;
      FindConcat(a[1..], b, k);
    }
  }

  /** In a sorted sequence the entry of a key is the only one. */
  lemma SortedFind(es: seq<Entry>, e: Entry)
    requires Sorted(es) && e in es
    ensures Find(es, e.key) == Some(e)
  {
    var f := Find(es, e.key).value;
    var i :| 0 <= i < |es| && es[i] == e;
    var j :| 0 <= j < |es| && es[j] == f;
    if i < j {
      LessTrichotomy(es[i].key, es[j].key);
    } else if j < i {
      LessTrichotomy(es[j].key, es[i].key);
    }
  }

  lemma SortedTail(es: seq<Entry>, i: nat)
    requires Sorted(es) && i <= |es|
    ensures Sorted(es[i..]) && Sorted(es[..i])
  {
  }

  predicate AllAbove(es: seq<Entry>, k: Key)
  {
    forall i | 0 <= i < |es| :: Less(k, es[i].key)
  }
}
