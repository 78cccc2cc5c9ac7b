/** The registered key ranges: which SSTables a lookup opens. After a restart the filters of the tables are
    rebuilt by lookups and kept aside until the next write moves them in.
 */
module KeyRanges {
  import opened Bytes
  import opened Entries

  // ---------------------------------------------------------------------
  // Filters

  /** A Bloom filter as a value. A filter that is not ready is the empty one a restart creates: it has no
      hash functions, so it accepts every key. `savedHashes` and `savedBits` are what its file gives. */
  datatype Filter = Filter(ready: bool, hashes: nat, bits: seq<bool>, savedHashes: nat, savedBits: nat)

  type Hash = (Key, nat) -> nat

  predicate Accepts(f: Filter, hash: Hash, k: Key)
  {
    f.hashes > 0 ==> f.bits != [] && forall i | 0 <= i < f.hashes :: f.bits[hash(k, i) % |f.bits|]
  }

  function Mark(bits: seq<bool>, hash: Hash, hashes: nat, k: Key): (bits': seq<bool>)
    requires bits != []
    ensures |bits'| == |bits|
    ensures forall i | 0 <= i < |bits| && bits[i] :: bits'[i]
    ensures forall i | 0 <= i < hashes :: bits'[hash(k, i) % |bits|]
  {
    if hashes == 0 then bits
    else
      var b := Mark(bits, hash, hashes - 1, k);
      b[hash(k, hashes - 1) % |bits| := true]
  }

  function MarkAll(bits: seq<bool>, hash: Hash, hashes: nat, es: seq<Entry>): (bits': seq<bool>)
    requires bits != []
    ensures |bits'| == |bits|
    ensures forall i | 0 <= i < |bits| && bits[i] :: bits'[i]
    ensures forall e | e in es :: forall i | 0 <= i < hashes :: bits'[hash(e.key, i) % |bits|]
  {
    if es == [] then bits
    else Mark(MarkAll(bits, hash, hashes, es[..|es| - 1]), hash, hashes, es[|es| - 1].key)
  }

  function Blank(n: nat): (bits: seq<bool>)
    ensures |bits| == n
  {
    seq(n, _ => false)
  }

  /** `recover_meta` and `build_filter_from_entries` */
  function Restored(f: Filter, hash: Hash, es: seq<Entry>): (f': Filter)
    requires f.savedBits > 0
    ensures f'.ready && forall e | e in es :: Accepts(f', hash, e.key)
  {
    f.(ready := true, hashes := f.savedHashes, bits := MarkAll(Blank(f.savedBits), hash, f.savedHashes, es))
  }

  /** Some entry sets the bit. */
  ghost predicate SetBy(es: seq<Entry>, hash: Hash, hashes: nat, n: nat, j: nat)
    requires n > 0
  {
    exists e, i | e in es && 0 <= i < hashes :: hash(e.key, i) % n == j
  }

  lemma {:induction false} MarkOnly(bits: seq<bool>, hash: Hash, hashes: nat, k: Key)
    requires bits != []
    ensures forall j | 0 <= j < |bits| && Mark(bits, hash, hashes, k)[j] && !bits[j] ::
              exists i | 0 <= i < hashes :: hash(k, i) % |bits| == j
  {
    if hashes > 0 {
      MarkOnly(bits, hash, hashes - 1, k);
    }
  }

  lemma {:induction false} MarkAllOnly(bits: seq<bool>, hash: Hash, hashes: nat, es: seq<Entry>)
    requires bits != []
    ensures forall j | 0 <= j < |bits| && MarkAll(bits, hash, hashes, es)[j] && !bits[j] ::
              SetBy(es, hash, hashes, |bits|, j)
  {
    hide Mark;
    if es != [] {
      var n := |es| - 1;
      var b := MarkAll(bits, hash, hashes, es[..n]);
      MarkAllOnly(bits, hash, hashes, es[..n]);
      MarkOnly(b, hash, hashes, es[n].key);
      forall j | 0 <= j < |bits| && MarkAll(bits, hash, hashes, es)[j] && !bits[j]
        ensures SetBy(es, hash, hashes, |bits|, j)
      {
        if b[j] {
          var e, i :| e in es[..n] && 0 <= i < hashes && hash(e.key, i) % |bits| == j;
          assert e in es;
        } else {
          var i :| 0 <= i < hashes && hash(es[n].key, i) % |bits| == j;
          assert es[n] in es;
        }
      }
    }
  }

  /** A rebuilt filter accepts a key if and only if each bit the key asks for is set by an entry of the table. */
  lemma RestoredExactly(f: Filter, hash: Hash, es: seq<Entry>, k: Key)
    requires f.savedBits > 0
    ensures Accepts(Restored(f, hash, es), hash, k) <==>
            forall i | 0 <= i < f.savedHashes ::
              SetBy(es, hash, f.savedHashes, f.savedBits, hash(k, i) % f.savedBits)
  {
    hide Mark, MarkAll;
    MarkAllOnly(Blank(f.savedBits), hash, f.savedHashes, es);
  }

  // ---------------------------------------------------------------------
  // Ranges

  /** A registered table: its directory, its bounds, what its data file holds, and its filter. */
  datatype Range = Range(dir: nat, smallest: Key, biggest: Key, entries: seq<Entry>, filter: Filter)

  predicate Within(r: Range, k: Key)
  {
    !Less(k, r.smallest) && !Less(r.biggest, k)
  }

  /** The bounds enclose the table and its filter hides none of its keys. */
  ghost predicate RangeOk(r: Range, hash: Hash)
  {
    (forall e | e in r.entries :: Within(r, e.key) && Accepts(r.filter, hash, e.key)) &&
    r.filter.savedBits > 0 && (!r.filter.ready ==> r.filter.hashes == 0)
  }

  /** Directories are never reused: what a directory holds does not depend on when it is looked at. */
  type Content = nat -> seq<Entry>

  ghost predicate RangesOk(m: map<nat, Range>, hash: Hash, content: Content)
  {
    forall d | d in m :: m[d].dir == d && m[d].entries == content(d) && RangeOk(m[d], hash)
  }

  /** The range encloses the key and its filter accepts it. */
  predicate Opened(r: Range, hash: Hash, k: Key)
  {
    !Less(k, r.smallest) && !Less(r.biggest, k) && Accepts(r.filter, hash, k)
  }

  /** The filter of a range that encloses the key and had none is rebuilt. */
  predicate RebuiltFor(r: Range, r': Range, k: Key)
  {
    !Less(k, r.smallest) && !Less(r.biggest, k) && !r.filter.ready && r'.filter.ready
  }

  predicate AllOpened(found: seq<Range>, hash: Hash, k: Key)
  {
    forall r | r in found :: Opened(r, hash, k)
  }

  predicate AllRebuiltFor(m: map<nat, Range>, rebuilt: map<nat, Range>, k: Key)
  {
    forall d | d in rebuilt :: d in m && RebuiltFor(m[d], rebuilt[d], k)
  }

  predicate Holds(r: Range, k: Key)
  {
    Find(r.entries, k).Some?
  }

  class KeyRange {
    const hash: Hash
    ghost const content: Content
    var keyRanges: map<nat, Range>
    var restoredRanges: map<nat, Range>

    ghost predicate Valid()
      reads this
    {
      RangesOk(keyRanges, hash, content) && RangesOk(restoredRanges, hash, content)
    }

    constructor (hash: Hash, ghost content: Content)
      ensures Valid() && keyRanges == map[] && restoredRanges == map[] && this.hash == hash && this.content == content
    {
      this.hash, this.content := hash, content;
      keyRanges, restoredRanges := map[], map[];
    }

    method Set(r: Range)
      requires Valid() && RangeOk(r, hash) && r.entries == content(r.dir)
      modifies this`keyRanges
      ensures Valid() && keyRanges == old(keyRanges)[r.dir := r]
    {
      keyRanges := keyRanges[r.dir := r];
    }

    method Remove(dir: nat) returns (present: bool)
      requires Valid()
      modifies this`keyRanges
      ensures Valid() && keyRanges == old(keyRanges) - {dir} && present == (dir in old(keyRanges))
    {
      present := dir in keyRanges;
      keyRanges := keyRanges - {dir};
    }

    /** The restored tables that may hold the key: those that enclose it and whose filters accept it. Every
        restored table that does hold it is among them. */
    method CheckRestoredKeyRanges(key: Key) returns (found: seq<Range>)
      requires Valid()
      ensures forall r | r in found :: r.dir in restoredRanges && restoredRanges[r.dir] == r && Opened(r, hash, key)
      ensures forall d | d in restoredRanges && Holds(restoredRanges[d], key) :: restoredRanges[d] in found
    {
      hide Less;
      found := [];
      var todo := restoredRanges.Keys;
      while todo != {}
        invariant todo <= restoredRanges.Keys
        invariant forall r | r in found :: r.dir in restoredRanges && restoredRanges[r.dir] == r && Opened(r, hash, key)
        invariant forall d | d in restoredRanges && d !in todo && Holds(restoredRanges[d], key) ::
                  restoredRanges[d] in found
        decreases |todo|
      {
        var d :| d in todo;
        var r := restoredRanges[d];
        HoldsPasses(r, hash, key);
        if Within(r, key) && Accepts(r.filter, hash, key) {
          found := found + [r];
        }
        todo := todo - {d};
      }
    }

    /** The tables a lookup opens, and the ranges whose filters it rebuilt on the way. Complete: every
        registered or restored table that holds the key is among them. Only ranges that enclose the key are
        opened, if their filters accept it, or rebuilt, if they had no filter. */
    method FilterSstablesByKeyRange(key: Key) returns (found: seq<Range>, rebuilt: map<nat, Range>)
      requires Valid()
      ensures RangesOk(rebuilt, hash, content) && rebuilt.Keys <= keyRanges.Keys
      ensures forall d | (d in keyRanges || d in restoredRanges) && Find(content(d), key).Some? ::
                exists r :: r in found && r.dir == d && r.entries == content(d)
      ensures forall r | r in found :: r.entries == content(r.dir) && (r.dir in keyRanges || r.dir in restoredRanges)
      ensures forall r | r in found ::
                !Less(key, r.smallest) && !Less(r.biggest, key) && Accepts(r.filter, hash, key)
      ensures forall d | d in rebuilt :: !Less(key, keyRanges[d].smallest) && !Less(keyRanges[d].biggest, key) &&
                                         !keyRanges[d].filter.ready && rebuilt[d].filter.ready
    {
      hide Less, Find, Accepts;
      found, rebuilt := [], map[];
      if restoredRanges != map[] {
        found := CheckRestoredKeyRanges(key);
      }
      forall d | d in restoredRanges && Find(content(d), key).Some?
        ensures Listed(found, d, content)
      {
        assert Holds(restoredRanges[d], key);
        assert restoredRanges[d] in found;
      }
      var todo := keyRanges.Keys;
      while todo != {}
        invariant todo <= keyRanges.Keys
        invariant RangesOk(rebuilt, hash, content) && rebuilt.Keys <= keyRanges.Keys
        invariant forall r | r in found ::
                    r.entries == content(r.dir) && (r.dir in keyRanges || r.dir in restoredRanges)
        invariant AllOpened(found, hash, key) && AllRebuiltFor(keyRanges, rebuilt, key)
        invariant forall d | d in restoredRanges && Find(content(d), key).Some? :: Listed(found, d, content)
        invariant forall d | d in keyRanges && d !in todo && Find(content(d), key).Some? :: Listed(found, d, content)
        decreases |todo|
      {
        hide RangeOk, Listed, Within, RangesOk, AllOpened, AllRebuiltFor;
        var d :| d in todo;
        RangeIn(keyRanges, hash, content, d);
        if d !in restoredRanges && Within(keyRanges[d], key) {
          ghost var before := found;
          found, rebuilt := VisitRange(keyRanges[d], key, found, rebuilt);
          ListedMore(before, found, content);
        } else {
          NotWithin(keyRanges[d], hash, key);
        }
        todo := todo - {d};
      }
    }

    /** One table whose bounds enclose the key: a missing filter is rebuilt, then asked. */
    method VisitRange(r: Range, key: Key, found: seq<Range>, rebuilt: map<nat, Range>)
        returns (found': seq<Range>, rebuilt': map<nat, Range>)
      requires RangeOk(r, hash) && r.entries == content(r.dir) && RangesOk(rebuilt, hash, content) && Within(r, key)
      ensures RangesOk(rebuilt', hash, content) && rebuilt.Keys <= rebuilt'.Keys <= rebuilt.Keys + {r.dir}
      ensures AllOpened(found, hash, key) ==> AllOpened(found', hash, key)
      ensures r.dir in keyRanges && keyRanges[r.dir] == r && AllRebuiltFor(keyRanges, rebuilt, key) ==>
                AllRebuiltFor(keyRanges, rebuilt', key)
      ensures found <= found' && forall x | x in found' && x !in found :: x.dir == r.dir && x.entries == r.entries
      ensures Find(content(r.dir), key).Some? ==> Listed(found', r.dir, content)
    {
      hide Less, Find, Accepts;
      found', rebuilt' := found, rebuilt;
      HoldsPasses(r, hash, key);
      if !r.filter.ready {
        var filter := Restored(r.filter, hash, r.entries);
        RestoredOk(r, hash);
        rebuilt' := rebuilt'[r.dir := r.(filter := filter)];
        if Accepts(filter, hash, key) {
          found' := found' + [r.(filter := filter)];
          assert found'[|found|] in found';
          return;
        }
      }
      if Accepts(r.filter, hash, key) {
        found' := found' + [r];
        assert found'[|found|] in found';
      }
    }

    /** A lookup's rebuilt ranges replace the restored map, whenever its background task runs. */
    method Publish(rebuilt: map<nat, Range>)
      requires Valid() && RangesOk(rebuilt, hash, content)
      modifies this`restoredRanges
      ensures Valid() && restoredRanges == rebuilt
    {
      restoredRanges := rebuilt;
    }

    /** Moves the restored ranges in. The set of registered tables stays the same exactly when every
        restored one is still registered: a table removed in between comes back. */
    method UpdateKeyRange()
      requires Valid()
      modifies this
      ensures Valid() && restoredRanges == map[] && keyRanges == old(keyRanges) + old(restoredRanges)
      ensures keyRanges.Keys == old(keyRanges).Keys <==> old(restoredRanges).Keys <= old(keyRanges).Keys
    {
      ghost var before := keyRanges;
      MoveIn();
      MergedRanges(before, restoredRanges, keyRanges, hash, content);
      restoredRanges := map[];
    }

    method MoveIn()
      modifies this`keyRanges
      ensures forall d :: d in keyRanges <==> d in old(keyRanges) || d in restoredRanges
      ensures forall d | d in keyRanges ::
                keyRanges[d] == if d in restoredRanges then restoredRanges[d] else old(keyRanges)[d]
    {
      ghost var before := keyRanges;
      var restored := restoredRanges;
      var todo := restored.Keys;
      while todo != {}
        invariant todo <= restored.Keys && restored == restoredRanges
        invariant forall d :: d in keyRanges <==> d in before || (d in restored && d !in todo)
        invariant forall d | d in keyRanges ::
                    keyRanges[d] == if d in restored && d !in todo then restored[d] else before[d]
        decreases |todo|
      {
        var d :| d in todo;
        keyRanges := keyRanges[d := restored[d]];
        todo := todo - {d};
      }
    }
  }

  lemma MergedRanges(a: map<nat, Range>, b: map<nat, Range>, c: map<nat, Range>, hash: Hash, content: Content)
    requires (forall d :: d in c <==> d in a || d in b) && forall d | d in c :: c[d] == if d in b then b[d] else a[d]
    requires RangesOk(a, hash, content) && RangesOk(b, hash, content)
    ensures c == a + b && RangesOk(c, hash, content)
    ensures c.Keys == a.Keys <==> b.Keys <= a.Keys
  {
    hide RangeOk;
  }

  ghost predicate Listed(found: seq<Range>, d: nat, content: Content)
  {
    exists r :: r in found && r.dir == d && r.entries == content(d)
  }

  lemma ListedMore(found: seq<Range>, found': seq<Range>, content: Content)
    requires found <= found'
    ensures forall d: nat | Listed(found, d, content) :: Listed(found', d, content)
  {
    forall d: nat | Listed(found, d, content)
      ensures Listed(found', d, content)
    {
      var r :| r in found && r.dir == d && r.entries == content(d);
      assert r in found';
    }
  }

  /** A table that holds the key passes both tests. */
  lemma HoldsPasses(r: Range, hash: Hash, k: Key)
    requires RangeOk(r, hash)
    ensures Holds(r, k) ==> Within(r, k) && Accepts(r.filter, hash, k)
  {
    hide Less, Accepts;
    if Holds(r, k) {
      assert Find(r.entries, k).value in r.entries;
    }
  }

  lemma RangeIn(m: map<nat, Range>, hash: Hash, content: Content, d: nat)
    requires RangesOk(m, hash, content) && d in m
    ensures m[d].dir == d && m[d].entries == content(d) && RangeOk(m[d], hash)
  {
  }

  lemma NotWithin(r: Range, hash: Hash, k: Key)
    requires RangeOk(r, hash)
    ensures Find(r.entries, k).Some? ==> Within(r, k)
  {
    HoldsPasses(r, hash, k);
  }

  lemma RestoredOk(r: Range, hash: Hash)
    requires RangeOk(r, hash)
    ensures RangeOk(r.(filter := Restored(r.filter, hash, r.entries)), hash)
  {
    hide Less, MarkAll;
  }
}
