/** One round of size-tiered compaction and whole runs of it: extract the buckets with too many
    tables, merge each, insert the merged tables, then delete what was extracted.
 */
module Compaction {
  import opened Wrappers
  import opened Bytes
  import opened Entries
  import opened Merge
  import opened Buckets
  import SsTable

  // ---------------------------------------------------------------------
  // Lookups over a collection of tables

  /** `r` is what a newest-wins search of the tables finds for `k`, in whatever order it visits them. */
  predicate IsNewest(ts: multiset<Sst>, k: Key, r: Option<Entry>)
  {
    match r
    case None => forall t | t in ts :: Find(t.disk, k) == None
    case Some(e) =>
      (exists t | t in ts :: Find(t.disk, k) == Some(e)) &&
      (forall t | t in ts :: Find(t.disk, k).Some? ==> Find(t.disk, k).value.time <= e.time)
  }

  /** The times of the versions of `k` are positive and identify the versions. */
  predicate Timed(ts: multiset<Sst>, k: Key)
  {
    forall s, t | s in ts && t in ts ::
      var x, y := Find(s.disk, k), Find(t.disk, k);
      (x.Some? ==> x.value.time > 0) && SameWhenSimultaneous(x, y)
  }

  function Disks(ts: seq<Sst>): (s: seq<seq<Entry>>)
    ensures |s| == |ts| && forall i | 0 <= i < |ts| :: s[i] == ts[i].disk
  {
    seq(|ts|, i requires 0 <= i < |ts| => ts[i].disk)
  }

  lemma NewestUniqueIn(ts: multiset<Sst>, k: Key, r: Option<Entry>, r': Option<Entry>)
    requires Timed(ts, k) && IsNewest(ts, k, r) && IsNewest(ts, k, r')
    ensures r == r'
  {
  }

  /** The search loop finds the newest version, in every order of the tables. */
  lemma SearchFindsNewest(order: seq<Sst>, k: Key)
    requires Timed(multiset(order), k)
    ensures IsNewest(multiset(order), k, Newest(Disks(order), k))
  {
    var ds := Disks(order);
    NewestIsLatest(ds, k);
    var r := Newest(ds, k);
    forall t | t in multiset(order)
      ensures Find(t.disk, k).Some? ==> r.Some? && Find(t.disk, k).value.time <= r.value.time
    {
      var i :| 0 <= i < |order| && order[i] == t;
      assert ds[i] == t.disk;
    }
    if r.Some? {
      var i :| 0 <= i < |ds| && Find(ds[i], k) == Some(r.value);
      assert order[i] in multiset(order);
    }
  }

  /** A version of `k` in the tables. */
  predicate Holds(ts: multiset<Sst>, e: Entry)
  {
    exists t | t in ts :: Find(t.disk, e.key) == Some(e)
  }

  /** Every version of `k` in `ts'` is already in `ts`. */
  predicate NothingNew(ts: multiset<Sst>, ts': multiset<Sst>, k: Key)
  {
    forall t | t in ts' :: Find(t.disk, k).Some? ==> Holds(ts, Find(t.disk, k).value)
  }

  lemma TimedSubset(ts: multiset<Sst>, ts': multiset<Sst>, k: Key)
    requires Timed(ts, k) && NothingNew(ts, ts', k)
    ensures Timed(ts', k)
  {
  }

  /** Tables that bring no new version may be added, and any may be taken away as long as the newest
      version stays. */
  lemma NewestKept(ts: multiset<Sst>, ts': multiset<Sst>, k: Key, r: Option<Entry>)
    requires IsNewest(ts, k, r) && NothingNew(ts, ts', k)
    requires r.Some? ==> Holds(ts', r.value)
    ensures IsNewest(ts', k, r)
  {
    if r.Some? {
      forall t | t in ts' && Find(t.disk, k).Some?
        ensures Find(t.disk, k).value.time <= r.value.time
      {
        var t' :| t' in ts && Find(t'.disk, k) == Find(t.disk, k);
      }
    }
  }

  // ---------------------------------------------------------------------
  // Merging the extracted buckets

  /** The clock never goes back. `clock(i)` is its `i`-th reading. */
  ghost predicate Forward(clock: nat -> nat)
  {
    forall i: nat, j: nat | i <= j :: clock(i) <= clock(j)
  }

  function Readings(clock: nat -> nat, tick: nat, n: nat): (nows: seq<nat>)
    ensures |nows| == n
  {
    seq(n, i requires 0 <= i < n => clock(tick + i))
  }

  lemma ReadingsForward(clock: nat -> nat, tick: nat, n: nat)
    requires Forward(clock)
    ensures NonDecreasing(Readings(clock, tick, n))
  {
  }

  /** What the merge of a bucket reads: the first table from memory, the others from disk. */
  function Contents(ts: seq<Sst>): (s: seq<seq<Entry>>)
    requires ts != []
    ensures |s| == |ts|
  {
    [ts[0].mem] + Disks(ts[1..])
  }

  /** The fold of one extracted bucket. */
  function MergeBucket(cfg: Config, clock: nat -> nat, tick: nat, r: Removal, m: Deletions)
      : (x: (seq<Entry>, Deletions))
    requires r.tables != []
  {
    MergeAll(cfg, Readings(clock, tick, |r.tables| - 1), r.tables[0].mem, Disks(r.tables[1..]), m)
  }

  predicate Extracted(rs: seq<Removal>)
  {
    forall i | 0 <= i < |rs| :: |rs[i].tables| >= MIN_THRESHOLD
  }

  datatype Fold = Fold(outs: seq<seq<Entry>>, marks: Deletions, tick: nat)

  /** `merge_ssts_in_buckets` */
  function MergeBuckets(cfg: Config, clock: nat -> nat, tick: nat, rs: seq<Removal>, m: Deletions): (f: Fold)
    requires Extracted(rs)
    ensures |f.outs| == |rs|
  {
    if rs == [] then Fold([], m, tick) else
    var n := |rs| - 1;
    var f := MergeBuckets(cfg, clock, tick, rs[..n], m);
    var (out, m') := MergeBucket(cfg, clock, f.tick, rs[n], f.marks);
    Fold(f.outs + [out], m', f.tick + |rs[n].tables| - 1)
  }

  /** A deletion that is on record after the merges was on record before, or one of the tables that they read holds
      its marker. */
  lemma {:induction false} MergesNote(cfg: Config, clock: nat -> nat, tick: nat, rs: seq<Removal>, m: Deletions, k: Key,
                                      time: nat)
    requires Extracted(rs) && Noted(MergeBuckets(cfg, clock, tick, rs, m).marks, k, time)
    ensures Noted(m, k, time) || exists i :: 0 <= i < |rs| && MarkerInSome(Contents(rs[i].tables), k, time)
  {
    hide MergeAll, Noted, MarkerInSome;
    if rs != [] {
      var n := |rs| - 1;
      var f := MergeBuckets(cfg, clock, tick, rs[..n], m);
      if Noted(f.marks, k, time) {
        MergesNote(cfg, clock, tick, rs[..n], m, k, time);
        if !Noted(m, k, time) {
          var i :| 0 <= i < n && MarkerInSome(Contents(rs[..n][i].tables), k, time);
          assert rs[i] == rs[..n][i];
        }
      } else {
        var ts := rs[n].tables;
        MergeAllNotes(cfg, Readings(clock, f.tick, |ts| - 1), ts[0].mem, Disks(ts[1..]), f.marks, k, time);
      }
    }
  }

  /** The number of clock readings before and during the merges of the buckets. */
  function TickAfter(tick: nat, rs: seq<Removal>): (t: nat)
    requires Extracted(rs)
    ensures t >= tick + |rs|
  {
    if rs == [] then tick else TickAfter(tick, rs[..|rs| - 1]) + |rs[|rs| - 1].tables| - 1
  }

  lemma {:induction false} TicksOfMerges(cfg: Config, clock: nat -> nat, tick: nat, rs: seq<Removal>, m: Deletions)
    requires Extracted(rs)
    ensures MergeBuckets(cfg, clock, tick, rs, m).tick == TickAfter(tick, rs)
  {
    hide MergeBucket;
    if rs != [] {
      TicksOfMerges(cfg, clock, tick, rs[..|rs| - 1], m);
    }
  }

  lemma {:induction false} TicksOfPrefix(tick: nat, rs: seq<Removal>, n: nat)
    requires Extracted(rs) && n <= |rs|
    ensures TickAfter(tick, rs[..n]) <= TickAfter(tick, rs)
    decreases |rs|
  {
    if n < |rs| {
      assert rs[..|rs| - 1][..n] == rs[..n];
      TicksOfPrefix(tick, rs[..|rs| - 1], n);
    } else {
      assert rs[..n] == rs;
    }
  }

  /** The entry map of a table is its data or has been emptied. */
  predicate TableOk(t: Sst)
  {
    Sorted(t.disk) && (t.mem == [] || t.mem == t.disk)
  }

  /** The tables can be merged. */
  predicate Mergeable(ts: seq<Sst>)
  {
    forall i | 0 <= i < |ts| :: Sorted(ts[i].disk) && Sorted(ts[i].mem)
  }

  predicate AllMergeable(rs: seq<Removal>)
  {
    Extracted(rs) && forall i | 0 <= i < |rs| :: Mergeable(rs[i].tables)
  }

  /** Everything the merge of the bucket reads is held by the tables `ts`. */
  ghost predicate Drawn(ts: multiset<Sst>, r: Removal)
  {
    r.tables != [] && Mergeable(r.tables) && forall e: Entry | Version(Contents(r.tables), e) :: Holds(ts, e)
  }

  ghost predicate AllDrawn(ts: multiset<Sst>, rs: seq<Removal>)
  {
    Extracted(rs) && forall i | 0 <= i < |rs| :: Drawn(ts, rs[i])
  }

  predicate TablesOk(ts: seq<Sst>)
  {
    forall i | 0 <= i < |ts| :: TableOk(ts[i])
  }

  predicate RemovalsOk(rs: seq<Removal>)
  {
    Extracted(rs) && forall i | 0 <= i < |rs| :: TablesOk(rs[i].tables)
  }

  /** A version read by the merge is a version on disk. */
  lemma ContentsOnDisk(ts: seq<Sst>, e: Entry)
    requires ts != [] && TablesOk(ts) && Version(Contents(ts), e)
    ensures Holds(multiset(ts), e)
  {
    var i :| 0 <= i < |ts| && Find(Contents(ts)[i], e.key) == Some(e);
    assert ts[i] in multiset(ts);
    if i == 0 {
      assert ts[0].mem == ts[0].disk;
    } else {
      assert Contents(ts)[i] == ts[1..][i - 1].disk == ts[i].disk;
    }
  }

  /** The tables of a bucket hold everything its merge reads. */
  lemma BucketDrawn(ts: multiset<Sst>, r: Removal)
    requires r.tables != [] && TablesOk(r.tables) && multiset(r.tables) <= ts
    ensures Drawn(ts, r)
  {
    hide Sorted, Find, Version, Contents;
    SortedEmpty();
    forall e: Entry | Version(Contents(r.tables), e)
      ensures Holds(ts, e)
    {
      ContentsOnDisk(r.tables, e);
      HoldsMore(multiset(r.tables), ts, e);
    }
  }

  /** A merged table is sorted and holds no version that the merge has not read. */
  lemma MergedRead(cfg: Config, clock: nat -> nat, tick: nat, r: Removal, m: Deletions, k: Key)
    requires r.tables != [] && Mergeable(r.tables)
    ensures var x := Find(MergeBucket(cfg, clock, tick, r, m).0, k); x.Some? ==> Version(Contents(r.tables), x.value)
    ensures Sorted(MergeBucket(cfg, clock, tick, r, m).0)
  {
    hide MergeAll, Sorted, Find;
    var ts := r.tables;
    var nows := Readings(clock, tick, |ts| - 1);
    TablesSorted(ts);
    MergedVersions(cfg, nows, ts[0].mem, Disks(ts[1..]), m, k);
    MergeAllSorted(cfg, nows, ts[0].mem, Disks(ts[1..]), m);
  }

  lemma SortedEmpty()
    ensures Sorted([])
  {
  }

  /** Times of `k` are consistent within what the merge of a bucket reads. */
  lemma ContentsConsistent(ts: multiset<Sst>, r: Removal, k: Key)
    requires Drawn(ts, r) && Timed(ts, k)
    ensures Consistent(Contents(r.tables), k)
  {
    hide Sorted, Find;
    var c := Contents(r.tables);
    forall i | 0 <= i < |c|
      ensures Find(c[i], k).Some? ==> exists t | t in ts :: Find(t.disk, k) == Find(c[i], k)
    {
      FindKey(c[i], k);
      if Find(c[i], k).Some? {
        assert Version(c, Find(c[i], k).value);
      }
    }
  }

  // ---------------------------------------------------------------------
  // What merging does to a key whose newest version is live

  /** `e` is the newest version of its key, it is live and no recorded deletion is as late. */
  predicate Standing(ts: multiset<Sst>, m: Deletions, e: Entry)
  {
    IsNewest(ts, e.key, Some(e)) && !e.tomb && Passes(Recorded(m, e.key), e)
  }

  lemma {:induction false} NewestOfContents(ts: multiset<Sst>, r: Removal, e: Entry)
    requires Drawn(ts, r) && Timed(ts, e.key)
    requires IsNewest(ts, e.key, Some(e))
    ensures var best := Newest(Contents(r.tables), e.key);
            (Version(Contents(r.tables), e) <==> best == Some(e)) &&
            (best.Some? ==> best.value.time <= e.time) &&
            (best.Some? && best.value.time == e.time ==> best == Some(e))
  {
    hide Sorted, Find, Newest;
    var c := Contents(r.tables);
    ContentsConsistent(ts, r, e.key);
    NewestIsLatest(c, e.key);
    forall x: Entry | x.key == e.key && Version(c, x)
      ensures x.time <= e.time && (x.time == e.time ==> x == e)
    {
      var t :| t in ts && Find(t.disk, x.key) == Some(x);
    }
    if Version(c, e) {
      forall i | 0 <= i < |c| && Find(c[i], e.key).Some?
        ensures Find(c[i], e.key).value.time <= e.time
      {
        FindKey(c[i], e.key);
        assert Version(c, Find(c[i], e.key).value);
      }
      NewestUnique(c, e.key, e);
    }
    var best := Newest(c, e.key);
    if best.Some? {
      assert best.value.key == e.key;
    }
  }

  /** A bucket passes the newest live version on exactly when its merge reads it and it has not expired
      at the last merge. */
  lemma BucketKeepsLive(cfg: Config, clock: nat -> nat, tick: nat, r: Removal, m: Deletions, ts: multiset<Sst>,
                        e: Entry)
    requires |r.tables| > 1 && Drawn(ts, r) && Timed(ts, e.key)
    requires Standing(ts, m, e) && Forward(clock)
    ensures var (out, m') := MergeBucket(cfg, clock, tick, r, m);
            Passes(Recorded(m', e.key), e) &&
            (Find(out, e.key) == Some(e) <==>
             Version(Contents(r.tables), e) && Unexpired(cfg, clock(tick + |r.tables| - 2), e))
  {
    hide MergeAll, Sorted, Find, Newest, Version, Unexpired;
    var tables := r.tables;
    var nows := Readings(clock, tick, |tables| - 1);
    ReadingsForward(clock, tick, |tables| - 1);
    assert nows[|nows| - 1] == clock(tick + |tables| - 2);
    TablesSorted(tables);
    ContentsConsistent(ts, r, e.key);
    FoldState(cfg, nows, tables[0].mem, Disks(tables[1..]), m, e.key);
    NewestOfContents(ts, r, e);
    MergedRead(cfg, clock, tick, r, m, e.key);
  }

  /** The merge of bucket `i` reads the version, and the version has not expired at its last merge. */
  predicate Carries(cfg: Config, clock: nat -> nat, tick: nat, rs: seq<Removal>, i: nat, e: Entry)
    requires Extracted(rs) && i < |rs|
  {
    Version(Contents(rs[i].tables), e) && Unexpired(cfg, clock(TickAfter(tick, rs[..i + 1]) - 1), e)
  }

  /** The merged tables hold the version exactly where the merge of their bucket carries it. */
  predicate PassedOn(cfg: Config, clock: nat -> nat, tick: nat, outs: seq<seq<Entry>>, rs: seq<Removal>, e: Entry)
    requires Extracted(rs) && |outs| == |rs|
  {
    forall i | 0 <= i < |rs| :: Find(outs[i], e.key) == Some(e) <==> Carries(cfg, clock, tick, rs, i, e)
  }

  lemma CarriesPrefix(cfg: Config, clock: nat -> nat, tick: nat, rs: seq<Removal>, n: nat, i: nat, e: Entry)
    requires Extracted(rs) && i < n <= |rs|
    ensures Carries(cfg, clock, tick, rs[..n], i, e) <==> Carries(cfg, clock, tick, rs, i, e)
  {
    assert rs[..n][..i + 1] == rs[..i + 1];
  }

  lemma PassedOnMore(cfg: Config, clock: nat -> nat, tick: nat, outs: seq<seq<Entry>>, out: seq<Entry>,
                     rs: seq<Removal>, n: nat, e: Entry)
    requires Extracted(rs) && |rs| == n + 1 && |outs| == n && PassedOn(cfg, clock, tick, outs, rs[..n], e)
    requires Find(out, e.key) == Some(e) <==>
             Version(Contents(rs[n].tables), e) &&
             Unexpired(cfg, clock(TickAfter(tick, rs[..n]) + |rs[n].tables| - 2), e)
    ensures PassedOn(cfg, clock, tick, outs + [out], rs, e)
  {
    hide Find, Version, Contents, Unexpired;
    var all := outs + [out];
    assert rs[..n + 1] == rs;
    forall i | 0 <= i < |rs|
      ensures Find(all[i], e.key) == Some(e) <==> Carries(cfg, clock, tick, rs, i, e)
    {
      if i < n {
        CarriesPrefix(cfg, clock, tick, rs, n, i, e);
        assert all[i] == outs[i];
      }
    }
  }

  lemma {:induction false} BucketsKeepLive(cfg: Config, clock: nat -> nat, tick: nat, rs: seq<Removal>, m: Deletions,
                                           ts: multiset<Sst>, e: Entry)
    requires AllDrawn(ts, rs)
    requires Timed(ts, e.key) && Standing(ts, m, e) && Forward(clock)
    ensures var f := MergeBuckets(cfg, clock, tick, rs, m);
            Standing(ts, f.marks, e) && PassedOn(cfg, clock, tick, f.outs, rs, e)
  {
    hide MergeBucket, Find, Version, Contents, Timed, IsNewest, Unexpired, Forward, PassedOn, TickAfter;
    if rs != [] {
      var n := |rs| - 1;
      BucketsKeepLive(cfg, clock, tick, rs[..n], m, ts, e);
      var f := MergeBuckets(cfg, clock, tick, rs[..n], m);
      TicksOfMerges(cfg, clock, tick, rs[..n], m);
      BucketKeepsLive(cfg, clock, f.tick, rs[n], f.marks, ts, e);
      PassedOnMore(cfg, clock, tick, f.outs, MergeBucket(cfg, clock, f.tick, rs[n], f.marks).0, rs, n, e);
    } else {
      NothingPassedOn(cfg, clock, tick, e);
    }
  }

  lemma NothingPassedOn(cfg: Config, clock: nat -> nat, tick: nat, e: Entry)
    ensures PassedOn(cfg, clock, tick, [], [], e)
  {
  }

  lemma {:induction false} BucketsRead(cfg: Config, clock: nat -> nat, tick: nat, rs: seq<Removal>, m: Deletions,
                                       k: Key)
    requires AllMergeable(rs)
    ensures var outs := MergeBuckets(cfg, clock, tick, rs, m).outs;
            (forall i | 0 <= i < |rs| :: Sorted(outs[i])) &&
            (forall i | 0 <= i < |rs| ::
               Find(outs[i], k).Some? ==> Version(Contents(rs[i].tables), Find(outs[i], k).value))
  {
    hide MergeBucket, Find, Sorted, Contents, Version;
    if rs != [] {
      var n := |rs| - 1;
      BucketsRead(cfg, clock, tick, rs[..n], m, k);
      var f := MergeBuckets(cfg, clock, tick, rs[..n], m);
      MergedRead(cfg, clock, f.tick, rs[n], f.marks, k);
    }
  }

  lemma MergeIsSorted(cfg: Config, clock: nat -> nat, tick: nat, rs: seq<Removal>, m: Deletions, i: nat)
    requires AllMergeable(rs) && i < |rs|
    ensures Sorted(MergeBuckets(cfg, clock, tick, rs, m).outs[i])
  {
    hide MergeBuckets;
    BucketsRead(cfg, clock, tick, rs, m, []);
  }

  lemma BucketsFromInputs(cfg: Config, clock: nat -> nat, tick: nat, rs: seq<Removal>, m: Deletions, k: Key)
    requires RemovalsOk(rs)
    ensures var outs := MergeBuckets(cfg, clock, tick, rs, m).outs;
            (forall i | 0 <= i < |rs| :: Sorted(outs[i])) &&
            (forall i | 0 <= i < |rs| ::
               Find(outs[i], k).Some? ==> Holds(multiset(rs[i].tables), Find(outs[i], k).value))
  {
    hide MergeBuckets, Find, Holds, Sorted, Version, Contents;
    OkMergeable(rs);
    BucketsRead(cfg, clock, tick, rs, m, k);
    var outs := MergeBuckets(cfg, clock, tick, rs, m).outs;
    forall i | 0 <= i < |rs| && Find(outs[i], k).Some?
      ensures Holds(multiset(rs[i].tables), Find(outs[i], k).value)
    {
      ContentsOnDisk(rs[i].tables, Find(outs[i], k).value);
    }
  }

  lemma OkMergeable(rs: seq<Removal>)
    requires RemovalsOk(rs)
    ensures AllMergeable(rs)
  {
    hide Sorted;
    SortedEmpty();
    forall i, j | 0 <= i < |rs| && 0 <= j < |rs[i].tables|
      ensures Sorted(rs[i].tables[j].disk) && Sorted(rs[i].tables[j].mem)
    {
      assert TableOk(rs[i].tables[j]);
    }
  }

  // ---------------------------------------------------------------------
  // The state of a run

  /** Buckets, the registered key ranges by directory, and the next unused directory or bucket id. */
  datatype Sys = Sys(buckets: BucketSeq, ranges: map<nat, Sst>, nextId: nat)

  /** The registered directories are exactly those of the tables in the buckets. */
  ghost predicate Agree(s: Sys)
  {
    (forall t :: t in TablesOf(s.buckets) <==> t.dir in s.ranges && s.ranges[t.dir] == t) &&
    (forall d | d in s.ranges :: s.ranges[d].dir == d) &&
    (forall t :: TablesOf(s.buckets)[t] <= 1)
  }

  ghost predicate Valid(s: Sys)
  {
    Agree(s) && DistinctIds(s.buckets) && NonEmptyBuckets(s.buckets) &&
    (forall i | 0 <= i < |s.buckets| :: s.buckets[i].id < s.nextId) &&
    (forall t | t in TablesOf(s.buckets) :: TableOk(t) && t.dir < s.nextId)
  }

  function Fresh(s: Sys, out: seq<Entry>): (t: Sst) { Sst(s.nextId, out, []) }

  /** One merged or flushed table is written, put into a bucket, emptied in memory and registered. */
  function AddTable(s: Sys, out: seq<Entry>, size: nat): (s': Sys)
  {
    var t := Fresh(s, out);
    Sys(Insert(s.buckets, t, size, s.nextId), s.ranges[t.dir := t], s.nextId + 1)
  }

  /** A completed flush or insertion keeps the buckets and the key ranges in agreement. */
  lemma AddTableValid(s: Sys, out: seq<Entry>, size: nat)
    requires Valid(s) && Sorted(out)
    ensures Valid(AddTable(s, out, size))
    ensures TablesOf(AddTable(s, out, size).buckets) == TablesOf(s.buckets) + multiset{Fresh(s, out)}
  {
    hide Insert, TablesOf, Sorted;
    var t := Fresh(s, out);
    InsertAdds(s.buckets, t, size, s.nextId);
    InsertKeepsIds(s.buckets, t, size, s.nextId);
    var s' := AddTable(s, out, size);
    forall i | 0 <= i < |s'.buckets|
      ensures s'.buckets[i].id < s'.nextId
    {
      assert s'.buckets[i] in Insert(s.buckets, t, size, s.nextId);
    }
  }

  function AddTables(s: Sys, outs: seq<seq<Entry>>): (s': Sys)
  {
    if outs == [] then s else
    var n := |outs| - 1;
    AddTable(AddTables(s, outs[..n]), outs[n], SsTable.SizeOf(outs[n]))
  }

  function FreshAll(s: Sys, outs: seq<seq<Entry>>): (ts: seq<Sst>)
    ensures |ts| == |outs|
    ensures forall i | 0 <= i < |outs| :: ts[i] == Sst(s.nextId + i, outs[i], [])
  {
    seq(|outs|, i requires 0 <= i < |outs| => Sst(s.nextId + i, outs[i], []))
  }

  lemma {:induction false} AddTablesValid(s: Sys, outs: seq<seq<Entry>>)
    requires Valid(s) && forall i | 0 <= i < |outs| :: Sorted(outs[i])
    ensures Valid(AddTables(s, outs)) && AddTables(s, outs).nextId == s.nextId + |outs|
    ensures TablesOf(AddTables(s, outs).buckets) == TablesOf(s.buckets) + multiset(FreshAll(s, outs))
  {
    hide TablesOf, Valid, Sorted, Insert;
    if outs == [] {
      assert multiset(FreshAll(s, outs)) == multiset{};
    } else {
      var n := |outs| - 1;
      AddTablesValid(s, outs[..n]);
      var mid := AddTables(s, outs[..n]);
      AddTableValid(mid, outs[n], SsTable.SizeOf(outs[n]));
      assert FreshAll(s, outs) == FreshAll(s, outs[..n]) + [Fresh(mid, outs[n])];
      assert multiset(FreshAll(s, outs)) == multiset(FreshAll(s, outs[..n])) + multiset{Fresh(mid, outs[n])};
      UnionAssociative(TablesOf(s.buckets), multiset(FreshAll(s, outs[..n])), multiset{Fresh(mid, outs[n])});
    }
  }

  lemma UnionAssociative(a: multiset<Sst>, b: multiset<Sst>, c: multiset<Sst>)
    ensures (a + b) + c == a + (b + c)
  {
  }

  lemma {:induction false} AddTablesPending(s: Sys, outs: seq<seq<Entry>>, r: Removal)
    requires Pending(s.buckets, r)
    ensures Pending(AddTables(s, outs).buckets, r)
    decreases |outs|
  {
    hide Insert, Pending;
    if outs != [] {
      var n := |outs| - 1;
      AddTablesPending(s, outs[..n], r);
      var mid := AddTables(s, outs[..n]);
      InsertKeepsPending(mid.buckets, Fresh(mid, outs[n]), SsTable.SizeOf(outs[n]), mid.nextId, r);
    }
  }

  function DirsOf(rs: seq<Removal>): (ds: set<nat>)
  {
    set i, j | 0 <= i < |rs| && 0 <= j < |rs[i].tables| :: rs[i].tables[j].dir
  }

  /** `clean_up_after_compaction` */
  function CleanUp(s: Sys, rs: seq<Removal>): (s': Sys)
  {
    Sys(Delete(s.buckets, rs), s.ranges - DirsOf(rs), s.nextId)
  }

  lemma {:induction false} RemovedMember(rs: seq<Removal>, t: Sst)
    ensures t in Removed(rs) <==> exists i :: 0 <= i < |rs| && t in rs[i].tables
  {
    if rs != [] {
      var n := |rs| - 1;
      RemovedMember(rs[..n], t);
      if t in Removed(rs) && t !in rs[n].tables {
        var i :| 0 <= i < n && t in rs[..n][i].tables;
        assert t in rs[i].tables;
      }
      if exists i :: 0 <= i < |rs| && t in rs[i].tables {
        var i :| 0 <= i < |rs| && t in rs[i].tables;
        if i < n {
          assert t in rs[..n][i].tables;
        }
      }
    }
  }

  /** Clean-up removes exactly the extracted tables and leaves buckets and key ranges in agreement. */
  lemma CleanUpValid(s: Sys, rs: seq<Removal>)
    requires Valid(s) && AllPending(s.buckets, rs) && DistinctRemovals(rs)
    ensures Valid(CleanUp(s, rs))
    ensures TablesOf(CleanUp(s, rs).buckets) + Removed(rs) == TablesOf(s.buckets)
  {
    hide TablesOf, Removed, Delete, AllPending;
    DeleteRemovesExactly(s.buckets, rs);
    var s' := CleanUp(s, rs);
    var before, after, gone := TablesOf(s.buckets), TablesOf(s'.buckets), Removed(rs);
    forall t
      ensures t in gone <==> t in before && t.dir in DirsOf(rs)
    {
      RemovedMember(rs, t);
      assert (after + gone)[t] == before[t];
      if t in before && t.dir in DirsOf(rs) {
        var i, j :| 0 <= i < |rs| && 0 <= j < |rs[i].tables| && rs[i].tables[j].dir == t.dir;
        var u := rs[i].tables[j];
        RemovedMember(rs, u);
        assert u in gone && (after + gone)[u] == before[u];
        assert u == t;
      }
      if t in gone {
        var i :| 0 <= i < |rs| && t in rs[i].tables;
        var j :| 0 <= j < |rs[i].tables| && rs[i].tables[j] == t;
        assert t.dir in DirsOf(rs);
      }
    }
    forall t
      ensures t in after <==> t in before && t !in gone
      ensures after[t] <= 1
    {
      assert (after + gone)[t] == before[t] && before[t] <= 1;
    }
  }

  // ---------------------------------------------------------------------
  // One round

  datatype RunState = RunState(sys: Sys, marks: Deletions, tick: nat)

  function Removals(a: RunState): (rs: seq<Removal>) { ExtractAll(a.sys.buckets) }

  function Folded(cfg: Config, clock: nat -> nat, a: RunState): (f: Fold)
    requires Extracted(Removals(a))
    ensures |f.outs| == |Removals(a)|
  {
    MergeBuckets(cfg, clock, a.tick, Removals(a), a.marks)
  }

  /** The state after the first `j` merged tables were inserted. */
  function Inserted(cfg: Config, clock: nat -> nat, a: RunState, j: nat): (s: Sys)
    requires Extracted(Removals(a)) && j <= |Removals(a)|
  {
    AddTables(a.sys, Folded(cfg, clock, a).outs[..j])
  }

  /** The state after a whole round. */
  function AfterRound(cfg: Config, clock: nat -> nat, a: RunState): (b: RunState)
    requires Extracted(Removals(a))
  {
    var f := Folded(cfg, clock, a);
    RunState(CleanUp(AddTables(a.sys, f.outs), Removals(a)), f.marks, f.tick)
  }

  function Tables(a: RunState): (ts: multiset<Sst>) { TablesOf(a.sys.buckets) }

  lemma {:induction false} BucketWithin(bs: BucketSeq, i: nat)
    requires i < |bs|
    ensures multiset(bs[i].tables) <= TablesOf(bs)
    decreases |bs|
  {
    if i < |bs| - 1 {
      BucketWithin(bs[..|bs| - 1], i);
    }
  }

  lemma PrefixWithin(p: seq<Sst>, ts: seq<Sst>)
    requires p <= ts
    ensures multiset(p) <= multiset(ts)
  {
    SplitPrefix(ts, p);
  }

  /** What is extracted can be merged: four tables or more of each bucket, all held by the state. */
  lemma RemovalFacts(a: RunState)
    requires Valid(a.sys)
    ensures RemovalsOk(Removals(a)) && AllPending(a.sys.buckets, Removals(a)) && DistinctRemovals(Removals(a))
    ensures forall i | 0 <= i < |Removals(a)| :: multiset(Removals(a)[i].tables) <= Tables(a)
    ensures AllDrawn(Tables(a), Removals(a)) && AllMergeable(Removals(a))
    ensures Removals(a) == [] <==> IsBalanced(a.sys.buckets)
  {
    hide ExtractAll, TablesOf, TableOk;
    var bs, rs := a.sys.buckets, Removals(a);
    ExtractedArePending(bs);
    forall i | 0 <= i < |rs|
      ensures |rs[i].tables| >= MIN_THRESHOLD && TablesOk(rs[i].tables) && multiset(rs[i].tables) <= Tables(a)
    {
      assert rs[i] in rs && Pending(bs, rs[i]);
      var j :| 0 <= j < |bs| && bs[j].id == rs[i].id && rs[i].tables <= bs[j].tables;
      PrefixWithin(rs[i].tables, bs[j].tables);
      BucketWithin(bs, j);
      forall n | 0 <= n < |rs[i].tables|
        ensures TableOk(rs[i].tables[n])
      {
        assert rs[i].tables[n] in multiset(rs[i].tables);
      }
    }
    OkMergeable(rs);
    forall i | 0 <= i < |rs|
      ensures Drawn(Tables(a), rs[i])
    {
      BucketDrawn(Tables(a), rs[i]);
    }
  }

  lemma OutsSorted(cfg: Config, clock: nat -> nat, a: RunState)
    requires RemovalsOk(Removals(a))
    ensures forall i | 0 <= i < |Removals(a)| :: Sorted(Folded(cfg, clock, a).outs[i])
  {
    hide MergeBuckets;
    BucketsFromInputs(cfg, clock, a.tick, Removals(a), a.marks, []);
  }

  /** The tables inserted bring no version that was not there. */
  lemma InsertedNothingNew(cfg: Config, clock: nat -> nat, a: RunState, j: nat, k: Key)
    requires Valid(a.sys) && Extracted(Removals(a)) && j <= |Removals(a)|
    ensures Valid(Inserted(cfg, clock, a, j))
    ensures TablesOf(Inserted(cfg, clock, a, j).buckets)
         == Tables(a) + multiset(FreshAll(a.sys, Folded(cfg, clock, a).outs[..j]))
    ensures NothingNew(Tables(a), TablesOf(Inserted(cfg, clock, a, j).buckets), k)
  {
    hide MergeBuckets, TablesOf, AddTables, Sorted, Find, ExtractAll, Valid;
    var rs := Removals(a);
    RemovalFacts(a);
    OutsSorted(cfg, clock, a);
    var outs := Folded(cfg, clock, a).outs;
    AddTablesValid(a.sys, outs[..j]);
    BucketsFromInputs(cfg, clock, a.tick, rs, a.marks, k);
    var fresh' := FreshAll(a.sys, outs[..j]);
    forall t | t in Tables(a) + multiset(fresh')
      ensures Find(t.disk, k).Some? ==> Holds(Tables(a), Find(t.disk, k).value)
    {
      if Find(t.disk, k).Some? {
        FindKey(t.disk, k);
        if t !in Tables(a) {
          var i :| 0 <= i < |fresh'| && fresh'[i] == t;
          assert t.disk == outs[i];
          var u :| u in multiset(rs[i].tables) && Find(u.disk, k) == Find(t.disk, k);
          assert u in Tables(a);
        }
      }
    }
  }

  /** In every state of a round from extraction up to clean-up, a newest-wins search answers every
      key exactly as before the round. */
  lemma LookupDuringRound(cfg: Config, clock: nat -> nat, a: RunState, j: nat, k: Key, r: Option<Entry>)
    requires Valid(a.sys) && Timed(Tables(a), k) && Extracted(Removals(a)) && j <= |Removals(a)|
    ensures IsNewest(Tables(a), k, r) <==> IsNewest(TablesOf(Inserted(cfg, clock, a, j).buckets), k, r)
  {
    hide Folded, TablesOf, AddTables, Find, ExtractAll, Valid, FreshAll;
    InsertedNothingNew(cfg, clock, a, j, k);
    var ts, ts' := Tables(a), TablesOf(Inserted(cfg, clock, a, j).buckets);
    assert NothingNew(ts', ts, k) by {
      forall t | t in ts && Find(t.disk, k).Some?
        ensures Holds(ts', Find(t.disk, k).value)
      {
        FindKey(t.disk, k);
        assert t in ts';
      }
    }
    if IsNewest(ts, k, r) {
      if r.Some? {
        var t :| t in ts && Find(t.disk, k) == r;
        FindKey(t.disk, k);
      }
      NewestKept(ts, ts', k, r);
    }
    if IsNewest(ts', k, r) {
      if r.Some? {
        var t :| t in ts' && Find(t.disk, k) == r;
        FindKey(t.disk, k);
      }
      NewestKept(ts', ts, k, r);
    }
  }

  /** The merge has access to the version: it is in a table that stays, in the memory of the first
      table of an extracted bucket, or in the data file of another of its tables. */
  predicate Reached(a: RunState, e: Entry)
    requires Extracted(Removals(a))
  {
    (exists t | t in Tables(a) - Removed(Removals(a)) :: Find(t.disk, e.key) == Some(e)) ||
    (exists i :: 0 <= i < |Removals(a)| && Version(Contents(Removals(a)[i].tables), e))
  }

  lemma AfterRoundTables(cfg: Config, clock: nat -> nat, a: RunState)
    requires Valid(a.sys) && Extracted(Removals(a))
    ensures Valid(AfterRound(cfg, clock, a).sys)
    ensures Removed(Removals(a)) <= Tables(a)
    ensures Tables(AfterRound(cfg, clock, a))
         == Tables(a) - Removed(Removals(a)) + multiset(FreshAll(a.sys, Folded(cfg, clock, a).outs))
  {
    hide MergeBuckets, TablesOf, AddTables, Sorted, ExtractAll, Valid, FreshAll, Removed, Pending;
    var rs := Removals(a);
    var outs := Folded(cfg, clock, a).outs;
    RemovalFacts(a);
    assert outs[..|rs|] == outs;
    InsertedNothingNew(cfg, clock, a, |rs|, []);
    var s := AddTables(a.sys, outs);
    forall i | 0 <= i < |rs|
      ensures Pending(s.buckets, rs[i])
    {
      AddTablesPending(a.sys, outs, rs[i]);
    }
    CleanUpValid(s, rs);
    CleanUpValid(a.sys, rs);
    var before, gone, new_ := Tables(a), Removed(rs), multiset(FreshAll(a.sys, outs));
    assert gone <= before by {
      assert TablesOf(CleanUp(a.sys, rs).buckets) + gone == before;
    }
    RearrangeRound(TablesOf(CleanUp(s, rs).buckets), gone, before, new_);
  }

  lemma RearrangeRound(after: multiset<Sst>, gone: multiset<Sst>, before: multiset<Sst>, added: multiset<Sst>)
    requires after + gone == before + added && gone <= before
    ensures after == before - gone + added
  {
    forall t
      ensures after[t] == (before - gone + added)[t]
    {
      assert (after + gone)[t] == (before + added)[t];
    }
  }

  /** No version appears from nowhere, in particular a key without versions stays without. */
  lemma RoundNothingNew(cfg: Config, clock: nat -> nat, a: RunState, k: Key)
    requires Valid(a.sys) && Extracted(Removals(a))
    ensures NothingNew(Tables(a), Tables(AfterRound(cfg, clock, a)), k)
    ensures Timed(Tables(a), k) ==> Timed(Tables(AfterRound(cfg, clock, a)), k)
    ensures IsNewest(Tables(a), k, None) ==> IsNewest(Tables(AfterRound(cfg, clock, a)), k, None)
  {
    hide Folded, TablesOf, AddTables, Find, ExtractAll, Valid, FreshAll, Removed, AfterRound;
    var outs := Folded(cfg, clock, a).outs;
    AfterRoundTables(cfg, clock, a);
    InsertedNothingNew(cfg, clock, a, |Removals(a)|, k);
    assert outs[..|Removals(a)|] == outs;
    var ts, ts' := Tables(a), Tables(AfterRound(cfg, clock, a));
    forall t | t in ts'
      ensures t in ts + multiset(FreshAll(a.sys, outs))
    {
    }
    if Timed(ts, k) {
      TimedSubset(ts, ts', k);
    }
    if IsNewest(ts, k, None) {
      NewestKept(ts, ts', k, None);
    }
  }

  /** The version comes through the round: it is in a table that stays, or it is newer than the deletion on
      record and the merge of its bucket carries it. */
  predicate Carried(cfg: Config, clock: nat -> nat, a: RunState, e: Entry)
    requires Extracted(Removals(a))
  {
    Holds(Tables(a) - Removed(Removals(a)), e) ||
    (Passes(Recorded(a.marks, e.key), e) &&
     exists i :: 0 <= i < |Removals(a)| && Carries(cfg, clock, a.tick, Removals(a), i, e))
  }

  /** A version the merge reaches comes through when it has not expired at the end of the round. */
  lemma ReachedIsCarried(cfg: Config, clock: nat -> nat, a: RunState, e: Entry)
    requires Extracted(Removals(a)) && Reached(a, e) && Forward(clock)
    requires Unexpired(cfg, clock(AfterRound(cfg, clock, a).tick), e) && Passes(Recorded(a.marks, e.key), e)
    ensures Carried(cfg, clock, a, e)
  {
    hide Version, Contents, Find, CleanUp, AddTables, ExtractAll, MergeBuckets, TablesOf, Removed;
    var rs := Removals(a);
    if i :| 0 <= i < |rs| && Version(Contents(rs[i].tables), e) {
      TicksOfPrefix(a.tick, rs, i + 1);
      TicksOfMerges(cfg, clock, a.tick, rs, a.marks);
      assert clock(TickAfter(a.tick, rs[..i + 1]) - 1) <= clock(TickAfter(a.tick, rs));
      assert Carries(cfg, clock, a.tick, rs, i, e);
    }
  }

  lemma HeldAfterRound(cfg: Config, clock: nat -> nat, tick: nat, s: Sys, outs: seq<seq<Entry>>, rs: seq<Removal>,
                       stay: multiset<Sst>, e: Entry)
    requires Extracted(rs) && |outs| == |rs| && PassedOn(cfg, clock, tick, outs, rs, e)
    ensures Holds(stay + multiset(FreshAll(s, outs)), e) <==>
            Holds(stay, e) || exists i :: 0 <= i < |rs| && Carries(cfg, clock, tick, rs, i, e)
  {
    hide Find, Carries;
    var added := FreshAll(s, outs);
    var ts := stay + multiset(added);
    if Holds(ts, e) && !Holds(stay, e) {
      var t :| t in ts && Find(t.disk, e.key) == Some(e);
      var i :| 0 <= i < |added| && added[i] == t;
      assert t.disk == outs[i];
    }
    if i :| 0 <= i < |rs| && Carries(cfg, clock, tick, rs, i, e) {
      assert added[i].disk == outs[i] && added[i] in multiset(added);
      assert added[i] in ts;
    }
    if Holds(stay, e) {
      var t :| t in stay && Find(t.disk, e.key) == Some(e);
      assert t in ts;
    }
  }

  /** After clean-up a live newest version is still the newest version if and only if it comes through the
      round; and no deletion recorded meanwhile is as late as it. */
  lemma RoundKeepsLive(cfg: Config, clock: nat -> nat, a: RunState, e: Entry)
    requires Valid(a.sys) && Extracted(Removals(a)) && Timed(Tables(a), e.key)
    requires IsNewest(Tables(a), e.key, Some(e)) && !e.tomb && Forward(clock)
    ensures IsNewest(Tables(AfterRound(cfg, clock, a)), e.key, Some(e)) <==> Carried(cfg, clock, a, e)
    ensures Passes(Recorded(a.marks, e.key), e) <==> Passes(Recorded(AfterRound(cfg, clock, a).marks, e.key), e)
  {
    hide MergeBuckets, TablesOf, AddTables, Find, ExtractAll, Valid, Removed, Carries, CleanUp, Timed, TableOk,
         FreshAll, NothingNew, IsNewest, PassedOn;
    var rs := Removals(a);
    var outs := Folded(cfg, clock, a).outs;
    var ts, ts' := Tables(a), Tables(AfterRound(cfg, clock, a));
    RemovalFacts(a);
    AfterRoundTables(cfg, clock, a);
    if Passes(Recorded(a.marks, e.key), e) {
      BucketsKeepLive(cfg, clock, a.tick, rs, a.marks, ts, e);
      HeldAfterRound(cfg, clock, a.tick, a.sys, outs, rs, ts - Removed(rs), e);
    } else {
      assert rs[..0] == [];
      NoMerges(cfg, clock, a.tick, a.marks);
      BucketsRespectDeletion(cfg, clock, a.tick, rs, a.marks, ts, 0, e.key);
      NoneHeld(a.sys, outs, ts - Removed(rs), e);
    }
    RoundNothingNew(cfg, clock, a, e.key);
    if Holds(ts', e) {
      NewestKept(ts, ts', e.key, Some(e));
    } else if IsNewest(ts', e.key, Some(e)) {
      HoldsNewest(ts', e);
    }
  }

  lemma NoneHeld(s: Sys, outs: seq<seq<Entry>>, stay: multiset<Sst>, e: Entry)
    requires forall i | 0 <= i < |outs| :: Find(outs[i], e.key) != Some(e)
    ensures Holds(stay + multiset(FreshAll(s, outs)), e) <==> Holds(stay, e)
  {
    hide Find;
    var added := FreshAll(s, outs);
    var ts := stay + multiset(added);
    if Holds(stay, e) {
      var t :| t in stay && Find(t.disk, e.key) == Some(e);
      assert t in ts;
    }
  }

  lemma NoMerges(cfg: Config, clock: nat -> nat, tick: nat, m: Deletions)
    ensures MergeBuckets(cfg, clock, tick, [], m).marks == m
  {
  }

  // ---------------------------------------------------------------------
  // What a round leaves of any key

  /** What the merges of a round make of one key: the version in each merged table, and the deletion time
      on record afterwards. */
  datatype KeyFold = KeyFold(outs: seq<Option<Entry>>, mark: Option<nat>, tick: nat)

  function FoldBuckets(cfg: Config, clock: nat -> nat, tick: nat, rs: seq<Removal>, t: Option<nat>, k: Key)
      : (f: KeyFold)
    requires Extracted(rs)
    ensures |f.outs| == |rs|
  {
    if rs == [] then KeyFold([], t, tick) else
    var n := |rs| - 1;
    var f := FoldBuckets(cfg, clock, tick, rs[..n], t, k);
    var tables := rs[n].tables;
    var (x, t') := FoldKey(cfg, Readings(clock, f.tick, |tables| - 1), Find(tables[0].mem, k),
                           Finds(Disks(tables[1..]), k), f.mark);
    KeyFold(f.outs + [x], t', f.tick + |tables| - 1)
  }

  /** The round treats every key for itself. */
  lemma {:induction false} FoldBucketsAre(cfg: Config, clock: nat -> nat, tick: nat, rs: seq<Removal>, m: Deletions,
                                          k: Key)
    requires AllMergeable(rs)
    ensures var f, g := MergeBuckets(cfg, clock, tick, rs, m), FoldBuckets(cfg, clock, tick, rs, Recorded(m, k), k);
            Finds(f.outs, k) == g.outs && Recorded(f.marks, k) == g.mark && f.tick == g.tick
  {
    hide MergeAll, Find, Sorted, FoldKey, Readings;
    if rs != [] {
      var n := |rs| - 1;
      FoldBucketsAre(cfg, clock, tick, rs[..n], m, k);
      var f := MergeBuckets(cfg, clock, tick, rs[..n], m);
      var tables := rs[n].tables;
      TablesSorted(tables);
      FoldAtKey(cfg, Readings(clock, f.tick, |tables| - 1), tables[0].mem, Disks(tables[1..]), f.marks, k);
    }
  }

  /** The newest of some versions; at equal times the first. */
  function NewestOf(r: Option<Entry>, xs: seq<Option<Entry>>): (x: Option<Entry>)
  {
    if xs == [] then r else Newer(NewestOf(r, xs[..|xs| - 1]), xs[|xs| - 1])
  }

  lemma NewestAdded(ts: multiset<Sst>, t: Sst, k: Key, r: Option<Entry>)
    requires IsNewest(ts, k, r) && (Find(t.disk, k).Some? ==> Find(t.disk, k).value.time > 0)
    ensures IsNewest(ts + multiset{t}, k, Newer(r, Find(t.disk, k)))
  {
    hide Find;
    var ts' := ts + multiset{t};
    forall u
      ensures u in ts' <==> u in ts || u == t
    {
    }
    if r.Some? {
      var u :| u in ts && Find(u.disk, k) == r;
      assert u in ts';
    }
    assert t in ts';
  }

  lemma {:induction false} NewestAllAdded(ts: multiset<Sst>, added: seq<Sst>, k: Key, r: Option<Entry>)
    requires IsNewest(ts, k, r)
    requires forall i | 0 <= i < |added| :: Find(added[i].disk, k).Some? ==> Find(added[i].disk, k).value.time > 0
    ensures IsNewest(ts + multiset(added), k, NewestOf(r, Finds(Disks(added), k)))
  {
    hide Find, IsNewest;
    if added == [] {
      assert ts + multiset(added) == ts;
    } else {
      var n := |added| - 1;
      NewestAllAdded(ts, added[..n], k, r);
      assert Finds(Disks(added), k)[..n] == Finds(Disks(added[..n]), k);
      NewestAdded(ts + multiset(added[..n]), added[n], k, NewestOf(r, Finds(Disks(added[..n]), k)));
      assert added == added[..n] + [added[n]];
      assert ts + multiset(added) == ts + multiset(added[..n]) + multiset{added[n]};
    }
  }

  /** What a search finds after the round, when it finds `r` in the tables that stay. */
  function Outcome(cfg: Config, clock: nat -> nat, a: RunState, k: Key, r: Option<Entry>): (x: Option<Entry>)
    requires Extracted(Removals(a))
  {
    NewestOf(r, FoldBuckets(cfg, clock, a.tick, Removals(a), Recorded(a.marks, k), k).outs)
  }

  function Staying(a: RunState): (ts: multiset<Sst>) { Tables(a) - Removed(Removals(a)) }

  /** For every key, whatever the number of buckets and with expiry on or off: the exact outcome of a
      round, from what the tables hold before it. */
  lemma RoundExactly(cfg: Config, clock: nat -> nat, a: RunState, k: Key, r: Option<Entry>)
    requires Valid(a.sys) && Extracted(Removals(a)) && Timed(Tables(a), k) && IsNewest(Staying(a), k, r)
    ensures var x := Outcome(cfg, clock, a, k, r);
            IsNewest(Tables(AfterRound(cfg, clock, a)), k, x) &&
            (ReadsLive(Tables(AfterRound(cfg, clock, a)), k) <==> Live(x))
  {
    hide MergeBuckets, TablesOf, AddTables, Find, ExtractAll, Valid, Removed, CleanUp, TableOk, IsNewest, FoldBuckets,
         NothingNew, NewestOf;
    var rs := Removals(a);
    var outs := Folded(cfg, clock, a).outs;
    var added := FreshAll(a.sys, outs);
    var after := Tables(AfterRound(cfg, clock, a));
    RemovalFacts(a);
    AfterRoundTables(cfg, clock, a);
    RoundNothingNew(cfg, clock, a, k);
    FoldBucketsAre(cfg, clock, a.tick, rs, a.marks, k);
    assert Finds(Disks(added), k) == Finds(outs, k) by { FreshFinds(a.sys, outs, k); }
    forall i | 0 <= i < |added|
      ensures Find(added[i].disk, k).Some? ==> Find(added[i].disk, k).value.time > 0
    {
      assert added[i] in multiset(added) && added[i] in after;
    }
    NewestAllAdded(Staying(a), added, k, r);
    LiveOutcome(after, k, Outcome(cfg, clock, a, k, r));
  }

  lemma FreshFinds(s: Sys, outs: seq<seq<Entry>>, k: Key)
    ensures Finds(Disks(FreshAll(s, outs)), k) == Finds(outs, k)
  {
    hide Find;
  }

  lemma LiveOutcome(ts: multiset<Sst>, k: Key, x: Option<Entry>)
    requires Timed(ts, k) && IsNewest(ts, k, x)
    ensures ReadsLive(ts, k) <==> Live(x)
  {
    hide IsNewest, Timed;
    forall r | IsNewest(ts, k, r)
      ensures r == x
    {
      NewestUniqueIn(ts, k, r, x);
    }
  }

  // ---------------------------------------------------------------------
  // Whole runs

  /** Successive states of a run, each a round after the other; no merge was empty. */
  ghost predicate Run(cfg: Config, clock: nat -> nat, states: seq<RunState>)
  {
    states != [] && Valid(states[0].sys) &&
    forall i | 0 <= i < |states| - 1 ::
      Extracted(Removals(states[i])) && Removals(states[i]) != [] &&
      states[i + 1] == AfterRound(cfg, clock, states[i])
  }

  lemma {:induction false} RunValid(cfg: Config, clock: nat -> nat, states: seq<RunState>, i: nat)
    requires Run(cfg, clock, states) && i < |states|
    ensures Valid(states[i].sys)
  {
    hide AfterRound, Valid, Extracted, Removals;
    if i > 0 {
      RunValid(cfg, clock, states, i - 1);
      assert states[i - 1 + 1] == AfterRound(cfg, clock, states[i - 1]);
      AfterRoundTables(cfg, clock, states[i - 1]);
    }
  }

  lemma {:induction false} RunTimed(cfg: Config, clock: nat -> nat, states: seq<RunState>, i: nat, k: Key)
    requires Run(cfg, clock, states) && i < |states| && Timed(Tables(states[0]), k)
    ensures Timed(Tables(states[i]), k)
  {
    hide AfterRound, Valid, Extracted, Removals, Timed, Tables;
    if i > 0 {
      RunTimed(cfg, clock, states, i - 1, k);
      RunValid(cfg, clock, states, i - 1);
      assert states[i - 1 + 1] == AfterRound(cfg, clock, states[i - 1]);
      RoundNothingNew(cfg, clock, states[i - 1], k);
    }
  }

  /** The first table of every extracted bucket has the key loaded as it is on disk. */
  predicate FirstLoaded(a: RunState, k: Key)
    requires Extracted(Removals(a))
  {
    forall i | 0 <= i < |Removals(a)| ::
      Find(Removals(a)[i].tables[0].mem, k) == Find(Removals(a)[i].tables[0].disk, k)
  }

  lemma LoadedIsReached(a: RunState, e: Entry)
    requires Extracted(Removals(a)) && Holds(Tables(a), e) && FirstLoaded(a, e.key)
    ensures Reached(a, e)
  {
    hide Tables, Find, Removals, Removed;
    var rs := Removals(a);
    var t :| t in Tables(a) && Find(t.disk, e.key) == Some(e);
    if t !in Tables(a) - Removed(rs) {
      assert t in Removed(rs);
      RemovedMember(rs, t);
      var i :| 0 <= i < |rs| && t in rs[i].tables;
      var j :| 0 <= j < |rs[i].tables| && rs[i].tables[j] == t;
      var c := Contents(rs[i].tables);
      if j > 0 {
        assert c[j] == rs[i].tables[1..][j - 1].disk == t.disk;
      }
      assert Find(c[j], e.key) == Some(e);
    }
  }

  lemma {:induction false} RunTicks(cfg: Config, clock: nat -> nat, states: seq<RunState>, i: nat, j: nat)
    requires Run(cfg, clock, states) && i <= j < |states|
    ensures states[i].tick <= states[j].tick
    decreases j
  {
    hide MergeBuckets, CleanUp, AddTables, Valid, ExtractAll;
    if i < j {
      RunTicks(cfg, clock, states, i, j - 1);
      var a := states[j - 1];
      assert states[j - 1 + 1] == AfterRound(cfg, clock, a);
      TicksOfMerges(cfg, clock, a.tick, Removals(a), a.marks);
    }
  }

  lemma {:induction false} RunHolds(cfg: Config, clock: nat -> nat, states: seq<RunState>, i: nat, j: nat, e: Entry)
    requires Run(cfg, clock, states) && i <= j < |states| && Holds(Tables(states[j]), e)
    ensures Holds(Tables(states[i]), e)
    decreases j
  {
    hide AfterRound, Valid, Extracted, Removals, Tables;
    if i < j {
      RunValid(cfg, clock, states, j - 1);
      assert states[j - 1 + 1] == AfterRound(cfg, clock, states[j - 1]);
      RoundNothingNew(cfg, clock, states[j - 1], e.key);
      RunHolds(cfg, clock, states, i, j - 1, e);
    }
  }

  /** Over a whole run, whatever the number of rounds: a live newest version is still the newest version
      if and only if it has come through every round so far. */
  lemma {:induction false} RunKeepsLive(cfg: Config, clock: nat -> nat, states: seq<RunState>, i: nat, e: Entry)
    requires Run(cfg, clock, states) && i < |states| && Forward(clock)
    requires Timed(Tables(states[0]), e.key) && Standing(Tables(states[0]), states[0].marks, e)
    requires forall j | 0 <= j < |states| - 1 :: Extracted(Removals(states[j]))
    ensures Standing(Tables(states[i]), states[i].marks, e) <==>
            forall j | 0 <= j < i :: Carried(cfg, clock, states[j], e)
    ensures Standing(Tables(states[i]), states[i].marks, e) <==> IsNewest(Tables(states[i]), e.key, Some(e))
  {
    hide AfterRound, Valid, Extracted, Removals, Timed, Tables, Find, Carried, IsNewest;
    if i > 0 {
      var a := states[i - 1];
      RunKeepsLive(cfg, clock, states, i - 1, e);
      RunValid(cfg, clock, states, i - 1);
      RunTimed(cfg, clock, states, i - 1, e.key);
      assert states[i - 1 + 1] == AfterRound(cfg, clock, a);
      if Standing(Tables(a), a.marks, e) {
        RoundKeepsLive(cfg, clock, a, e);
      } else if IsNewest(Tables(states[i]), e.key, Some(e)) {
        HoldsNewest(Tables(states[i]), e);
        RunHolds(cfg, clock, states, 0, i, e);
        RunHolds(cfg, clock, states, i - 1, i, e);
        RunNothingNew(cfg, clock, states, i - 1, e.key);
        NewestKept(Tables(states[0]), Tables(a), e.key, Some(e));
      }
    }
  }

  lemma {:induction false} RunNothingNew(cfg: Config, clock: nat -> nat, states: seq<RunState>, i: nat, k: Key)
    requires Run(cfg, clock, states) && i < |states|
    ensures NothingNew(Tables(states[0]), Tables(states[i]), k)
  {
    hide Valid, Extracted, Removals, Tables, AfterRound;
    forall t | t in Tables(states[i]) && Find(t.disk, k).Some?
      ensures Holds(Tables(states[0]), Find(t.disk, k).value)
    {
      FindKey(t.disk, k);
      RunHolds(cfg, clock, states, 0, i, Find(t.disk, k).value);
    }
  }

  /** In particular when in every round the first tables have the key loaded and the version has not
      expired at the end of the run. */
  lemma LoadedRunKeepsLive(cfg: Config, clock: nat -> nat, states: seq<RunState>, i: nat, e: Entry)
    requires Run(cfg, clock, states) && i < |states| && Forward(clock)
    requires Unexpired(cfg, clock(states[|states| - 1].tick), e)
    requires Timed(Tables(states[0]), e.key) && Standing(Tables(states[0]), states[0].marks, e)
    requires forall j | 0 <= j < |states| - 1 :: Extracted(Removals(states[j])) && FirstLoaded(states[j], e.key)
    ensures Standing(Tables(states[i]), states[i].marks, e)
  {
    hide AfterRound, Valid, Extracted, Removals, Timed, Tables, FirstLoaded, Reached, Find, Carried, IsNewest;
    RunKeepsLive(cfg, clock, states, i, e);
    if i > 0 {
      LoadedRunKeepsLive(cfg, clock, states, i - 1, e);
      RunKeepsLive(cfg, clock, states, i - 1, e);
      var a := states[i - 1];
      assert states[i - 1 + 1] == AfterRound(cfg, clock, a);
      HoldsNewest(Tables(a), e);
      LoadedIsReached(a, e);
      RunTicks(cfg, clock, states, i, |states| - 1);
      assert clock(states[i].tick) <= clock(states[|states| - 1].tick);
      ReachedIsCarried(cfg, clock, a, e);
    }
  }

  /** A key without versions has none in any state of the run. */
  lemma {:induction false} RunKeepsAbsent(cfg: Config, clock: nat -> nat, states: seq<RunState>, i: nat, k: Key)
    requires Run(cfg, clock, states) && i < |states| && IsNewest(Tables(states[0]), k, None)
    ensures IsNewest(Tables(states[i]), k, None)
  {
    hide AfterRound, Valid, Extracted, Removals, Tables, IsNewest;
    if i > 0 {
      RunKeepsAbsent(cfg, clock, states, i - 1, k);
      RunValid(cfg, clock, states, i - 1);
      assert states[i - 1 + 1] == AfterRound(cfg, clock, states[i - 1]);
      RoundNothingNew(cfg, clock, states[i - 1], k);
    }
  }

  // ---------------------------------------------------------------------
  // Deletions recorded during a run

  /** A live version is newer than the recorded deletion. */
  predicate Respects(x: Option<Entry>, m: Deletions, k: Key) { k in m && Live(x) ==> x.value.time > m[k] }

  /** The merge of a bucket takes the recorded time of a key forward only, and emits no live version written
      at or before it. */
  lemma BucketRespectsDeletion(cfg: Config, clock: nat -> nat, tick: nat, r: Removal, m: Deletions,
                               ts: multiset<Sst>, k: Key)
    requires |r.tables| > 1 && Drawn(ts, r) && Timed(ts, k) && Forward(clock)
    ensures var (out, m') := MergeBucket(cfg, clock, tick, r, m);
            NotBefore(Recorded(m', k), Recorded(m, k)) && Respects(Find(out, k), m, k)
  {
    hide MergeAll, Find, Contents, Timed, Sorted, AllSorted, NonDecreasing, Readings;
    var tables := r.tables;
    TablesSorted(tables);
    ReadingsForward(clock, tick, |tables| - 1);
    ContentsConsistent(ts, r, k);
    assert Contents(tables) == [tables[0].mem] + Disks(tables[1..]) by { ContentsAre(tables); }
    DeletionIsFinal(cfg, Readings(clock, tick, |tables| - 1), tables[0].mem, Disks(tables[1..]), m, k);
  }

  /** What is on record after the first `b` buckets of a round binds every bucket after them. */
  lemma {:induction false} BucketsRespectDeletion(cfg: Config, clock: nat -> nat, tick: nat, rs: seq<Removal>,
                                                  m: Deletions, ts: multiset<Sst>, b: nat, k: Key)
    requires AllDrawn(ts, rs) && b <= |rs|
    requires Timed(ts, k) && Forward(clock)
    ensures var f, g := MergeBuckets(cfg, clock, tick, rs, m), MergeBuckets(cfg, clock, tick, rs[..b], m);
            NotBefore(Recorded(f.marks, k), Recorded(g.marks, k)) &&
            forall i | b <= i < |rs| :: Respects(Find(f.outs[i], k), g.marks, k)
    decreases |rs|
  {
    hide MergeBucket, MergeBuckets, Find, Timed, Forward, Respects, NotBefore;
    if b == |rs| {
      assert rs[..b] == rs;
      SameRecord(Recorded(MergeBuckets(cfg, clock, tick, rs, m).marks, k));
    } else {
      var n := |rs| - 1;
      assert rs[..n][..b] == rs[..b] && rs[..n + 1] == rs;
      BucketsRespectDeletion(cfg, clock, tick, rs[..n], m, ts, b, k);
      var f, g := MergeBuckets(cfg, clock, tick, rs[..n], m), MergeBuckets(cfg, clock, tick, rs[..b], m);
      BucketRespectsDeletion(cfg, clock, f.tick, rs[n], f.marks, ts, k);
      OneMoreBucket(cfg, clock, tick, rs, m, n);
      var (out, m') := MergeBucket(cfg, clock, f.tick, rs[n], f.marks);
      RespectsEarlier(Find(out, k), m', f.marks, g.marks, k);
    }
  }

  lemma SameRecord(t: Option<nat>)
    ensures NotBefore(t, t)
  {
  }

  lemma RespectsEarlier(x: Option<Entry>, m2: Deletions, m1: Deletions, m0: Deletions, k: Key)
    requires NotBefore(Recorded(m2, k), Recorded(m1, k)) && NotBefore(Recorded(m1, k), Recorded(m0, k))
    requires Respects(x, m1, k)
    ensures NotBefore(Recorded(m2, k), Recorded(m0, k)) && Respects(x, m0, k)
  {
  }

  lemma TablesSorted(ts: seq<Sst>)
    requires ts != [] && Mergeable(ts)
    ensures Sorted(ts[0].mem) && AllSorted(Disks(ts[1..]))
  {
    hide Sorted;
  }

  lemma ContentsAre(ts: seq<Sst>)
    requires ts != []
    ensures Contents(ts) == [ts[0].mem] + Disks(ts[1..])
  {
  }

  /** What is on record after the first `b` buckets of the round of `a`. */
  function MarksAt(cfg: Config, clock: nat -> nat, a: RunState, b: nat): (m: Deletions)
    requires Extracted(Removals(a)) && b <= |Removals(a)|
  {
    MergeBuckets(cfg, clock, a.tick, Removals(a)[..b], a.marks).marks
  }

  lemma MarksAtEnds(cfg: Config, clock: nat -> nat, a: RunState)
    requires Extracted(Removals(a))
    ensures MarksAt(cfg, clock, a, 0) == a.marks
    ensures MarksAt(cfg, clock, a, |Removals(a)|) == AfterRound(cfg, clock, a).marks
  {
    hide MergeBucket, CleanUp, AddTables, ExtractAll;
    var rs := Removals(a);
    assert rs[..0] == [] && rs[..|rs|] == rs;
  }

  /** Within one round: from bucket to bucket the record only moves forward, and binds what comes after. */
  lemma RoundRespectsDeletion(cfg: Config, clock: nat -> nat, a: RunState, b: nat, c: nat, k: Key)
    requires Valid(a.sys) && Extracted(Removals(a)) && Timed(Tables(a), k) && Forward(clock) && b <= c <= |Removals(a)|
    ensures NotBefore(Recorded(MarksAt(cfg, clock, a, c), k), Recorded(MarksAt(cfg, clock, a, b), k))
    ensures c < |Removals(a)| && k in MarksAt(cfg, clock, a, b) ==>
              var x := Find(Folded(cfg, clock, a).outs[c], k); Live(x) ==> x.value.time > MarksAt(cfg, clock, a, b)[k]
  {
    hide MergeBuckets, Find, Valid, Timed, Tables, ExtractAll;
    var rs := Removals(a);
    RemovalFacts(a);
    assert rs[..c][..b] == rs[..b];
    BucketsRespectDeletion(cfg, clock, a.tick, rs[..c], a.marks, Tables(a), b, k);
    BucketsRespectDeletion(cfg, clock, a.tick, rs, a.marks, Tables(a), b, k);
  }

  /** The point after the first `b` buckets of round `i` is not after the point before bucket `c` of round
      `j`. */
  predicate Precedes(i: nat, b: nat, j: nat, c: nat) { i < j || (i == j && b <= c) }

  /** Over a whole run the recorded time of a key never moves back, from bucket to bucket and from round to
      round. */
  lemma {:induction false} RunMarks(cfg: Config, clock: nat -> nat, states: seq<RunState>, i: nat, b: nat, j: nat,
                                    c: nat, k: Key)
    requires Run(cfg, clock, states) && i < |states| && j < |states| && Timed(Tables(states[0]), k) && Forward(clock)
    requires Extracted(Removals(states[i])) && b <= |Removals(states[i])|
    requires Extracted(Removals(states[j])) && c <= |Removals(states[j])| && Precedes(i, b, j, c)
    ensures NotBefore(Recorded(MarksAt(cfg, clock, states[j], c), k), Recorded(MarksAt(cfg, clock, states[i], b), k))
    decreases j, c
  {
    hide MarksAt, AfterRound, Valid, Timed, Tables, Removals, Extracted;
    RunValid(cfg, clock, states, j);
    RunTimed(cfg, clock, states, j, k);
    if i == j {
      RoundRespectsDeletion(cfg, clock, states[j], b, c, k);
    } else {
      var a := states[j - 1];
      assert states[j - 1 + 1] == AfterRound(cfg, clock, a);
      MarksAtEnds(cfg, clock, a);
      MarksAtEnds(cfg, clock, states[j]);
      RunMarks(cfg, clock, states, i, b, j - 1, |Removals(a)|, k);
      RoundRespectsDeletion(cfg, clock, states[j], 0, c, k);
    }
  }

  /** Once the merge of some bucket has recorded a deletion of `k`, no later merge, in any later bucket of the
      same round or in any bucket of any later round, emits a live version of `k` written at or before it. */
  lemma RunRespectsDeletion(cfg: Config, clock: nat -> nat, states: seq<RunState>, i: nat, b: nat, j: nat, c: nat,
                            k: Key)
    requires Run(cfg, clock, states) && i < |states| && j < |states| && Timed(Tables(states[0]), k) && Forward(clock)
    requires Extracted(Removals(states[i])) && b <= |Removals(states[i])|
    requires Extracted(Removals(states[j])) && c < |Removals(states[j])| && Precedes(i, b, j, c)
    requires k in MarksAt(cfg, clock, states[i], b)
    ensures var x := Find(Folded(cfg, clock, states[j]).outs[c], k);
            Live(x) ==> x.value.time > MarksAt(cfg, clock, states[i], b)[k]
  {
    hide MarksAt, Folded, Find, Valid, Timed, Tables, Removals, Extracted, AfterRound;
    RunValid(cfg, clock, states, j);
    RunTimed(cfg, clock, states, j, k);
    RunMarks(cfg, clock, states, i, b, j, c, k);
    RoundRespectsDeletion(cfg, clock, states[j], c, c, k);
  }

  // ---------------------------------------------------------------------
  // Counting tables

  lemma {:induction false} RemovedCount(rs: seq<Removal>)
    requires Extracted(rs)
    ensures |Removed(rs)| >= MIN_THRESHOLD * |rs|
  {
    if rs != [] {
      RemovedCount(rs[..|rs| - 1]);
    }
  }

  /** A round lowers the number of tables by at least three for every bucket it extracts. */
  lemma RoundShrinks(cfg: Config, clock: nat -> nat, a: RunState)
    requires Valid(a.sys) && Extracted(Removals(a))
    ensures |Tables(AfterRound(cfg, clock, a))| + 3 * |Removals(a)| <= |Tables(a)|
  {
    hide MergeBuckets, TablesOf, AddTables, ExtractAll, Valid, Removed, CleanUp;
    AfterRoundTables(cfg, clock, a);
    RemovedCount(Removals(a));
    var ts, gone := Tables(a), Removed(Removals(a));
    assert ts == ts - gone + gone;
  }

  /** So a run has at most a third as many rounds as there were tables. */
  lemma {:induction false} RunIsShort(cfg: Config, clock: nat -> nat, states: seq<RunState>, i: nat)
    requires Run(cfg, clock, states) && i < |states|
    ensures |Tables(states[i])| + 3 * i <= |Tables(states[0])|
  {
    hide AfterRound, Valid, Extracted, Removals, Tables;
    if i > 0 {
      RunIsShort(cfg, clock, states, i - 1);
      RunValid(cfg, clock, states, i - 1);
      assert states[i - 1 + 1] == AfterRound(cfg, clock, states[i - 1]);
      RoundShrinks(cfg, clock, states[i - 1]);
    }
  }

  // ---------------------------------------------------------------------
  // Deleted keys

  /** A newest-wins search finds a live version of `k`. */
  ghost predicate ReadsLive(ts: multiset<Sst>, k: Key)
  {
    exists r :: IsNewest(ts, k, r) && Live(r)
  }

  /** The deletion marker comes through the merge of its bucket: it is newer than the deletion on
      record, only the last table holds it, and it has not expired at the last merge. */
  predicate MarkerKept(cfg: Config, now: nat, m: Deletions, ts: seq<Sst>, e: Entry)
    requires ts != []
  {
    Passes(Recorded(m, e.key), e) && !Version(Contents(ts)[..|ts| - 1], e) && !Expired(e, cfg.tombstoneTtl, now)
  }

  lemma BucketAndMarker(cfg: Config, clock: nat -> nat, tick: nat, r: Removal, m: Deletions, ts: multiset<Sst>,
                        e: Entry)
    requires |r.tables| > 2 && Drawn(ts, r) && Timed(ts, e.key)
    requires IsNewest(ts, e.key, Some(e)) && e.tomb && Version(Contents(r.tables), e)
    requires Forward(clock)
    ensures Find(MergeBucket(cfg, clock, tick, r, m).0, e.key)
         == if MarkerKept(cfg, clock(tick + |r.tables| - 2), m, r.tables, e) then Some(e) else None
  {
    hide MergeAll, Sorted, Find, Newest, Version, KeyState;
    var tables := r.tables;
    var n := |tables| - 1;
    var nows := Readings(clock, tick, n);
    ReadingsForward(clock, tick, n);
    TablesSorted(tables);
    ContentsConsistent(ts, r, e.key);
    NewestOfContents(ts, r, e);
    FoldOutcome(cfg, nows, tables[0].mem, Disks(tables[1..]), m, e.key);
    assert Contents(tables)[..n] == [tables[0].mem] + Disks(tables[1..])[..n - 1];
    assert nows[|nows| - 1] == clock(tick + n - 1);
  }

  /** A bucket whose merge reads the marker emits it or nothing, and records its time; and a bucket merged
      when that time is on record emits nothing. */
  lemma BucketAfterMarker(cfg: Config, clock: nat -> nat, tick: nat, r: Removal, m: Deletions, ts: multiset<Sst>,
                          e: Entry)
    requires |r.tables| > 2 && Drawn(ts, r) && Timed(ts, e.key)
    requires IsNewest(ts, e.key, Some(e)) && e.tomb && Forward(clock)
    requires Version(Contents(r.tables), e) || !Passes(Recorded(m, e.key), e)
    ensures var (out, m') := MergeBucket(cfg, clock, tick, r, m);
            !Passes(Recorded(m', e.key), e) && (Find(out, e.key) == None || Find(out, e.key) == Some(e))
  {
    hide MergeAll, Sorted, Find, Newest, Version;
    var tables := r.tables;
    var n := |tables| - 1;
    var nows := Readings(clock, tick, n);
    ReadingsForward(clock, tick, n);
    TablesSorted(tables);
    ContentsConsistent(ts, r, e.key);
    NewestOfContents(ts, r, e);
    FoldState(cfg, nows, tables[0].mem, Disks(tables[1..]), m, e.key);
    FoldOutcome(cfg, nows, tables[0].mem, Disks(tables[1..]), m, e.key);
  }

  /** From the first bucket that reads the marker on, the merged tables hold the marker or nothing. */
  lemma {:induction false} BucketsAfterMarker(cfg: Config, clock: nat -> nat, tick: nat, rs: seq<Removal>, m: Deletions,
                                              ts: multiset<Sst>, e: Entry, j: nat)
    requires AllDrawn(ts, rs) && j < |rs|
    requires Timed(ts, e.key) && IsNewest(ts, e.key, Some(e)) && e.tomb && Forward(clock)
    requires Version(Contents(rs[j].tables), e)
    ensures var f := MergeBuckets(cfg, clock, tick, rs, m);
            !Passes(Recorded(f.marks, e.key), e) &&
            forall i | j <= i < |rs| :: Find(f.outs[i], e.key) == None || Find(f.outs[i], e.key) == Some(e)
  {
    hide MergeBucket, Find, Version, Contents, Timed, IsNewest, Forward, Passes;
    var n := |rs| - 1;
    var f := MergeBuckets(cfg, clock, tick, rs[..n], m);
    if j < n {
      BucketsAfterMarker(cfg, clock, tick, rs[..n], m, ts, e, j);
    }
    BucketAfterMarker(cfg, clock, f.tick, rs[n], f.marks, ts, e);
  }

  lemma {:induction false} NewestOfNothing(r: Option<Entry>, xs: seq<Option<Entry>>, j: nat)
    requires j <= |xs| && forall i | j <= i < |xs| :: xs[i] == None
    ensures NewestOf(r, xs) == NewestOf(r, xs[..j])
    decreases |xs|
  {
    if j == |xs| {
      assert xs[..j] == xs;
    } else {
      assert xs[..|xs| - 1][..j] == xs[..j];
      NewestOfNothing(r, xs[..|xs| - 1], j);
    }
  }

  /** Bucket `j` is the first whose merge reads the version; `j` is their number if none does. */
  predicate FirstReads(rs: seq<Removal>, e: Entry, j: nat)
    requires Extracted(rs)
  {
    j <= |rs| && (forall i | 0 <= i < j :: !Version(Contents(rs[i].tables), e)) &&
    (j < |rs| ==> Version(Contents(rs[j].tables), e))
  }

  /** A bucket that does not read the marker leaves it newer than what is on record, if it was. */
  lemma BucketBeforeMarker(cfg: Config, clock: nat -> nat, tick: nat, r: Removal, m: Deletions, ts: multiset<Sst>,
                           e: Entry)
    requires |r.tables| > 1 && Drawn(ts, r) && Timed(ts, e.key)
    requires IsNewest(ts, e.key, Some(e)) && !Version(Contents(r.tables), e) && Forward(clock)
    ensures var (out, m') := MergeBucket(cfg, clock, tick, r, m);
            (Passes(Recorded(m', e.key), e) <==> Passes(Recorded(m, e.key), e)) && Find(out, e.key) != Some(e)
  {
    hide MergeAll, Sorted, Find, Newest, Version;
    var tables := r.tables;
    var nows := Readings(clock, tick, |tables| - 1);
    ReadingsForward(clock, tick, |tables| - 1);
    TablesSorted(tables);
    ContentsConsistent(ts, r, e.key);
    NewestOfContents(ts, r, e);
    FoldState(cfg, nows, tables[0].mem, Disks(tables[1..]), m, e.key);
    MergedRead(cfg, clock, tick, r, m, e.key);
  }

  lemma {:induction false} BucketsBeforeMarker(cfg: Config, clock: nat -> nat, tick: nat, rs: seq<Removal>,
                                               m: Deletions, ts: multiset<Sst>, e: Entry)
    requires AllDrawn(ts, rs)
    requires Timed(ts, e.key) && IsNewest(ts, e.key, Some(e)) && Forward(clock)
    requires forall i | 0 <= i < |rs| :: !Version(Contents(rs[i].tables), e)
    ensures var f := MergeBuckets(cfg, clock, tick, rs, m);
            (Passes(Recorded(f.marks, e.key), e) <==> Passes(Recorded(m, e.key), e)) &&
            forall i | 0 <= i < |rs| :: Find(f.outs[i], e.key) != Some(e)
  {
    hide MergeBucket, Find, Version, Contents, Timed, IsNewest, Forward, Passes;
    if rs != [] {
      var n := |rs| - 1;
      BucketsBeforeMarker(cfg, clock, tick, rs[..n], m, ts, e);
      var f := MergeBuckets(cfg, clock, tick, rs[..n], m);
      BucketBeforeMarker(cfg, clock, f.tick, rs[n], f.marks, ts, e);
    }
  }

  lemma {:induction false} OutsOfPrefix(cfg: Config, clock: nat -> nat, tick: nat, rs: seq<Removal>, m: Deletions,
                                        n: nat)
    requires Extracted(rs) && n <= |rs|
    ensures MergeBuckets(cfg, clock, tick, rs[..n], m).outs == MergeBuckets(cfg, clock, tick, rs, m).outs[..n]
    decreases |rs|
  {
    hide MergeBucket;
    if n == |rs| {
      assert rs[..n] == rs;
    } else {
      assert rs[..|rs| - 1][..n] == rs[..n];
      OutsOfPrefix(cfg, clock, tick, rs[..|rs| - 1], m, n);
    }
  }

  /** The marker is newer than what is on record when the round begins, only the last table of the first
      bucket that reads it holds it there, and it has not expired at the last merge of that bucket. */
  predicate MarkerComesThrough(cfg: Config, clock: nat -> nat, a: RunState, e: Entry, j: nat)
    requires Extracted(Removals(a)) && j <= |Removals(a)|
  {
    var rs := Removals(a);
    j < |rs| && MarkerKept(cfg, clock(TickAfter(a.tick, rs[..j + 1]) - 1), a.marks, rs[j].tables, e)
  }

  /** Whether a merged table holds the marker, from the tables before the round: only the first bucket that
      reads it can pass it on. */
  lemma MarkerAfterRound(cfg: Config, clock: nat -> nat, a: RunState, e: Entry, j: nat)
    requires Valid(a.sys) && Extracted(Removals(a)) && Timed(Tables(a), e.key) && Forward(clock)
    requires IsNewest(Tables(a), e.key, Some(e)) && e.tomb && FirstReads(Removals(a), e, j)
    ensures Some(e) in Finds(Folded(cfg, clock, a).outs, e.key) <==> MarkerComesThrough(cfg, clock, a, e, j)
  {
    hide MergeBuckets, TablesOf, Find, ExtractAll, Valid, IsNewest, Version, Contents, Timed, MarkerKept, TickAfter,
         Forward, Passes;
    var rs := Removals(a);
    var outs := Folded(cfg, clock, a).outs;
    RemovalFacts(a);
    var g := MergeBuckets(cfg, clock, a.tick, rs[..j], a.marks);
    BucketsBeforeMarker(cfg, clock, a.tick, rs[..j], a.marks, Tables(a), e);
    OutsOfPrefix(cfg, clock, a.tick, rs, a.marks, j);
    assert forall i | 0 <= i < j :: outs[i] == outs[..j][i];
    if j < |rs| {
      FirstReader(cfg, clock, a.tick, rs, a.marks, Tables(a), e, j);
      var x := Find(outs[j], e.key);
      if x == Some(e) {
        assert Finds(outs, e.key)[j] == Some(e);
      }
    }
  }

  /** Bucket `j` passes the marker on exactly when it is kept, and later buckets emit nothing of the key. */
  predicate OnlyFrom(cfg: Config, clock: nat -> nat, tick: nat, rs: seq<Removal>, outs: seq<seq<Entry>>, m: Deletions,
                     e: Entry, j: nat)
    requires Extracted(rs) && |outs| == |rs| && j < |rs|
  {
    (Find(outs[j], e.key) == Some(e) <==>
     MarkerKept(cfg, clock(TickAfter(tick, rs[..j + 1]) - 1), m, rs[j].tables, e)) &&
    forall i | j < i < |rs| :: Find(outs[i], e.key) == None
  }

  /** The first bucket that reads the marker passes it on or drops it, and no later bucket holds it. */
  lemma FirstReader(cfg: Config, clock: nat -> nat, tick: nat, rs: seq<Removal>, m: Deletions, ts: multiset<Sst>,
                    e: Entry, j: nat)
    requires AllDrawn(ts, rs) && j < |rs|
    requires Timed(ts, e.key) && IsNewest(ts, e.key, Some(e)) && e.tomb && Forward(clock) && FirstReads(rs, e, j)
    ensures OnlyFrom(cfg, clock, tick, rs, MergeBuckets(cfg, clock, tick, rs, m).outs, m, e, j)
  {
    hide MergeBucket, MergeBuckets, Find, IsNewest, Version, Contents, Timed, Forward;
    var g := MergeBuckets(cfg, clock, tick, rs[..j], m);
    BucketsBeforeMarker(cfg, clock, tick, rs[..j], m, ts, e);
    TicksOfMerges(cfg, clock, tick, rs[..j], m);
    BucketAndMarker(cfg, clock, g.tick, rs[j], g.marks, ts, e);
    OneMoreBucket(cfg, clock, tick, rs, m, j);
    OutsOfPrefix(cfg, clock, tick, rs, m, j + 1);
    assert MergeBuckets(cfg, clock, tick, rs, m).outs[..j + 1][j] == MergeBuckets(cfg, clock, tick, rs, m).outs[j];
    LaterBuckets(cfg, clock, tick, rs, m, ts, e, j);
  }

  lemma OneMoreBucket(cfg: Config, clock: nat -> nat, tick: nat, rs: seq<Removal>, m: Deletions, j: nat)
    requires Extracted(rs) && j < |rs|
    ensures var f, g := MergeBuckets(cfg, clock, tick, rs[..j + 1], m), MergeBuckets(cfg, clock, tick, rs[..j], m);
            var (out, m') := MergeBucket(cfg, clock, g.tick, rs[j], g.marks);
            f.outs == g.outs + [out] && f.marks == m'
    ensures TickAfter(tick, rs[..j + 1]) == TickAfter(tick, rs[..j]) + |rs[j].tables| - 1
  {
    hide MergeBucket;
    assert rs[..j + 1][..j] == rs[..j];
  }

  /** Once the time of the marker is on record, nothing comes out. */
  lemma {:induction false} LaterBuckets(cfg: Config, clock: nat -> nat, tick: nat, rs: seq<Removal>, m: Deletions,
                                        ts: multiset<Sst>, e: Entry, j: nat)
    requires AllDrawn(ts, rs) && j < |rs|
    requires Timed(ts, e.key) && IsNewest(ts, e.key, Some(e)) && e.tomb && Forward(clock)
    requires Version(Contents(rs[j].tables), e)
    ensures forall i | j < i < |rs| :: Find(MergeBuckets(cfg, clock, tick, rs, m).outs[i], e.key) == None
    decreases |rs|
  {
    hide MergeBucket, Find, Version, Contents, Timed, IsNewest, Forward, Passes;
    var n := |rs| - 1;
    if j < n {
      var f := MergeBuckets(cfg, clock, tick, rs[..n], m);
      LaterBuckets(cfg, clock, tick, rs[..n], m, ts, e, j);
      BucketsAfterMarker(cfg, clock, tick, rs[..n], m, ts, e, j);
      BucketRecorded(cfg, clock, f.tick, rs[n], f.marks, ts, e);
    }
  }

  /** A bucket merged when the time of the newest version is on record emits nothing of the key. */
  lemma BucketRecorded(cfg: Config, clock: nat -> nat, tick: nat, r: Removal, m: Deletions, ts: multiset<Sst>,
                       e: Entry)
    requires |r.tables| > 2 && Drawn(ts, r) && Timed(ts, e.key)
    requires IsNewest(ts, e.key, Some(e)) && !Passes(Recorded(m, e.key), e) && Forward(clock)
    ensures Find(MergeBucket(cfg, clock, tick, r, m).0, e.key) == None
  {
    hide MergeAll, Sorted, Find, Newest, Version;
    var tables := r.tables;
    var nows := Readings(clock, tick, |tables| - 1);
    ReadingsForward(clock, tick, |tables| - 1);
    TablesSorted(tables);
    ContentsConsistent(ts, r, e.key);
    NewestOfContents(ts, r, e);
    FoldOutcome(cfg, nows, tables[0].mem, Disks(tables[1..]), m, e.key);
  }

  /** A deleted key comes back in a round if and only if no table that stays holds its marker, the marker does
      not come through its merge, and the newest of what the tables that stay hold and the buckets merged
      before the first that reads the marker emit is live. For any number of buckets; also when no merge
      reads the marker, because only the first table of its bucket holds it. */
  lemma DeletedStaysDeleted(cfg: Config, clock: nat -> nat, a: RunState, e: Entry, r: Option<Entry>, j: nat)
    requires Valid(a.sys) && Extracted(Removals(a)) && Timed(Tables(a), e.key) && Forward(clock)
    requires IsNewest(Tables(a), e.key, Some(e)) && e.tomb && IsNewest(Staying(a), e.key, r)
    requires FirstReads(Removals(a), e, j)
    ensures ReadsLive(Tables(AfterRound(cfg, clock, a)), e.key) <==>
            !Holds(Staying(a), e) && !MarkerComesThrough(cfg, clock, a, e, j) &&
            Live(NewestOf(r, FoldBuckets(cfg, clock, a.tick, Removals(a)[..j], Recorded(a.marks, e.key), e.key).outs))
  {
    hide MergeBuckets, TablesOf, AddTables, Find, ExtractAll, Valid, Removed, CleanUp, TableOk, IsNewest, FoldBuckets,
         NothingNew, NewestOf, Version, Contents, Timed, Staying, ReadsLive, MarkerComesThrough;
    var k, rs := e.key, Removals(a);
    var f := Folded(cfg, clock, a);
    var outs := FoldBuckets(cfg, clock, a.tick, rs, Recorded(a.marks, k), k).outs;
    var after := Tables(AfterRound(cfg, clock, a));
    RemovalFacts(a);
    RoundExactly(cfg, clock, a, k, r);
    RoundNothingNew(cfg, clock, a, k);
    FoldBucketsAre(cfg, clock, a.tick, rs, a.marks, k);
    FoldsOfPrefix(cfg, clock, a.tick, rs, Recorded(a.marks, k), k, j);
    MarkerAfterRound(cfg, clock, a, e, j);
    if Holds(Staying(a), e) || Some(e) in outs {
      assert Holds(after, e) by { HeldAfter(cfg, clock, a, e, outs); }
      NewestKept(Tables(a), after, k, Some(e));
      DeadNewest(after, e);
    } else {
      if j < |rs| {
        BucketsAfterMarker(cfg, clock, a.tick, rs, a.marks, Tables(a), e, j);
      }
      forall i | j <= i < |outs|
        ensures outs[i] == None
      {
        assert outs[i] == Find(f.outs[i], k);
        assert outs[i] in outs;
      }
      NewestOfNothing(r, outs, j);
    }
  }

  lemma {:induction false} FoldsOfPrefix(cfg: Config, clock: nat -> nat, tick: nat, rs: seq<Removal>, t: Option<nat>,
                                         k: Key, n: nat)
    requires Extracted(rs) && n <= |rs|
    ensures FoldBuckets(cfg, clock, tick, rs[..n], t, k).outs == FoldBuckets(cfg, clock, tick, rs, t, k).outs[..n]
    decreases |rs|
  {
    hide FoldKey, Find, Readings;
    if n == |rs| {
      assert rs[..n] == rs;
    } else {
      assert rs[..|rs| - 1][..n] == rs[..n];
      FoldsOfPrefix(cfg, clock, tick, rs[..|rs| - 1], t, k, n);
    }
  }

  lemma HeldAfter(cfg: Config, clock: nat -> nat, a: RunState, e: Entry, outs: seq<Option<Entry>>)
    requires Valid(a.sys) && Extracted(Removals(a)) && outs == Finds(Folded(cfg, clock, a).outs, e.key)
    requires Holds(Staying(a), e) || Some(e) in outs
    ensures Holds(Tables(AfterRound(cfg, clock, a)), e)
  {
    hide Folded, TablesOf, AddTables, Find, ExtractAll, Valid, Removed, CleanUp, AfterRound;
    AfterRoundTables(cfg, clock, a);
    var after := Tables(AfterRound(cfg, clock, a));
    var added := FreshAll(a.sys, Folded(cfg, clock, a).outs);
    if Holds(Staying(a), e) {
      HoldsMore(Staying(a), after, e);
    } else {
      var i :| 0 <= i < |outs| && outs[i] == Some(e);
      assert added[i].disk == Folded(cfg, clock, a).outs[i];
      assert added[i] in multiset(added) && added[i] in after;
    }
  }

  lemma HoldsMore(ts: multiset<Sst>, ts': multiset<Sst>, e: Entry)
    requires Holds(ts, e) && ts <= ts'
    ensures Holds(ts', e)
  {
  }

  lemma HoldsNewest(ts: multiset<Sst>, e: Entry)
    requires IsNewest(ts, e.key, Some(e))
    ensures Holds(ts, e)
  {
  }

  lemma DeadNewest(ts: multiset<Sst>, e: Entry)
    requires Timed(ts, e.key) && IsNewest(ts, e.key, Some(e)) && e.tomb
    ensures !ReadsLive(ts, e.key)
  {
    forall r | IsNewest(ts, e.key, r)
      ensures r == Some(e)
    {
      NewestUniqueIn(ts, e.key, r, Some(e));
    }
  }

  // ---------------------------------------------------------------------
  // Two rounds that change an answer

  const K: Key := [1]
  const Q: Key := [2]

  /** A flushed table: its entries are on disk only. */
  function Flushed(dir: nat, e: Entry): (t: Sst) { Sst(dir, [e], []) }

  /** Four flushed tables in one bucket; only the first one holds `K`. */
  const LossTables: seq<Sst> :=
    [Flushed(0, Entry(K, 0, 1, false)), Flushed(1, Entry(Q, 0, 2, false)),
     Flushed(2, Entry(Q, 0, 3, false)), Flushed(3, Entry(Q, 0, 4, false))]

  /** The second of four tables in a bucket holds the deletion of `K`; a table of another bucket
      holds the version it deletes. */
  const ReturnFull: seq<Sst> :=
    [Flushed(0, Entry(Q, 0, 1, false)), Flushed(1, Entry(K, 0, 10, true)),
     Flushed(2, Entry(Q, 0, 3, false)), Flushed(3, Entry(Q, 0, 4, false))]

  const ReturnOld: Sst := Flushed(4, Entry(K, 0, 5, false))

  const ReturnTables: seq<Sst> := ReturnFull + [ReturnOld]

  function Ranges(ts: seq<Sst>): (m: map<nat, Sst>)
  {
    map i | 0 <= i < |ts| :: ts[i]
  }

  function StateOf(bs: BucketSeq, ts: seq<Sst>): (a: RunState)
  {
    RunState(Sys(bs, Ranges(ts), |ts|), map[], 0)
  }

  const LossExample: RunState := StateOf([Bucket(0, 18, LossTables)], LossTables)

  const ReturnExample: RunState :=
    StateOf([Bucket(0, 18, ReturnFull), Bucket(1, 10000, [ReturnOld])], ReturnTables)

  lemma FindOne(e: Entry, k: Key)
    ensures Find([e], k) == if e.key == k then Some(e) else None
  {
    assert [e][1..] == [];
  }

  predicate Named(ts: seq<Sst>)
  {
    forall i | 0 <= i < |ts| :: ts[i].dir == i && |ts[i].disk| == 1 && ts[i].mem == []
  }

  lemma {:induction false} NamedOnce(ts: seq<Sst>, t: Sst)
    requires Named(ts)
    ensures multiset(ts)[t] <= 1
    ensures t in ts <==> t.dir < |ts| && ts[t.dir] == t
  {
    if ts != [] {
      var n := |ts| - 1;
      NamedOnce(ts[..n], t);
      assert ts == ts[..n] + [ts[n]];
      assert multiset(ts) == multiset(ts[..n]) + multiset{ts[n]};
    }
  }

  lemma OneSorted(es: seq<Entry>)
    requires |es| == 1
    ensures Sorted(es)
  {
  }

  /** What the invariant asks of one table. */
  ghost predicate MemberOk(s: Sys, t: Sst)
  {
    (t in TablesOf(s.buckets) <==> t.dir in s.ranges && s.ranges[t.dir] == t) &&
    TablesOf(s.buckets)[t] <= 1 &&
    (t in TablesOf(s.buckets) ==> TableOk(t) && t.dir < s.nextId)
  }

  lemma NamedMember(bs: BucketSeq, ts: seq<Sst>, t: Sst)
    requires Named(ts) && TablesOf(bs) == multiset(ts)
    ensures MemberOk(StateOf(bs, ts).sys, t)
  {
    hide TablesOf, Sorted;
    NamedOnce(ts, t);
    assert t in multiset(ts) <==> t in ts;
    if t in ts {
      OneSorted(t.disk);
    }
  }

  lemma ValidFrom(s: Sys)
    requires (forall t :: MemberOk(s, t)) && (forall d | d in s.ranges :: s.ranges[d].dir == d)
    requires DistinctIds(s.buckets) && NonEmptyBuckets(s.buckets) && forall i | 0 <= i < |s.buckets| ::
             s.buckets[i].id < s.nextId
    ensures Valid(s)
  {
    hide TablesOf, TableOk;
    forall t
      ensures t in TablesOf(s.buckets) <==> t.dir in s.ranges && s.ranges[t.dir] == t
      ensures TablesOf(s.buckets)[t] <= 1
      ensures t in TablesOf(s.buckets) ==> TableOk(t) && t.dir < s.nextId
    {
      assert MemberOk(s, t);
    }
  }

  lemma NamedValid(bs: BucketSeq, ts: seq<Sst>)
    requires Named(ts) && TablesOf(bs) == multiset(ts) && DistinctIds(bs) && NonEmptyBuckets(bs)
    requires forall i | 0 <= i < |bs| :: bs[i].id < |ts|
    ensures Valid(StateOf(bs, ts).sys)
  {
    hide TablesOf, TableOk, MemberOk, Valid;
    forall t
      ensures MemberOk(StateOf(bs, ts).sys, t)
    {
      NamedMember(bs, ts, t);
    }
    ValidFrom(StateOf(bs, ts).sys);
  }

  lemma TablesOfOne(b: Bucket)
    ensures TablesOf([b]) == multiset(b.tables)
  {
    assert [b][..0] == [];
  }

  lemma TablesOfTwo(b: Bucket, c: Bucket)
    ensures TablesOf([b, c]) == multiset(b.tables + c.tables)
  {
    assert [b, c][..1] == [b];
    TablesOfOne(b);
  }

  lemma ExtractOne(b: Bucket)
    requires MIN_THRESHOLD <= |b.tables| < MAX_THRESHOLD
    ensures ExtractAll([b]) == [Removal(b.id, b.tables)]
    ensures Removed([Removal(b.id, b.tables)]) == multiset(b.tables)
  {
    assert [b][..0] == [];
    assert ExtractAll([]) == [];
    assert [Removal(b.id, b.tables)][..0] == [];
  }

  lemma ExtractFirst(b: Bucket, c: Bucket)
    requires MIN_THRESHOLD <= |b.tables| < MAX_THRESHOLD && |c.tables| < MIN_THRESHOLD
    ensures ExtractAll([b, c]) == [Removal(b.id, b.tables)]
  {
    assert [b, c][..1] == [b];
    ExtractOne(b);
  }

  /** When only one table of `ts` holds `k`. */
  lemma OnlyHolder(ts: seq<Sst>, i: nat, k: Key)
    requires Named(ts) && i < |ts| && ts[i].disk[0].key == k && ts[i].disk[0].time > 0
    requires forall j | 0 <= j < |ts| && j != i :: ts[j].disk[0].key != k
    ensures IsNewest(multiset(ts), k, Some(ts[i].disk[0])) && Timed(multiset(ts), k)
  {
    forall j | 0 <= j < |ts|
      ensures Find(ts[j].disk, k) == if j == i then Some(ts[i].disk[0]) else None
    {
      assert ts[j].disk == [ts[j].disk[0]];
      FindOne(ts[j].disk[0], k);
    }
    assert ts[i] in multiset(ts);
    forall t | t in multiset(ts)
      ensures Find(t.disk, k) == None || t == ts[i]
    {
      var j :| 0 <= j < |ts| && ts[j] == t;
    }
  }

  /** The lookup of `K` answers before the round, and does not after it: the first table of a bucket is
      merged from memory, where the flush has emptied it. */
  lemma FirstTableIsLost(cfg: Config, clock: nat -> nat)
    requires Forward(clock)
    ensures var a, e := LossExample, Entry(K, 0, 1, false);
            Valid(a.sys) && Extracted(Removals(a)) && IsNewest(Tables(a), K, Some(e)) &&
            !IsNewest(Tables(AfterRound(cfg, clock, a)), K, Some(e))
  {
    hide AfterRound, TablesOf, ExtractAll, Removed, Valid, IsNewest, Timed, Find, Version, Contents;
    var a, e, ts := LossExample, Entry(K, 0, 1, false), LossTables;
    var b := Bucket(0, 18, ts);
    TablesOfOne(b);
    NamedValid([b], ts);
    OnlyHolder(ts, 0, K);
    ExtractOne(b);
    assert Tables(a) - Removed(Removals(a)) == multiset{};
    LossUnread(e);
    RoundKeepsLive(cfg, clock, a, e);
  }

  lemma LossUnread(e: Entry)
    requires e.key == K
    ensures !Version(Contents(LossTables), e)
  {
    hide Find;
    var ts := LossTables;
    FindNone(K);
    forall i | 0 < i < 4
      ensures Find(Contents(ts)[i], K) == None
    {
      assert Contents(ts)[i] == ts[1..][i - 1].disk == ts[i].disk == [ts[i].disk[0]];
      FindOne(ts[i].disk[0], K);
    }
  }

  /** `K` is deleted before the round and can be read after it: its marker stood in a table before the
      last of its bucket, so the merge dropped it. */
  lemma DeletedKeyReturns(cfg: Config, clock: nat -> nat)
    requires Forward(clock)
    ensures var a := ReturnExample;
            Valid(a.sys) && Extracted(Removals(a)) && FirstLoaded(a, K) &&
            !ReadsLive(Tables(a), K) && ReadsLive(Tables(AfterRound(cfg, clock, a)), K)
  {
    hide AfterRound, TablesOf, ExtractAll, Removed, Valid, Find, IsNewest, Timed, MarkerKept, ReadsLive, Holds,
         FirstLoaded, Contents, Version, TickAfter;
    var a, e := ReturnExample, Entry(K, 0, 10, true);
    ReturnState();
    ReturnVersions();
    ReturnMarker(cfg, clock(TickAfter(a.tick, Removals(a)[..1]) - 1));
    ReturnStays();
    DeadNewest(Tables(a), e);
    assert Removals(a)[..0] == [];
    DeletedStaysDeleted(cfg, clock, a, e, Some(ReturnOld.disk[0]), 0);
  }

  lemma ReturnState()
    ensures var a, ts := ReturnExample, ReturnTables;
            Valid(a.sys) && Tables(a) == multiset(ts) && Removals(a) == [Removal(0, ReturnFull)] &&
              Extracted(Removals(a)) &&
            Tables(a) - Removed(Removals(a)) == multiset{ReturnOld} && a.marks == map[] && FirstLoaded(a, K)
  {
    hide TablesOf, ExtractAll, Removed, Valid, Find;
    var b, c := Bucket(0, 18, ReturnFull), Bucket(1, 10000, [ReturnOld]);
    TablesOfTwo(b, c);
    NamedValid([b, c], ReturnTables);
    ExtractOne(b);
    ExtractFirst(b, c);
    Without(ReturnFull, ReturnOld);
    ReturnVersions();
  }

  lemma Without(ts: seq<Sst>, t: Sst)
    ensures multiset(ts + [t]) - multiset(ts) == multiset{t}
  {
  }

  lemma ReturnMarker(cfg: Config, now: nat)
    ensures !MarkerKept(cfg, now, map[], ReturnFull, Entry(K, 0, 10, true))
    ensures Version(Contents(ReturnFull), Entry(K, 0, 10, true))
  {
    hide Find;
    var ts, e := ReturnFull, Entry(K, 0, 10, true);
    var x := Contents(ts)[..3];
    assert x[1] == ts[1..][0].disk == [e];
    assert Contents(ts)[1] == x[1];
    FindOne(e, K);
  }

  lemma ReturnStays()
    ensures IsNewest(multiset{ReturnOld}, K, Some(ReturnOld.disk[0])) && !ReturnOld.disk[0].tomb
    ensures !Holds(multiset{ReturnOld}, Entry(K, 0, 10, true))
  {
    hide Find;
    var t := ReturnOld;
    FindOne(t.disk[0], K);
    assert t.disk == [t.disk[0]];
    assert t in multiset{t};
    assert IsNewest(multiset{t}, K, Some(t.disk[0]));
  }

  lemma ReturnFinds(j: nat)
    requires j < 5
    ensures |ReturnTables| == 5
    ensures Find(ReturnTables[j].disk, K) == if j == 1 || j == 4 then Some(ReturnTables[j].disk[0]) else None
  {
    hide Find;
    var ts := ReturnTables;
    assert ts[j].disk == [ts[j].disk[0]];
    FindOne(ts[j].disk[0], K);
  }

  lemma ReturnVersions()
    ensures IsNewest(multiset(ReturnTables), K, Some(Entry(K, 0, 10, true))) && Timed(multiset(ReturnTables), K)
    ensures Find(ReturnTables[0].mem, K) == Find(ReturnTables[0].disk, K)
  {
    hide Find;
    var ts := ReturnTables;
    FindNone(K);
    ReturnFinds(0);
    ReturnFinds(1);
    ReturnFinds(4);
    assert ts[1] in multiset(ts);
    forall t | t in multiset(ts)
      ensures Find(t.disk, K) == None || t == ts[1] || t == ts[4]
    {
      var j :| 0 <= j < |ts| && ts[j] == t;
      ReturnFinds(j);
    }
  }
}
