/** The bucket map: tables grouped by size, insertion into the first bucket that fits, extraction of
    buckets with too many tables, and deletion of what was extracted.
 */
module Buckets {
  import opened Entries
  import SsTable

  const MIN_THRESHOLD: nat := 4
  const MAX_THRESHOLD: nat := 32
  const MIN_SSTABLE_SIZE: nat := 4096

  /** A table of a bucket. `disk` is what its data file holds; `mem` is its entry map, which is
      shared with every copy of the table and emptied once the table is registered. */
  datatype Sst = Sst(dir: nat, disk: seq<Entry>, mem: seq<Entry>)

  function FileSize(t: Sst): (n: nat) { SsTable.SizeOf(t.disk) }

  datatype Bucket = Bucket(id: nat, average: nat, tables: seq<Sst>)

  /** Buckets in insertion order. */
  type BucketSeq = seq<Bucket>

  predicate DistinctIds(bs: BucketSeq)
  {
    forall i, j | 0 <= i < j < |bs| :: bs[i].id != bs[j].id
  }

  function TotalSize(ts: seq<Sst>): (n: nat)
  {
    if ts == [] then 0 else TotalSize(ts[..|ts| - 1]) + FileSize(ts[|ts| - 1])
  }

  /** `cal_average_size` */
  function Average(ts: seq<Sst>): (n: nat)
  {
    if ts == [] then 0 else TotalSize(ts) / |ts|
  }

  /** `fits_into_bucket`, with the factors 0.5 and 1.5 as fractions. */
  predicate FitsInto(b: Bucket, size: nat)
  {
    (b.average < 2 * size && size < b.average * 3 / 2) ||
    (size < MIN_SSTABLE_SIZE && b.average < MIN_SSTABLE_SIZE)
  }

  function FirstFit(bs: BucketSeq, size: nat): (i: nat)
    ensures i <= |bs|
    ensures i < |bs| ==> FitsInto(bs[i], size)
    ensures forall j | 0 <= j < i :: !FitsInto(bs[j], size)
  {
    if bs == [] || FitsInto(bs[0], size) then 0 else 1 + FirstFit(bs[1..], size)
  }

  function Push(b: Bucket, t: Sst): (b': Bucket)
  {
    Bucket(b.id, Average(b.tables + [t]), b.tables + [t])
  }

  /** `insert_to_appropriate_bucket`, for a table that was written; `newId` is the id of a new bucket. */
  function Insert(bs: BucketSeq, t: Sst, size: nat, newId: nat): (bs': BucketSeq)
  {
    var i := FirstFit(bs, size);
    if i < |bs| then bs[i := Push(bs[i], t)]
    else bs + [Bucket(newId, FileSize(t), [t])]
  }

  /** `extract_sstables` */
  function Extract(b: Bucket): (ts: seq<Sst>)
    ensures ts <= b.tables
  {
    if |b.tables| < MIN_THRESHOLD then []
    else if |b.tables| < MAX_THRESHOLD then b.tables
    else b.tables[..MAX_THRESHOLD]
  }

  predicate IsBalanced(bs: BucketSeq)
  {
    forall i | 0 <= i < |bs| :: |bs[i].tables| < MIN_THRESHOLD
  }

  datatype Removal = Removal(id: nat, tables: seq<Sst>)

  /** `extract_imbalanced_buckets` */
  function ExtractAll(bs: BucketSeq): (rs: seq<Removal>)
  {
    if bs == [] then [] else
    var b := bs[|bs| - 1];
    ExtractAll(bs[..|bs| - 1]) + (if Extract(b) == [] then [] else [Removal(b.id, Extract(b))])
  }

  function IndexOfId(bs: BucketSeq, id: nat): (i: nat)
    ensures i <= |bs|
    ensures i < |bs| ==> bs[i].id == id
    ensures forall j | 0 <= j < i :: bs[j].id != id
  {
    if bs == [] || bs[0].id == id then 0 else 1 + IndexOfId(bs[1..], id)
  }

  /** `b.get(n..).unwrap_or_default()` */
  function DropTables(ts: seq<Sst>, n: nat): (r: seq<Sst>)
  {
    if n <= |ts| then ts[n..] else []
  }

  /** One step of `delete_ssts`: the tables of a bucket are dropped by number, not by name. A bucket
      left without tables stays until the end of the call. */
  function DeleteOne(bs: BucketSeq, r: Removal): (bs': BucketSeq)
    ensures |bs'| == |bs| && (forall i | 0 <= i < |bs| :: bs'[i].id == bs[i].id)
  {
    var i := IndexOfId(bs, r.id);
    if i == |bs| then bs else
    var rest := DropTables(bs[i].tables, |r.tables|);
    if rest == [] then bs[i := bs[i].(tables := [])]
    else bs[i := Bucket(r.id, Average(rest), rest)]
  }

  function DeleteSteps(bs: BucketSeq, rs: seq<Removal>): (bs': BucketSeq)
    ensures |bs'| == |bs| && (forall i | 0 <= i < |bs| :: bs'[i].id == bs[i].id)
  {
    if rs == [] then bs else DeleteOne(DeleteSteps(bs, rs[..|rs| - 1]), rs[|rs| - 1])
  }

  function DropEmpty(bs: BucketSeq): (bs': BucketSeq)
  {
    if bs == [] then []
    else DropEmpty(bs[..|bs| - 1]) + (if bs[|bs| - 1].tables == [] then [] else [bs[|bs| - 1]])
  }

  /** `delete_ssts` */
  function Delete(bs: BucketSeq, rs: seq<Removal>): (bs': BucketSeq)
  {
    DropEmpty(DeleteSteps(bs, rs))
  }

  // ---------------------------------------------------------------------
  // Accounting for tables

  /** All tables of all buckets. */
  function TablesOf(bs: BucketSeq): (ts: multiset<Sst>)
  {
    if bs == [] then multiset{} else TablesOf(bs[..|bs| - 1]) + multiset(bs[|bs| - 1].tables)
  }

  function Removed(rs: seq<Removal>): (ts: multiset<Sst>)
  {
    if rs == [] then multiset{} else Removed(rs[..|rs| - 1]) + multiset(rs[|rs| - 1].tables)
  }

  lemma {:induction false} TablesUpdate(bs: BucketSeq, i: nat, b: Bucket)
    requires i < |bs|
    ensures TablesOf(bs[i := b]) + multiset(bs[i].tables) == TablesOf(bs) + multiset(b.tables)
    decreases |bs|
  {
    var n := |bs| - 1;
    var init, last := TablesOf(bs[..n]), multiset(bs[n].tables);
    if i < n {
      TablesUpdate(bs[..n], i, b);
      assert bs[i := b][..n] == bs[..n][i := b];
      Exchange(TablesOf(bs[..n][i := b]), multiset(bs[i].tables), init, multiset(b.tables), last);
    } else {
      assert bs[i := b][..n] == bs[..n];
      Exchange(init, last, init, last, multiset(b.tables));
    }
  }

  lemma Exchange(p: multiset<Sst>, x: multiset<Sst>, q: multiset<Sst>, y: multiset<Sst>, l: multiset<Sst>)
    requires p + x == q + y
    ensures p + l + x == q + l + y
  {
    assert p + l + x == (p + x) + l;
    assert q + l + y == (q + y) + l;
  }

  lemma CancelRight(p: multiset<Sst>, q: multiset<Sst>, x: multiset<Sst>, y: multiset<Sst>)
    requires p + x == q + (x + y)
    ensures p == q + y
  {
    assert q + (x + y) == (q + y) + x;
    forall t
      ensures p[t] == (q + y)[t]
    {
      assert (p + x)[t] == ((q + y) + x)[t];
    }
  }

  /** Inserting a table adds exactly that table, whichever bucket takes it. */
  lemma InsertAdds(bs: BucketSeq, t: Sst, size: nat, newId: nat)
    ensures TablesOf(Insert(bs, t, size, newId)) == TablesOf(bs) + multiset{t}
  {
    hide FirstFit, Average, FileSize;
    var i := FirstFit(bs, size);
    if i < |bs| {
      var b := Push(bs[i], t);
      TablesUpdate(bs, i, b);
      assert multiset(b.tables) == multiset(bs[i].tables) + multiset{t};
      CancelRight(TablesOf(bs[i := b]), TablesOf(bs), multiset(bs[i].tables), multiset{t});
    } else {
      var bs' := Insert(bs, t, size, newId);
      assert bs'[..|bs|] == bs;
      assert multiset([t]) == multiset{t};
    }
  }

  predicate NonEmptyBuckets(bs: BucketSeq)
  {
    forall i | 0 <= i < |bs| :: bs[i].tables != []
  }

  lemma InsertKeepsIds(bs: BucketSeq, t: Sst, size: nat, newId: nat)
    requires DistinctIds(bs) && forall i | 0 <= i < |bs| :: bs[i].id != newId
    ensures DistinctIds(Insert(bs, t, size, newId))
    ensures NonEmptyBuckets(bs) ==> NonEmptyBuckets(Insert(bs, t, size, newId))
    ensures forall b | b in Insert(bs, t, size, newId) :: b.id == newId || exists i :: 0 <= i < |bs| && bs[i].id == b.id
  {
  }

  // ---------------------------------------------------------------------
  // What was extracted stays a prefix of its bucket until it is deleted

  /** The bucket of the removal still starts with the extracted tables. */
  predicate Pending(bs: BucketSeq, r: Removal)
  {
    exists i :: 0 <= i < |bs| && bs[i].id == r.id && r.tables <= bs[i].tables
  }

  predicate AllPending(bs: BucketSeq, rs: seq<Removal>)
  {
    forall j | 0 <= j < |rs| :: Pending(bs, rs[j])
  }

  predicate DistinctRemovals(rs: seq<Removal>)
  {
    forall i, j | 0 <= i < j < |rs| :: rs[i].id != rs[j].id
  }

  lemma {:induction false} ExtractedArePending(bs: BucketSeq)
    requires DistinctIds(bs)
    ensures AllPending(bs, ExtractAll(bs)) && DistinctRemovals(ExtractAll(bs))
    ensures forall r | r in ExtractAll(bs) :: |r.tables| >= MIN_THRESHOLD
    ensures ExtractAll(bs) == [] <==> IsBalanced(bs)
  {
    if bs != [] {
      var n := |bs| - 1;
      ExtractedArePending(bs[..n]);
      var init := ExtractAll(bs[..n]);
      forall j | 0 <= j < |init|
        ensures Pending(bs, init[j]) && init[j].id != bs[n].id
      {
        var i :| 0 <= i < n && bs[..n][i].id == init[j].id && init[j].tables <= bs[..n][i].tables;
        assert bs[i] == bs[..n][i];
      }
      assert IsBalanced(bs) <==> IsBalanced(bs[..n]) && |bs[n].tables| < MIN_THRESHOLD by {
        forall i | 0 <= i < n
          ensures bs[i] == bs[..n][i]
        {
        }
      }
      assert Extract(bs[n]) == [] <==> |bs[n].tables| < MIN_THRESHOLD;
    }
  }

  predicate TakenFrom(b: Bucket, r: Removal)
  {
    4 <= |b.tables| && r == Removal(b.id, b.tables[..if |b.tables| < 32 then |b.tables| else 32])
  }

  /** What is extracted: of every bucket with at least 4 tables its first 32, or all of them, and nothing else. */
  lemma {:induction false} ExtractsExactly(bs: BucketSeq)
    ensures forall r :: r in ExtractAll(bs) <==> exists b | b in bs :: TakenFrom(b, r)
  {
    hide Extract;
    if bs != [] {
      var n := |bs| - 1;
      ExtractsExactly(bs[..n]);
      assert bs == bs[..n] + [bs[n]];
      forall r
        ensures r in ExtractAll(bs) <==> r in ExtractAll(bs[..n]) || TakenFrom(bs[n], r)
      {
        ExtractIs(bs[n], r);
      }
    }
  }

  lemma ExtractIs(b: Bucket, r: Removal)
    ensures Extract(b) != [] && r == Removal(b.id, Extract(b)) <==> TakenFrom(b, r)
  {
    assert b.tables[..|b.tables|] == b.tables;
  }

  /** Whatever is inserted, wherever it goes, every pending removal stays pending. */
  lemma InsertKeepsPending(bs: BucketSeq, t: Sst, size: nat, newId: nat, r: Removal)
    requires Pending(bs, r)
    ensures Pending(Insert(bs, t, size, newId), r)
  {
    var i :| 0 <= i < |bs| && bs[i].id == r.id && r.tables <= bs[i].tables;
    var bs' := Insert(bs, t, size, newId);
    assert bs'[i].id == r.id && r.tables <= bs'[i].tables;
  }

  lemma SplitPrefix(ts: seq<Sst>, p: seq<Sst>)
    requires p <= ts
    ensures multiset(ts) == multiset(p) + multiset(ts[|p|..])
  {
    assert ts == p + ts[|p|..];
  }

  lemma PendingIndex(bs: BucketSeq, r: Removal)
    requires DistinctIds(bs) && Pending(bs, r)
    ensures var i := IndexOfId(bs, r.id); i < |bs| && r.tables <= bs[i].tables
  {
  }

  /** Deleting a pending removal by number deletes exactly the extracted tables. */
  lemma DeleteOneRemoves(bs: BucketSeq, r: Removal)
    requires DistinctIds(bs) && Pending(bs, r)
    ensures TablesOf(DeleteOne(bs, r)) + multiset(r.tables) == TablesOf(bs)
    ensures DistinctIds(DeleteOne(bs, r))
  {
    hide IndexOfId, Average, Pending;
    PendingIndex(bs, r);
    var i := IndexOfId(bs, r.id);
    var bs' := DeleteOne(bs, r);
    var rest := bs[i].tables[|r.tables|..];
    SplitPrefix(bs[i].tables, r.tables);
    assert bs'[i].tables == rest;
    assert bs' == bs[i := bs'[i]];
    TablesUpdate(bs, i, bs'[i]);
    var whole, cut, left := TablesOf(bs), multiset(r.tables), multiset(rest);
    assert TablesOf(bs') + (cut + left) == whole + left;
    assert TablesOf(bs') + (left + cut) == whole + left;
    CancelLeft(TablesOf(bs'), cut, whole, left);
  }

  lemma CancelLeft(p: multiset<Sst>, x: multiset<Sst>, q: multiset<Sst>, l: multiset<Sst>)
    requires p + (l + x) == q + l
    ensures p + x == q
  {
    assert p + (l + x) == (p + x) + l;
    forall t
      ensures (p + x)[t] == q[t]
    {
      assert ((p + x) + l)[t] == (q + l)[t];
    }
  }

  lemma DeleteOneKeepsOthers(bs: BucketSeq, r: Removal, r': Removal)
    requires Pending(bs, r') && r'.id != r.id
    ensures Pending(DeleteOne(bs, r), r')
  {
    hide IndexOfId, Average;
    var j :| 0 <= j < |bs| && bs[j].id == r'.id && r'.tables <= bs[j].tables;
    assert IndexOfId(bs, r.id) != j;
    assert DeleteOne(bs, r)[j] == bs[j];
  }

  lemma DeleteStepsLast(bs: BucketSeq, rs: seq<Removal>)
    requires rs != []
    ensures DeleteSteps(bs, rs) == DeleteOne(DeleteSteps(bs, rs[..|rs| - 1]), rs[|rs| - 1])
    ensures Removed(rs) == Removed(rs[..|rs| - 1]) + multiset(rs[|rs| - 1].tables)
  {
    hide DeleteOne;
  }

  lemma {:induction false} DeleteStepsRemove(bs: BucketSeq, rs: seq<Removal>)
    requires DistinctIds(bs) && AllPending(bs, rs) && DistinctRemovals(rs)
    ensures TablesOf(DeleteSteps(bs, rs)) + Removed(rs) == TablesOf(bs)
    ensures DistinctIds(DeleteSteps(bs, rs))
    decreases |rs|
  {
    if rs != [] {
      hide DeleteOne, Pending, TablesOf, DistinctIds, DeleteSteps, Removed;
      var n := |rs| - 1;
      var r := rs[n];
      var mid := DeleteSteps(bs, rs[..n]);
      DeleteStepsLast(bs, rs);
      DeleteStepsRemove(bs, rs[..n]);
      DeleteStepsKeep(bs, rs[..n], r);
      DeleteOneRemoves(mid, r);
      Regroup(TablesOf(DeleteOne(mid, r)), Removed(rs[..n]), multiset(r.tables));
    }
  }

  lemma Regroup(p: multiset<Sst>, x: multiset<Sst>, y: multiset<Sst>)
    ensures p + (x + y) == (p + y) + x
  {
  }

  lemma {:induction false} DeleteStepsKeep(bs: BucketSeq, rs: seq<Removal>, r: Removal)
    requires Pending(bs, r) && forall j | 0 <= j < |rs| :: rs[j].id != r.id
    ensures Pending(DeleteSteps(bs, rs), r)
    decreases |rs|
  {
    if rs != [] {
      hide DeleteOne, Pending;
      DeleteStepsKeep(bs, rs[..|rs| - 1], r);
      DeleteOneKeepsOthers(DeleteSteps(bs, rs[..|rs| - 1]), rs[|rs| - 1], r);
    }
  }

  lemma {:induction false} DropEmptyKeepsTables(bs: BucketSeq)
    ensures TablesOf(DropEmpty(bs)) == TablesOf(bs)
    ensures NonEmptyBuckets(DropEmpty(bs))
  {
    if bs != [] {
      var n := |bs| - 1;
      DropEmptyKeepsTables(bs[..n]);
      var init := DropEmpty(bs[..n]);
      if bs[n].tables != [] {
        assert (init + [bs[n]])[..|init|] == init;
      } else {
        assert multiset(bs[n].tables) == multiset{};
        assert init + [] == init;
      }
    }
  }

  lemma {:induction false} DropEmptyKeepsIds(bs: BucketSeq)
    ensures forall b | b in DropEmpty(bs) :: b in bs
    ensures DistinctIds(bs) ==> DistinctIds(DropEmpty(bs))
  {
    if bs != [] {
      var n := |bs| - 1;
      DropEmptyKeepsIds(bs[..n]);
      var init := DropEmpty(bs[..n]);
      forall b | b in init
        ensures b in bs && (DistinctIds(bs) ==> b.id != bs[n].id)
      {
        var i :| 0 <= i < n && bs[..n][i] == b;
        assert bs[i] == b;
      }
    }
  }

  /** Clean-up deletes exactly what was extracted: although a bucket drops its first tables by
      number, the tables left after it are those present before it minus the extracted ones. */
  lemma DeleteRemovesExactly(bs: BucketSeq, rs: seq<Removal>)
    requires DistinctIds(bs) && AllPending(bs, rs) && DistinctRemovals(rs)
    ensures TablesOf(Delete(bs, rs)) + Removed(rs) == TablesOf(bs)
    ensures DistinctIds(Delete(bs, rs)) && NonEmptyBuckets(Delete(bs, rs))
    ensures forall b | b in Delete(bs, rs) :: exists i :: 0 <= i < |bs| && bs[i].id == b.id
  {
    DeleteStepsRemove(bs, rs);
    DropEmptyKeepsTables(DeleteSteps(bs, rs));
    DropEmptyKeepsIds(DeleteSteps(bs, rs));
  }

  // ---------------------------------------------------------------------
  // Tables of one size share a bucket

  /** The recorded average is the average of the data files. */
  predicate Measured(b: Bucket)
  {
    b.tables != [] && b.average == Average(b.tables)
  }

  /** Every bucket has tables, and its average is theirs. */
  predicate AllMeasured(bs: BucketSeq)
  {
    forall b | b in bs :: b.tables != [] && b.average == TotalSize(b.tables) / |b.tables|
  }

  /** An insertion measures the bucket it goes to anew. */
  lemma InsertMeasures(bs: BucketSeq, t: Sst, size: nat, newId: nat)
    requires AllMeasured(bs)
    ensures AllMeasured(Insert(bs, t, size, newId))
  {
    hide FirstFit, TotalSize;
    AverageOfOne(t);
    forall b | b in Insert(bs, t, size, newId)
      ensures b.tables != [] && b.average == TotalSize(b.tables) / |b.tables|
    {
      var i := FirstFit(bs, size);
      if b !in bs && i < |bs| {
        assert b == Push(bs[i], t);
      }
    }
  }

  /** A deletion measures what it leaves of a bucket anew. */
  lemma DeleteMeasures(bs: BucketSeq, rs: seq<Removal>)
    requires AllMeasured(bs)
    ensures AllMeasured(Delete(bs, rs))
  {
    hide TotalSize, DeleteSteps, DropEmpty;
    StepsMeasure(bs, rs);
    DropEmptyIs(DeleteSteps(bs, rs));
  }

  lemma {:induction false} StepsMeasure(bs: BucketSeq, rs: seq<Removal>)
    requires forall b | b in bs :: Measured(b)
    ensures forall b | b in DeleteSteps(bs, rs) :: b.tables == [] || Measured(b)
  {
    hide Average, IndexOfId;
    if rs != [] {
      StepsMeasure(bs, rs[..|rs| - 1]);
    }
  }

  lemma {:induction false} DropEmptyIs(bs: BucketSeq)
    ensures forall b :: b in DropEmpty(bs) <==> b in bs && b.tables != []
  {
    if bs != [] {
      var n := |bs| - 1;
      DropEmptyIs(bs[..n]);
      assert bs == bs[..n] + [bs[n]];
    }
  }

  lemma TimesAtLeast(n: nat, a: nat, b: nat)
    requires a <= b
    ensures n * a <= n * b
  {
  }

  lemma QuotientBounds(total: nat, n: nat)
    requires n > 0
    ensures n * (total / n) <= total < n * (total / n) + n
  {
  }

  lemma QuotientAtLeast(total: nat, n: nat, low: nat)
    requires n > 0 && n * low <= total
    ensures low <= total / n
  {
    if total / n < low {
      QuotientBounds(total, n);
      TimesAtLeast(n, total / n + 1, low);
      assert false;
    }
  }

  lemma QuotientAtMost(total: nat, n: nat, high: nat)
    requires n > 0 && total < n * high + n
    ensures total / n <= high
  {
    if total / n > high {
      QuotientBounds(total, n);
      TimesAtLeast(n, high + 1, total / n);
      assert false;
    }
  }

  /** One more file moves the average towards its size, and not past it. */
  lemma AverageMoves(ts: seq<Sst>, t: Sst)
    requires ts != []
    ensures var a, a', size := Average(ts), Average(ts + [t]), FileSize(t);
            if a <= size then a <= a' <= size else size <= a' <= a
  {
    hide FileSize;
    var n, total, size := |ts|, TotalSize(ts), FileSize(t);
    assert (ts + [t])[..n] == ts;
    var a := total / n;
    QuotientBounds(total, n);
    assert TotalSize(ts + [t]) == total + size;
    if a <= size {
      TimesAtLeast(n, a, size);
      assert (n + 1) * a == n * a + a;
      QuotientAtLeast(total + size, n + 1, a);
      if a < size {
        TimesAtLeast(n, a + 1, size);
      }
      assert (n + 1) * size == n * size + size;
      QuotientAtMost(total + size, n + 1, size);
    } else {
      assert (n + 1) * a == n * a + a;
      QuotientAtMost(total + size, n + 1, a);
      TimesAtLeast(n, size, a);
      assert (n + 1) * size == n * size + size;
      QuotientAtLeast(total + size, n + 1, size);
    }
  }

  /** A bucket that takes a table still takes tables of that size afterwards, and so does a new bucket. */
  lemma InsertedSizeStillFits(bs: BucketSeq, t: Sst, newId: nat)
    requires FileSize(t) > 1 && forall i | 0 <= i < |bs| :: Measured(bs[i])
    ensures var bs' := Insert(bs, t, FileSize(t), newId);
            (forall i | 0 <= i < |bs'| :: Measured(bs'[i])) &&
            FirstFit(bs', FileSize(t)) < |bs'|
  {
    hide FileSize;
    var size := FileSize(t);
    var i := FirstFit(bs, size);
    var bs' := Insert(bs, t, size, newId);
    if i < |bs| {
      AverageMoves(bs[i].tables, t);
      assert FitsInto(bs'[i], size);
    } else {
      AverageOfOne(t);
      assert bs'[i] == Bucket(newId, size, [t]) && FitsInto(bs'[i], size);
    }
  }

  /** Where a table goes: to the first bucket with an average between two thirds of its size and twice its size,
      or with an average below 4 KB if the table is smaller than that too; and to a bucket of its own if and only
      if there is none. No other bucket changes. */
  lemma InsertJoins(bs: BucketSeq, t: Sst, size: nat, newId: nat)
    ensures var bs' := Insert(bs, t, size, newId);
            if forall j | 0 <= j < |bs| :: !((bs[j].average < 2 * size && size < bs[j].average * 3 / 2) ||
                                             (size < 4096 && bs[j].average < 4096))
            then bs' == bs + [Bucket(newId, FileSize(t), [t])]
            else |bs'| == |bs|
    ensures var bs' := Insert(bs, t, size, newId);
            forall i | 0 <= i < |bs| ::
              if ((bs[i].average < 2 * size && size < bs[i].average * 3 / 2) ||
                  (size < 4096 && bs[i].average < 4096)) &&
                 forall j | 0 <= j < i :: !((bs[j].average < 2 * size && size < bs[j].average * 3 / 2) ||
                                            (size < 4096 && bs[j].average < 4096))
              then bs'[i] == Bucket(bs[i].id, TotalSize(bs[i].tables + [t]) / (|bs[i].tables| + 1), bs[i].tables + [t])
              else bs'[i] == bs[i]
  {
    hide FileSize, TotalSize;
  }

  /** So a table of 4 KB or more never joins a bucket whose average is at most two thirds of its size or at least
      twice its size. */
  lemma FarTablesStayApart(bs: BucketSeq, t: Sst, size: nat, newId: nat, i: nat)
    requires i < |bs| && size >= 4096 && (3 * bs[i].average <= 2 * size || bs[i].average >= 2 * size)
    ensures Insert(bs, t, size, newId)[i] == bs[i]
  {
    hide FileSize, TotalSize;
  }

  lemma AverageOfOne(t: Sst)
    ensures Average([t]) == FileSize(t)
  {
    hide FileSize;
    assert [t][..0] == [];
    assert TotalSize([t]) == TotalSize([]) + FileSize(t);
  }
}
