/** The bucket map as an object, with the loops that insert, extract and delete. */
module BucketMaps {
  import opened Buckets

  class BucketMap {
    var buckets: BucketSeq

    constructor ()
      ensures buckets == []
    {
      buckets := [];
    }

    method InsertToAppropriateBucket(t: Sst, size: nat, newId: nat)
      modifies this
      ensures buckets == Insert(old(buckets), t, size, newId)
      ensures TablesOf(buckets) == TablesOf(old(buckets)) + multiset{t}
      ensures |buckets| > |old(buckets)| <==>
              forall j | 0 <= j < |old(buckets)| ::
                var average := old(buckets)[j].average;
                !((average < 2 * size && size < average * 3 / 2) || (size < 4096 && average < 4096))
      ensures forall i | 0 <= i < |old(buckets)| :: buckets[i] != old(buckets)[i] ==>
                var average := old(buckets)[i].average;
                (average < 2 * size && size < average * 3 / 2) || (size < 4096 && average < 4096)
    {
      InsertAdds(buckets, t, size, newId);
      InsertJoins(buckets, t, size, newId);
      var i := 0;
      while i < |buckets|
        invariant 0 <= i <= |buckets| && buckets == old(buckets)
        invariant forall j | 0 <= j < i :: !FitsInto(buckets[j], size)
      {
        if FitsInto(buckets[i], size) {
          FirstFitIs(buckets, size, i);
          var tables := buckets[i].tables + [t];
          buckets := buckets[i := Bucket(buckets[i].id, Average(tables), tables)];
          return;
        }
        i := i + 1;
      }
      FirstFitIs(buckets, size, i);
      buckets := buckets + [Bucket(newId, FileSize(t), [t])];
    }

    /** Of every bucket with at least 4 tables its first 32, or all of them. */
    method ExtractImbalancedBuckets() returns (rs: seq<Removal>)
      ensures rs == ExtractAll(buckets)
      ensures forall r :: r in rs <==> exists b | b in buckets :: TakenFrom(b, r)
    {
      ExtractsExactly(buckets);
      rs := [];
      var i := 0;
      while i < |buckets|
        invariant 0 <= i <= |buckets|
        invariant rs == ExtractAll(buckets[..i])
      {
        var b := buckets[i];
        var ssts := Extract(b);
        assert buckets[..i + 1][..i] == buckets[..i];
        if ssts != [] {
          rs := rs + [Removal(b.id, ssts)];
        }
        i := i + 1;
      }
      assert buckets[..i] == buckets;
    }

    method Balanced() returns (r: bool)
      ensures r <==> IsBalanced(buckets)
      ensures r <==> forall b | b in buckets :: |b.tables| < 4
    {
      var i := 0;
      while i < |buckets|
        invariant 0 <= i <= |buckets|
        invariant forall j | 0 <= j < i :: |buckets[j].tables| < MIN_THRESHOLD
      {
        if |buckets[i].tables| >= MIN_THRESHOLD {
          return false;
        }
        i := i + 1;
      }
      return true;
    }

    /** Drops the first tables of each bucket by number. When every bucket still starts with what was
        extracted from it, exactly the extracted tables are gone. */
    method DeleteSsts(rs: seq<Removal>)
      modifies this
      ensures buckets == Delete(old(buckets), rs)
      ensures old(DistinctIds(buckets) && AllPending(buckets, rs)) && DistinctRemovals(rs) ==>
                TablesOf(buckets) + Removed(rs) == TablesOf(old(buckets))
      ensures AllMeasured(old(buckets)) ==> AllMeasured(buckets)
    {
      hide AllMeasured, TablesOf, Removed, AllPending, DistinctRemovals, DistinctIds;
      if AllMeasured(buckets) {
        DeleteMeasures(buckets, rs);
      }
      if DistinctIds(buckets) && AllPending(buckets, rs) && DistinctRemovals(rs) {
        DeleteRemovesExactly(buckets, rs);
      }
      var i := 0;
      assert rs[..0] == [];
      while i < |rs|
        invariant 0 <= i <= |rs|
        invariant buckets == DeleteSteps(old(buckets), rs[..i])
      {
        hide IndexOfId, Average;
        var r := rs[i];
        assert rs[..i + 1][..i] == rs[..i];
        var at := IndexOfId(buckets, r.id);
        if at < |buckets| {
          var rest := DropTables(buckets[at].tables, |r.tables|);
          if rest != [] {
            buckets := buckets[at := Bucket(r.id, Average(rest), rest)];
          } else {
            buckets := buckets[at := buckets[at].(tables := [])];
          }
        }
        i := i + 1;
      }
      assert rs[..i] == rs;
      RemoveEmptied();
    }

    method RemoveEmptied()
      modifies this
      ensures buckets == DropEmpty(old(buckets))
    {
      var kept: BucketSeq := [];
      var i := 0;
      while i < |buckets|
        invariant 0 <= i <= |buckets| && buckets == old(buckets)
        invariant kept == DropEmpty(buckets[..i])
      {
        assert buckets[..i + 1][..i] == buckets[..i];
        if buckets[i].tables != [] {
          kept := kept + [buckets[i]];
        }
        i := i + 1;
      }
      assert buckets[..i] == buckets;
      buckets := kept;
    }
  }

  lemma FirstFitIs(bs: BucketSeq, size: nat, i: nat)
    requires i <= |bs| && (forall j | 0 <= j < i :: !FitsInto(bs[j], size))
    requires i < |bs| ==> FitsInto(bs[i], size)
    ensures FirstFit(bs, size) == i
  {
  }
}
