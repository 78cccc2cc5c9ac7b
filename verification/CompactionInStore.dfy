/** Compaction seen from the store: when a change of the tables goes unnoticed by the reads of a key, during
    a round and after its clean-up.
 */
module CompactionInStore {
  import opened Wrappers
  import opened Bytes
  import opened Entries
  import LogCodec
  import Merge
  import Buckets
  import Compaction
  import Store
  import StoreSteps

  /** In a store that satisfies its invariant, the time of a version identifies it. */
  lemma TablesAreTimed(log: seq<LogCodec.Record>, now: nat, order: seq<Buckets.Sst>, k: Key)
    requires Store.AllOk(log, now, Compaction.Disks(order), k)
    ensures Compaction.Timed(multiset(order), k)
  {
    hide Store.VersionOk, Find;
    forall s, t | s in multiset(order) && t in multiset(order)
      ensures var x, y := Find(s.disk, k), Find(t.disk, k);
              (x.Some? ==> x.value.time > 0) && Merge.SameWhenSimultaneous(x, y)
    {
      var x, y := Find(s.disk, k), Find(t.disk, k);
      IsVersion(order, s, k);
      IsVersion(order, t, k);
      if x.Some? {
        Store.VersionPositive(log, x.value);
        if y.Some? && x.value.time == y.value.time {
          Store.VersionOrder(log, x.value, y.value);
          Store.VersionOrder(log, y.value, x.value);
        }
      }
    }
  }

  lemma IsVersion(order: seq<Buckets.Sst>, t: Buckets.Sst, k: Key)
    requires t in multiset(order)
    ensures Find(t.disk, k).Some? ==>
              Find(t.disk, k).value.key == k && Merge.Version(Compaction.Disks(order), Find(t.disk, k).value)
  {
    hide Find;
    Store.FindMember(t.disk, k);
    var i :| 0 <= i < |order| && order[i] == t;
    assert Compaction.Disks(order)[i] == t.disk;
  }

  lemma VersionOf(order: seq<Buckets.Sst>, e: Entry)
    requires Merge.Version(Compaction.Disks(order), e)
    ensures exists t | t in multiset(order) :: Find(t.disk, e.key) == Some(e)
  {
    hide Find;
    var i :| 0 <= i < |order| && Find(Compaction.Disks(order)[i], e.key) == Some(e);
    assert order[i] in multiset(order);
  }

  /** Tables that bring no version of the key that was not there. */
  lemma NoOtherVersions(before: seq<Buckets.Sst>, after: seq<Buckets.Sst>, k: Key)
    requires Compaction.NothingNew(multiset(before), multiset(after), k)
    ensures forall e: Entry | e.key == k && Merge.Version(Compaction.Disks(after), e) ::
              Merge.Version(Compaction.Disks(before), e)
  {
    hide Find, Merge.Version;
    forall e: Entry | e.key == k && Merge.Version(Compaction.Disks(after), e)
      ensures Merge.Version(Compaction.Disks(before), e)
    {
      VersionOf(after, e);
      var t :| t in multiset(after) && Find(t.disk, e.key) == Some(e);
      var t' :| t' in multiset(before) && Find(t'.disk, e.key) == Some(e);
      IsVersion(before, t', k);
    }
  }

  /** The search finds what is newest, in whatever order it visits the tables. */
  lemma SearchFinds(order: seq<Buckets.Sst>, k: Key, r: Option<Entry>)
    requires Compaction.Timed(multiset(order), k) && Compaction.IsNewest(multiset(order), k, r)
    ensures Merge.Newest(Compaction.Disks(order), k) == r
  {
    hide Compaction.IsNewest, Compaction.Timed, Merge.Newest;
    Compaction.SearchFindsNewest(order, k);
    Compaction.NewestUniqueIn(multiset(order), k, r, Merge.Newest(Compaction.Disks(order), k));
  }

  /** Before its clean-up, no read can tell that a round is under way. */
  lemma RoundIsRearrangement(cfg: Merge.Config, clock: nat -> nat, a: Compaction.RunState, j: nat,
                             before: seq<Buckets.Sst>, during: seq<Buckets.Sst>, k: Key)
    requires Compaction.Valid(a.sys) && Compaction.Extracted(Compaction.Removals(a)) && j <= |Compaction.Removals(a)|
    requires multiset(before) == Compaction.Tables(a) && Compaction.Timed(Compaction.Tables(a), k)
    requires multiset(during) == Buckets.TablesOf(Compaction.Inserted(cfg, clock, a, j).buckets)
    ensures StoreSteps.Rearranged(Compaction.Disks(before), Compaction.Disks(during), k)
  {
    hide Find, Compaction.Valid, Compaction.Inserted, Compaction.Removals, Compaction.Folded, Buckets.TablesOf,
         Compaction.FreshAll, Merge.Newest, Merge.Version, Compaction.IsNewest, Compaction.Timed;
    Compaction.InsertedNothingNew(cfg, clock, a, j, k);
    NoOtherVersions(before, during, k);
    Compaction.SearchFindsNewest(before, k);
    var r := Merge.Newest(Compaction.Disks(before), k);
    Compaction.LookupDuringRound(cfg, clock, a, j, k, r);
    Compaction.TimedSubset(multiset(before), multiset(during), k);
    SearchFinds(during, k, r);
  }

  /** After its clean-up, the reads of a key are as before if and only if what the round leaves of it, worked
      out from the tables before the round, is the same live version, or none if there was none. */
  lemma FinishedRound(cfg: Merge.Config, clock: nat -> nat, a: Compaction.RunState,
                      before: seq<Buckets.Sst>, after: seq<Buckets.Sst>, k: Key, r: Option<Entry>, q: Option<Entry>)
    requires Compaction.Valid(a.sys) && Compaction.Extracted(Compaction.Removals(a))
    requires Compaction.Timed(Compaction.Tables(a), k)
    requires Compaction.IsNewest(Compaction.Tables(a), k, r) && Compaction.IsNewest(Compaction.Staying(a), k, q)
    requires multiset(before) == Compaction.Tables(a)
    requires multiset(after) == Compaction.Tables(Compaction.AfterRound(cfg, clock, a))
    ensures StoreSteps.Rearranged(Compaction.Disks(before), Compaction.Disks(after), k) <==>
            StoreSteps.SameLive(r, Compaction.Outcome(cfg, clock, a, k, q))
  {
    hide Find, Compaction.Valid, Compaction.AfterRound, Compaction.Removals, Compaction.Tables, Compaction.Staying,
         Merge.Newest, Merge.Version, Compaction.IsNewest, Compaction.Timed, Compaction.Outcome;
    Compaction.RoundNothingNew(cfg, clock, a, k);
    Compaction.RoundExactly(cfg, clock, a, k, q);
    NoOtherVersions(before, after, k);
    SearchFinds(before, k, r);
    SearchFinds(after, k, Compaction.Outcome(cfg, clock, a, k, q));
  }

  /** For a live newest version that means that it comes through the round. */
  lemma LiveAfterRound(cfg: Merge.Config, clock: nat -> nat, a: Compaction.RunState,
                       before: seq<Buckets.Sst>, after: seq<Buckets.Sst>, e: Entry)
    requires Compaction.Valid(a.sys) && Compaction.Extracted(Compaction.Removals(a)) && Compaction.Forward(clock)
    requires Compaction.Timed(Compaction.Tables(a), e.key)
    requires Compaction.IsNewest(Compaction.Tables(a), e.key, Some(e)) && !e.tomb
    requires multiset(before) == Compaction.Tables(a)
    requires multiset(after) == Compaction.Tables(Compaction.AfterRound(cfg, clock, a))
    ensures StoreSteps.Rearranged(Compaction.Disks(before), Compaction.Disks(after), e.key) <==>
            Compaction.Carried(cfg, clock, a, e)
  {
    hide Find, Compaction.Valid, Compaction.AfterRound, Compaction.Removals, Compaction.Tables, Compaction.Carried,
         Merge.Newest, Merge.Version, Compaction.IsNewest, Compaction.Timed;
    Compaction.RoundNothingNew(cfg, clock, a, e.key);
    Compaction.RoundKeepsLive(cfg, clock, a, e);
    NoOtherVersions(before, after, e.key);
    SearchFinds(before, e.key, Some(e));
    Compaction.SearchFindsNewest(after, e.key);
    if Compaction.IsNewest(multiset(after), e.key, Some(e)) {
      SearchFinds(after, e.key, Some(e));
    }
  }

  /** A key without versions never notices a round. */
  lemma AbsentAfterRound(cfg: Merge.Config, clock: nat -> nat, a: Compaction.RunState,
                         before: seq<Buckets.Sst>, after: seq<Buckets.Sst>, k: Key)
    requires Compaction.Valid(a.sys) && Compaction.Extracted(Compaction.Removals(a))
    requires Compaction.Timed(Compaction.Tables(a), k) && Compaction.IsNewest(Compaction.Tables(a), k, None)
    requires multiset(before) == Compaction.Tables(a)
    requires multiset(after) == Compaction.Tables(Compaction.AfterRound(cfg, clock, a))
    ensures StoreSteps.Rearranged(Compaction.Disks(before), Compaction.Disks(after), k)
  {
    hide Find, Compaction.Valid, Compaction.AfterRound, Compaction.Removals, Compaction.Tables, Merge.Newest,
         Merge.Version, Compaction.IsNewest, Compaction.Timed;
    Compaction.RoundNothingNew(cfg, clock, a, k);
    NoOtherVersions(before, after, k);
    SearchFinds(before, k, None);
    SearchFinds(after, k, None);
  }

  /** The order in which the tables are visited does not matter. */
  lemma OrderIsUnnoticed(before: seq<Buckets.Sst>, after: seq<Buckets.Sst>, k: Key)
    requires multiset(before) == multiset(after) && Compaction.Timed(multiset(before), k)
    ensures StoreSteps.Rearranged(Compaction.Disks(before), Compaction.Disks(after), k)
  {
    hide Find, Merge.Newest, Merge.Version, Compaction.IsNewest, Compaction.Timed;
    Compaction.SearchFindsNewest(before, k);
    SearchFinds(after, k, Merge.Newest(Compaction.Disks(before), k));
    SameIsNothingNew(multiset(before), k);
    NoOtherVersions(before, after, k);
  }

  lemma SameIsNothingNew(ts: multiset<Buckets.Sst>, k: Key)
    ensures Compaction.NothingNew(ts, ts, k)
  {
    forall t | t in ts && Find(t.disk, k).Some?
      ensures Compaction.Holds(ts, Find(t.disk, k).value)
    {
      Merge.FindKey(t.disk, k);
    }
  }

  // ---------------------------------------------------------------------
  // Merges that read the collector's table

  /** What the merges read, when the entry maps of the tables hold nothing, or what the collector has put into
      the one it shares. */
  predicate LoadedFrom(rs: seq<Buckets.Removal>, loaded: seq<Buckets.Removal>, held: seq<Entry>)
  {
    |loaded| == |rs| &&
    forall i | 0 <= i < |rs| ::
      |loaded[i].tables| == |rs[i].tables| &&
      forall j | 0 <= j < |rs[i].tables| ::
        loaded[i].tables[j].disk == rs[i].tables[j].disk &&
        (loaded[i].tables[j].mem == [] || loaded[i].tables[j].mem == held)
  }

  lemma LoadedMergeable(rs: seq<Buckets.Removal>, loaded: seq<Buckets.Removal>, held: seq<Entry>)
    requires Compaction.AllMergeable(rs) && LoadedFrom(rs, loaded, held) && Sorted(held)
    ensures Compaction.AllMergeable(loaded)
  {
    hide Sorted;
    StoreSteps.EmptySorted();
    forall i, j | 0 <= i < |loaded| && 0 <= j < |loaded[i].tables|
      ensures Sorted(loaded[i].tables[j].disk) && Sorted(loaded[i].tables[j].mem)
    {
      assert Sorted(rs[i].tables[j].disk);
    }
  }

  /** The merge of a bucket reads what its tables hold on disk, or what the collector holds. */
  lemma LoadedReads(rs: seq<Buckets.Removal>, loaded: seq<Buckets.Removal>, held: seq<Entry>, i: nat, x: Entry)
    requires LoadedFrom(rs, loaded, held) && i < |rs| && rs[i].tables != []
    requires Merge.Version(Compaction.Contents(loaded[i].tables), x)
    ensures Find(held, x.key) == Some(x) || Compaction.Holds(multiset(rs[i].tables), x)
  {
    hide Find;
    var ts := loaded[i].tables;
    var c := Compaction.Contents(ts);
    var j :| 0 <= j < |c| && Find(c[j], x.key) == Some(x);
    Merge.FindNone(x.key);
    if j > 0 {
      assert c[j] == ts[1..][j - 1].disk == rs[i].tables[j].disk;
      assert rs[i].tables[j] in multiset(rs[i].tables);
    }
  }

  /** A table with what the collector holds on disk. */
  function HeldTable(held: seq<Entry>): (t: Buckets.Sst) { Buckets.Sst(0, held, []) }

  lemma LoadedDrawn(a: Compaction.RunState, loaded: seq<Buckets.Removal>, held: seq<Entry>)
    requires Compaction.Valid(a.sys) && LoadedFrom(Compaction.Removals(a), loaded, held) && Sorted(held)
    ensures Compaction.AllDrawn(Compaction.Tables(a) + multiset{HeldTable(held)}, loaded)
  {
    hide Find, Compaction.Valid, Compaction.Removals, Compaction.Tables, Merge.Version, Compaction.Contents,
         Sorted, Compaction.Mergeable;
    var rs, ts := Compaction.Removals(a), Compaction.Tables(a) + multiset{HeldTable(held)};
    Compaction.RemovalFacts(a);
    LoadedMergeable(rs, loaded, held);
    forall i | 0 <= i < |loaded|
      ensures Compaction.Drawn(ts, loaded[i])
    {
      forall x: Entry | Merge.Version(Compaction.Contents(loaded[i].tables), x)
        ensures Compaction.Holds(ts, x)
      {
        LoadedReads(rs, loaded, held, i, x);
        if Find(held, x.key) == Some(x) {
          assert HeldTable(held) in ts;
        } else {
          Compaction.HoldsMore(multiset(rs[i].tables), ts, x);
        }
      }
    }
  }

  /** A live version that is newest of all the merges may read comes through the round if and only if a table
      that stays holds it, or it is newer than the deletion on record and some merge reads it and finds it
      unexpired. */
  lemma LoadedKeepsLive(cfg: Merge.Config, clock: nat -> nat, a: Compaction.RunState, loaded: seq<Buckets.Removal>,
                        held: seq<Entry>, merged: seq<Buckets.Sst>, e: Entry)
    requires Compaction.Valid(a.sys) && LoadedFrom(Compaction.Removals(a), loaded, held) && Sorted(held)
    requires Compaction.Extracted(loaded) && Compaction.Forward(clock) && !e.tomb
    requires var ts := Compaction.Tables(a) + multiset{HeldTable(held)};
             Compaction.Timed(ts, e.key) && Compaction.IsNewest(ts, e.key, Some(e))
    requires Compaction.Disks(merged) == Compaction.MergeBuckets(cfg, clock, a.tick, loaded, a.marks).outs
    ensures Compaction.Holds(Compaction.Staying(a) + multiset(merged), e) <==>
            Compaction.Holds(Compaction.Staying(a), e) ||
            (Merge.Passes(Merge.Recorded(a.marks, e.key), e) &&
             exists i :: 0 <= i < |loaded| && Compaction.Carries(cfg, clock, a.tick, loaded, i, e))
  {
    hide Find, Compaction.Valid, Compaction.Removals, Compaction.Tables, Compaction.MergeBuckets, Compaction.Timed,
         Compaction.IsNewest, Compaction.Carries, Compaction.Forward, Compaction.Drawn, Buckets.Removed, Merge.Passes,
         LoadedFrom, Sorted;
    var ts := Compaction.Tables(a) + multiset{HeldTable(held)};
    var outs := Compaction.MergeBuckets(cfg, clock, a.tick, loaded, a.marks).outs;
    LoadedDrawn(a, loaded, held);
    if Merge.Passes(Merge.Recorded(a.marks, e.key), e) {
      Compaction.BucketsKeepLive(cfg, clock, a.tick, loaded, a.marks, ts, e);
    } else {
      assert loaded[..0] == [];
      Compaction.NoMerges(cfg, clock, a.tick, a.marks);
      Compaction.BucketsRespectDeletion(cfg, clock, a.tick, loaded, a.marks, ts, 0, e.key);
      NoneRespects(outs, a.marks, e);
    }
    HeldWith(Compaction.Staying(a), merged, e);
  }

  lemma NoneRespects(outs: seq<seq<Entry>>, m: Merge.Deletions, e: Entry)
    requires !Merge.Passes(Merge.Recorded(m, e.key), e) && !e.tomb
    requires forall i | 0 <= i < |outs| :: Compaction.Respects(Find(outs[i], e.key), m, e.key)
    ensures forall i | 0 <= i < |outs| :: Find(outs[i], e.key) != Some(e)
  {
    hide Find;
  }

  lemma HeldWith(ts: multiset<Buckets.Sst>, added: seq<Buckets.Sst>, e: Entry)
    ensures Compaction.Holds(ts + multiset(added), e) <==>
            Compaction.Holds(ts, e) || exists i :: 0 <= i < |added| && Find(added[i].disk, e.key) == Some(e)
  {
    hide Find;
    var all := ts + multiset(added);
    if Compaction.Holds(all, e) && !Compaction.Holds(ts, e) {
      var t :| t in all && Find(t.disk, e.key) == Some(e);
      var i :| 0 <= i < |added| && added[i] == t;
    }
    if Compaction.Holds(ts, e) {
      Compaction.HoldsMore(ts, all, e);
    }
    if i :| 0 <= i < |added| && Find(added[i].disk, e.key) == Some(e) {
      assert added[i] in all;
    }
  }

  // ---------------------------------------------------------------------
  // The clean-up of a round

  lemma PositiveTimes(ts: multiset<Buckets.Sst>, added: seq<Buckets.Sst>, k: Key)
    requires Compaction.Timed(ts + multiset(added), k)
    ensures forall i | 0 <= i < |added| :: Find(added[i].disk, k).Some? ==> Find(added[i].disk, k).value.time > 0
  {
    hide Find;
    forall i | 0 <= i < |added|
      ensures Find(added[i].disk, k).Some? ==> Find(added[i].disk, k).value.time > 0
    {
      assert added[i] in multiset(added);
      assert added[i] in ts + multiset(added);
    }
  }

  lemma TimedPart(ts: multiset<Buckets.Sst>, more: multiset<Buckets.Sst>, k: Key)
    requires Compaction.Timed(ts + more, k)
    ensures Compaction.Timed(ts, k)
  {
    hide Find;
    forall t | t in ts
      ensures t in ts + more
    {
    }
  }

  /** Tables are added to a search, and to what it finds. */
  lemma SearchWith(ts: multiset<Buckets.Sst>, added: seq<Buckets.Sst>, k: Key, r: Option<Entry>)
    requires Compaction.Timed(ts + multiset(added), k) && Compaction.IsNewest(ts, k, r)
    ensures Compaction.IsNewest(ts + multiset(added), k,
                                Compaction.NewestOf(r, Merge.Finds(Compaction.Disks(added), k)))
  {
    hide Find, Compaction.IsNewest, Compaction.NewestOf, Compaction.Timed;
    PositiveTimes(ts, added, k);
    Compaction.NewestAllAdded(ts, added, k, r);
  }

  lemma SameElements(ts: multiset<Buckets.Sst>, ts': multiset<Buckets.Sst>, k: Key, r: Option<Entry>)
    requires forall t :: t in ts <==> t in ts'
    ensures Compaction.IsNewest(ts, k, r) ==> Compaction.IsNewest(ts', k, r)
    ensures Compaction.Timed(ts, k) ==> Compaction.Timed(ts', k)
  {
    hide Find;
  }

  /** The clean-up of a round: `all` were the tables at its beginning, of which `stay` stay in the buckets and
      `kept` are still searched; `others` are the tables searched besides. The reads of a key are as before if
      and only if what the merges have made of it looks the same beside what stays and beside what was there,
      among the other tables. */
  lemma CleanUpUnnoticed(all: multiset<Buckets.Sst>, stay: multiset<Buckets.Sst>, merged: seq<Buckets.Sst>,
                         others: seq<Buckets.Sst>, kept: seq<Buckets.Sst>, before: seq<Buckets.Sst>,
                         after: seq<Buckets.Sst>, k: Key, r: Option<Entry>, q: Option<Entry>)
    requires stay <= all && multiset(kept) <= all && Compaction.Timed(multiset(before), k)
    requires multiset(before) == all + multiset(merged) + multiset(others)
    requires multiset(after) == stay + multiset(merged) + multiset(others + kept)
    requires Compaction.IsNewest(all, k, r) && Compaction.IsNewest(stay, k, q)
    ensures forall e: Entry | e.key == k && Merge.Version(Compaction.Disks(after), e) ::
              Merge.Version(Compaction.Disks(before), e)
    ensures StoreSteps.Rearranged(Compaction.Disks(before), Compaction.Disks(after), k) <==>
            var m, f := Merge.Finds(Compaction.Disks(merged), k), Merge.Finds(Compaction.Disks(others + kept), k);
            StoreSteps.SameLive(Compaction.NewestOf(Compaction.NewestOf(r, m), f),
                                Compaction.NewestOf(Compaction.NewestOf(q, m), f))
  {
    hide Find, Compaction.IsNewest, Compaction.NewestOf, Merge.Newest, Merge.Version, Compaction.Timed, Merge.Finds;
    var m, f := Merge.Finds(Compaction.Disks(merged), k), Merge.Finds(Compaction.Disks(others + kept), k);
    var more := all + multiset(merged) + multiset(others + kept);
    forall t
      ensures t in multiset(before) <==> t in more
      ensures t in multiset(after) ==> t in multiset(before)
    {
    }
    SubsetNothingNew(multiset(before), multiset(after), k);
    Compaction.TimedSubset(multiset(before), multiset(after), k);
    NoOtherVersions(before, after, k);
    SameElements(multiset(before), more, k, None);
    TimedPart(all + multiset(merged), multiset(others + kept), k);
    SearchWith(all, merged, k, r);
    SearchWith(all + multiset(merged), others + kept, k, Compaction.NewestOf(r, m));
    SameElements(more, multiset(before), k, Compaction.NewestOf(Compaction.NewestOf(r, m), f));
    TimedPart(stay + multiset(merged), multiset(others + kept), k);
    SearchWith(stay, merged, k, q);
    SearchWith(stay + multiset(merged), others + kept, k, Compaction.NewestOf(q, m));
    SearchFinds(before, k, Compaction.NewestOf(Compaction.NewestOf(r, m), f));
    SearchFinds(after, k, Compaction.NewestOf(Compaction.NewestOf(q, m), f));
  }

  lemma SubsetNothingNew(ts: multiset<Buckets.Sst>, ts': multiset<Buckets.Sst>, k: Key)
    requires forall t | t in ts' :: t in ts
    ensures Compaction.NothingNew(ts, ts', k)
  {
    SameIsNothingNew(ts, k);
  }

  /** Tables are no longer searched: the reads of a key are as before if and only if what they add to the rest
      cannot be told from it. */
  lemma DroppedUnnoticed(rest: multiset<Buckets.Sst>, dropped: seq<Buckets.Sst>, before: seq<Buckets.Sst>,
                         after: seq<Buckets.Sst>, k: Key, r: Option<Entry>)
    requires multiset(before) == rest + multiset(dropped) && multiset(after) == rest
    requires Compaction.Timed(multiset(before), k) && Compaction.IsNewest(rest, k, r)
    ensures StoreSteps.Rearranged(Compaction.Disks(before), Compaction.Disks(after), k) <==>
            StoreSteps.SameLive(Compaction.NewestOf(r, Merge.Finds(Compaction.Disks(dropped), k)), r)
  {
    hide Find, Compaction.IsNewest, Compaction.NewestOf, Merge.Newest, Merge.Version, Compaction.Timed;
    SubsetNothingNew(multiset(before), multiset(after), k);
    Compaction.TimedSubset(multiset(before), multiset(after), k);
    NoOtherVersions(before, after, k);
    SearchWith(rest, dropped, k, r);
    SearchFinds(before, k, Compaction.NewestOf(r, Merge.Finds(Compaction.Disks(dropped), k)));
    SearchFinds(after, k, r);
  }
}
