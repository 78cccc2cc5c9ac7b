/** The runner of size-tiered compaction: the merge loops and the loop over rounds. */
module Compactors {
  import opened Wrappers
  import opened Bytes
  import opened Entries
  import opened Merge
  import opened Buckets
  import opened BucketMaps
  import opened Compaction
  import SsTable

  class SizedTierRunner {
    const cfg: Config
    const clock: nat -> nat
    const bucketMap: BucketMap
    var keyRanges: map<nat, Sst>
    var tombstones: Deletions
    var nextId: nat
    var tick: nat

    constructor (bucketMap: BucketMap, keyRanges: map<nat, Sst>, nextId: nat, cfg: Config, clock: nat -> nat)
      ensures this.cfg == cfg && this.clock == clock && this.bucketMap == bucketMap
      ensures State() == RunState(Sys(bucketMap.buckets, keyRanges, nextId), map[], 0)
    {
      this.cfg, this.clock, this.bucketMap := cfg, clock, bucketMap;
      this.keyRanges, this.nextId := keyRanges, nextId;
      tombstones, tick := map[], 0;
    }

    ghost function State(): (s: RunState)
      reads this, bucketMap
    {
      RunState(Sys(bucketMap.buckets, keyRanges, nextId), tombstones, tick)
    }

    method TombstoneCheck(entry: Entry, now: nat, merged: seq<Entry>) returns (merged': seq<Entry>)
      modifies this`tombstones
      ensures tombstones == Note(old(tombstones), entry)
      ensures merged' == merged + if Keeps(cfg, now, Recorded(old(tombstones), entry.key), entry) then [entry] else []
      ensures var t := old(tombstones);
              var newer := entry.key in t ==> entry.time > t[entry.key];
              tombstones == (if entry.tomb && newer then t[entry.key := entry.time] else t) &&
              (merged' == merged + [entry] <==>
               newer && (entry.tomb ==> now <= entry.time + cfg.tombstoneTtl) &&
               (!entry.tomb && cfg.useTtl ==> now <= entry.time + cfg.entryTtl))
    {
      var shouldInsert := false;
      if entry.key in tombstones {
        var tombInsertTime := tombstones[entry.key];
        if entry.time > tombInsertTime {
          if entry.tomb {
            tombstones := tombstones[entry.key := entry.time];
            shouldInsert := !Expired(entry, cfg.tombstoneTtl, now);
          } else if cfg.useTtl {
            shouldInsert := !Expired(entry, cfg.entryTtl, now);
          } else {
            shouldInsert := true;
          }
        }
      } else if entry.tomb {
        tombstones := tombstones[entry.key := entry.time];
        shouldInsert := !Expired(entry, cfg.tombstoneTtl, now);
      } else if cfg.useTtl {
        shouldInsert := !Expired(entry, cfg.entryTtl, now);
      } else {
        shouldInsert := true;
      }
      merged' := merged;
      if shouldInsert {
        merged' := merged' + [entry];
      }
    }

    /** The two-pointer merge. */
    method MergeSstables(entries1: seq<Entry>, entries2: seq<Entry>, now: nat) returns (merged: seq<Entry>)
      requires Sorted(entries1) && Sorted(entries2)
      modifies this`tombstones
      ensures (merged, tombstones) == MergeTwo(cfg, now, entries1, entries2, old(tombstones))
      ensures Sorted(merged)
    {
      hide Less, Keeps, Note, Sorted, MergeTwo;
      merged := [];
      var ptr1, ptr2 := 0, 0;
      ghost var goal := MergeTwo(cfg, now, entries1, entries2, tombstones);
      assert entries1[0..] == entries1 && entries2[0..] == entries2;
      assert [] + goal.0 == goal.0;
      while ptr1 < |entries1| && ptr2 < |entries2|
        invariant 0 <= ptr1 <= |entries1| && 0 <= ptr2 <= |entries2|
        invariant Ahead(goal, merged, MergeTwo(cfg, now, entries1[ptr1..], entries2[ptr2..], tombstones))
      {
        ghost var left, right, marks := entries1[ptr1..], entries2[ptr2..], tombstones;
        ghost var p := Next(left, right);
        MergeStep(goal, merged, cfg, now, left, right, marks);
        LessTrichotomy(entries1[ptr1].key, entries2[ptr2].key);
        if Less(entries1[ptr1].key, entries2[ptr2].key) {
          merged := TombstoneCheck(entries1[ptr1], now, merged);
          ptr1 := ptr1 + 1;
        } else if entries1[ptr1].key == entries2[ptr2].key {
          if entries1[ptr1].time > entries2[ptr2].time {
            merged := TombstoneCheck(entries1[ptr1], now, merged);
          } else {
            merged := TombstoneCheck(entries2[ptr2], now, merged);
          }
          ptr1, ptr2 := ptr1 + 1, ptr2 + 1;
        } else {
          merged := TombstoneCheck(entries2[ptr2], now, merged);
          ptr2 := ptr2 + 1;
        }
        assert p.left == entries1[ptr1..] && p.right == entries2[ptr2..];
      }
      while ptr1 < |entries1|
        invariant 0 <= ptr1 <= |entries1| && 0 <= ptr2 <= |entries2|
        invariant ptr1 == |entries1| || ptr2 == |entries2|
        invariant Ahead(goal, merged, MergeTwo(cfg, now, entries1[ptr1..], entries2[ptr2..], tombstones))
      {
        MergeStep(goal, merged, cfg, now, entries1[ptr1..], entries2[ptr2..], tombstones);
        assert entries1[ptr1..][1..] == entries1[ptr1 + 1..];
        merged := TombstoneCheck(entries1[ptr1], now, merged);
        ptr1 := ptr1 + 1;
      }
      while ptr2 < |entries2|
        invariant ptr1 == |entries1| && 0 <= ptr2 <= |entries2|
        invariant Ahead(goal, merged, MergeTwo(cfg, now, entries1[ptr1..], entries2[ptr2..], tombstones))
      {
        MergeStep(goal, merged, cfg, now, entries1[ptr1..], entries2[ptr2..], tombstones);
        assert entries2[ptr2..][1..] == entries2[ptr2 + 1..];
        merged := TombstoneCheck(entries2[ptr2], now, merged);
        ptr2 := ptr2 + 1;
      }
      assert entries1[ptr1..] == [] && entries2[ptr2..] == [];
      assert merged + [] == merged;
      MergeNothing(cfg, now, tombstones);
      MergeSorted(cfg, now, entries1, entries2, old(tombstones));
    }

    /** Folds the merge over the tables of each bucket: the first from memory, the others loaded. */
    method MergeSstsInBuckets(rs: seq<Removal>) returns (r: Result<seq<seq<Entry>>>)
      requires RemovalsOk(rs)
      modifies this`tombstones, this`tick
      ensures var f := MergeBuckets(cfg, clock, old(tick), rs, old(tombstones));
              if forall i | 0 <= i < |rs| :: f.outs[i] != []
              then r == Ok(f.outs) && tombstones == f.marks && tick == f.tick
              else r == Err(EmptyMerge)
    {
      hide MergeBucket;
      var merged: seq<seq<Entry>> := [];
      var i := 0;
      ghost var f := MergeBuckets(cfg, clock, tick, rs, tombstones);
      assert rs[..0] == [];
      while i < |rs|
        invariant 0 <= i <= |rs|
        invariant Fold(merged, tombstones, tick) == MergeBuckets(cfg, clock, old(tick), rs[..i], old(tombstones))
        invariant forall j | 0 <= j < i :: merged[j] != []
      {
        assert rs[..i + 1][..i] == rs[..i];
        var out := MergeOneBucket(rs[i]);
        OutsOfPrefix(cfg, clock, old(tick), rs, old(tombstones), i + 1);
        if out == [] {
          assert f.outs[i] == [];
          return Err(EmptyMerge);
        }
        merged := merged + [out];
        i := i + 1;
      }
      assert rs[..i] == rs;
      return Ok(merged);
    }

    method MergeOneBucket(r: Removal) returns (merged: seq<Entry>)
      requires |r.tables| >= MIN_THRESHOLD && TablesOk(r.tables)
      modifies this`tombstones, this`tick
      ensures (merged, tombstones) == MergeBucket(cfg, clock, old(tick), r, old(tombstones))
      ensures tick == old(tick) + |r.tables| - 1
    {
      hide MergeTwo, Sorted, MergeAll;
      var tables := r.tables;
      ghost var nows, rest, start := Readings(clock, tick, |tables| - 1), Disks(tables[1..]), tick;
      merged := tables[0].mem;
      assert TableOk(tables[0]) && Sorted(merged) by { SortedEmpty(); }
      var i := 1;
      assert nows[..0] == [] && rest[..0] == [];
      MergeAllNone(cfg, merged, tombstones);
      while i < |tables|
        invariant 1 <= i <= |tables|
        invariant tick == start + i - 1 && Sorted(merged)
        invariant (merged, tombstones) == MergeAll(cfg, nows[..i - 1], tables[0].mem, rest[..i - 1], old(tombstones))
      {
        MergeAllStep(cfg, nows, tables[0].mem, rest, old(tombstones), i - 1);
        assert rest[i - 1] == tables[1..][i - 1].disk == tables[i].disk;
        assert TableOk(tables[i]);
        merged := MergeSstables(merged, tables[i].disk, clock(tick));
        tick := tick + 1;
        i := i + 1;
      }
      assert nows[..i - 1] == nows && rest[..i - 1] == rest;
    }

    /** Insertion of the merged tables, each registered before the next. It stops at a table that
        cannot be written. */
    method InsertMerged(merged: seq<seq<Entry>>) returns (r: Result<()>, ghost j: nat)
      requires forall i | 0 <= i < |merged| :: merged[i] != []
      modifies bucketMap, this`keyRanges, this`nextId
      ensures j <= |merged| && State().sys == AddTables(old(State().sys), merged[..j])
      ensures r.Ok? <==> j == |merged|
      ensures r.Err? ==> !SsTable.Fits(merged[j])
      ensures unchanged(`tombstones) && unchanged(`tick)
    {
      hide Insert, AddTables, TablesOf, SsTable.SizeOf;
      j := 0;
      var i := 0;
      assert merged[..0] == [];
      AddNone(State().sys);
      while i < |merged|
        invariant 0 <= i == j <= |merged|
        invariant State().sys == AddTables(old(State().sys), merged[..i])
        invariant unchanged(`tombstones) && unchanged(`tick)
      {
        if !SsTable.Fits(merged[i]) {
          return Err(BlockIsFull), i;
        }
        AddOneMore(old(State().sys), merged, i);
        var sst := Sst(nextId, merged[i], []);
        bucketMap.InsertToAppropriateBucket(sst, SsTable.SizeOf(merged[i]), nextId);
        keyRanges := keyRanges[sst.dir := sst];
        nextId := nextId + 1;
        i := i + 1;
        j := i;
      }
      return Ok(()), i;
    }

    method CleanUpAfterCompaction(rs: seq<Removal>)
      modifies bucketMap, this`keyRanges
      ensures State().sys == CleanUp(old(State().sys), rs)
      ensures unchanged(`tombstones) && unchanged(`tick) && unchanged(`nextId)
    {
      hide Delete;
      bucketMap.DeleteSsts(rs);
      var i := 0;
      assert keyRanges - DirsOf(rs[..0]) == keyRanges;
      while i < |rs|
        invariant 0 <= i <= |rs|
        invariant keyRanges == old(keyRanges) - DirsOf(rs[..i])
        invariant bucketMap.buckets == Delete(old(bucketMap.buckets), rs)
        invariant unchanged(`tombstones) && unchanged(`tick) && unchanged(`nextId)
      {
        ghost var before := keyRanges;
        var gone := set s | s in rs[i].tables :: s.dir;
        keyRanges := keyRanges - gone;
        DirsStep(rs, i);
        i := i + 1;
      }
      assert rs[..i] == rs;
    }

    /** Runs rounds until no bucket has four tables. `rounds` are the states between rounds. The run
        ends because every round leaves at least three tables fewer. It ends balanced. When a round
        fails, only insertions of that round have happened, so every lookup still answers as it did
        when the round began. */
    method RunCompaction() returns (r: Result<()>, ghost rounds: seq<RunState>, ghost j: nat)
      requires Valid(State().sys)
      modifies this, bucketMap
      ensures Run(cfg, clock, rounds) && rounds[0] == old(State())
      ensures r.Ok? ==> State().sys == rounds[|rounds| - 1].sys && IsBalanced(bucketMap.buckets)
      ensures r.Ok? ==> Valid(State().sys)
      ensures r.Err? ==> Extracted(Removals(rounds[|rounds| - 1])) && j <= |Removals(rounds[|rounds| - 1])| &&
                         State().sys == Inserted(cfg, clock, rounds[|rounds| - 1], j)
      ensures r.Err? ==> forall k, x | Timed(Tables(rounds[|rounds| - 1]), k) ::
                           IsNewest(Tables(rounds[|rounds| - 1]), k, x) <==> IsNewest(TablesOf(bucketMap.buckets), k, x)
    {
      hide Valid, ExtractAll, MergeBuckets, AddTables, CleanUp, TablesOf, Sorted, Removed, IsNewest, Timed, Extracted;
      rounds, j := [State()], 0;
      var balanced := bucketMap.Balanced();
      if balanced {
        return Ok(()), rounds, j;
      }
      while true
        invariant Run(cfg, clock, rounds) && rounds[0] == old(State())
        invariant State() == rounds[|rounds| - 1] && Valid(State().sys)
        decreases |TablesOf(bucketMap.buckets)|
      {
        ghost var a := State();
        var rs := bucketMap.ExtractImbalancedBuckets();
        assert rs == Removals(a);
        RemovalFacts(a);
        if rs == [] {
          tombstones := map[];
          return Ok(()), rounds, j;
        }
        var merged := MergeSstsInBuckets(rs);
        if merged.Err? {
          assert Folded(cfg, clock, a).outs[..0] == [];
          NothingInserted(cfg, clock, a);
          StillAnswers(cfg, clock, a, 0);
          return Err(merged.error), rounds, 0;
        }
        var inserted;
        inserted, j := InsertMerged(merged.value);
        if inserted.Err? {
          StillAnswers(cfg, clock, a, j);
          return Err(inserted.error), rounds, j;
        }
        assert merged.value[..j] == merged.value;
        CleanUpAfterCompaction(rs);
        assert State() == AfterRound(cfg, clock, a);
        AfterRoundTables(cfg, clock, a);
        RoundShrinks(cfg, clock, a);
        RunExtend(cfg, clock, rounds, State());
        rounds := rounds + [State()];
      }
    }
  }

  /** `goal` is what `merged` and the remaining merge make together. */
  ghost predicate Ahead(goal: (seq<Entry>, Deletions), merged: seq<Entry>, rest: (seq<Entry>, Deletions))
  {
    goal == (merged + rest.0, rest.1)
  }

  lemma MergeAllNone(cfg: Config, acc: seq<Entry>, m: Deletions)
    ensures MergeAll(cfg, [], acc, [], m) == (acc, m)
  {
  }

  lemma MergeAllStep(cfg: Config, nows: seq<nat>, acc: seq<Entry>, tables: seq<seq<Entry>>, m: Deletions, i: nat)
    requires |nows| == |tables| && i < |tables|
    ensures var (out, m') := MergeAll(cfg, nows[..i], acc, tables[..i], m);
            MergeAll(cfg, nows[..i + 1], acc, tables[..i + 1], m) == MergeTwo(cfg, nows[i], out, tables[i], m')
  {
    hide MergeTwo;
    assert nows[..i + 1][..i] == nows[..i] && tables[..i + 1][..i] == tables[..i];
  }

  lemma MergeNothing(cfg: Config, now: nat, m: Deletions)
    ensures MergeTwo(cfg, now, [], [], m) == ([], m)
  {
  }

  lemma MergeStep(goal: (seq<Entry>, Deletions), merged: seq<Entry>, cfg: Config, now: nat,
                  a: seq<Entry>, b: seq<Entry>, m: Deletions)
    requires (a != [] || b != []) && Ahead(goal, merged, MergeTwo(cfg, now, a, b, m))
    ensures var p := Next(a, b);
            var kept := if Keeps(cfg, now, Recorded(m, p.entry.key), p.entry) then [p.entry] else [];
            Ahead(goal, merged + kept, MergeTwo(cfg, now, p.left, p.right, Note(m, p.entry)))
  {
    hide Keeps, Note, Less;
    var p := Next(a, b);
    var kept := if Keeps(cfg, now, Recorded(m, p.entry.key), p.entry) then [p.entry] else [];
    var rest := MergeTwo(cfg, now, p.left, p.right, Note(m, p.entry));
    assert merged + (kept + rest.0) == merged + kept + rest.0;
  }

  lemma AddNone(s: Sys)
    ensures AddTables(s, []) == s
  {
  }

  lemma AddOneMore(s: Sys, outs: seq<seq<Entry>>, i: nat)
    requires i < |outs|
    ensures AddTables(s, outs[..i + 1]) == AddTable(AddTables(s, outs[..i]), outs[i], SsTable.SizeOf(outs[i]))
  {
    hide Insert;
    assert outs[..i + 1][..i] == outs[..i];
  }

  lemma DirsStep(rs: seq<Removal>, i: nat)
    requires i < |rs|
    ensures DirsOf(rs[..i + 1]) == DirsOf(rs[..i]) + set s | s in rs[i].tables :: s.dir
  {
    var a, b := rs[..i + 1], rs[..i];
    forall d | d in DirsOf(a)
      ensures d in DirsOf(b) || exists s | s in rs[i].tables :: s.dir == d
    {
      var x, y :| 0 <= x < |a| && 0 <= y < |a[x].tables| && a[x].tables[y].dir == d;
      if x < i {
        assert b[x].tables[y].dir == d;
      } else {
        assert rs[i].tables[y] in rs[i].tables;
      }
    }
    forall d | d in DirsOf(b)
      ensures d in DirsOf(a)
    {
      var x, y :| 0 <= x < |b| && 0 <= y < |b[x].tables| && b[x].tables[y].dir == d;
      assert a[x].tables[y].dir == d;
    }
    forall s | s in rs[i].tables
      ensures s.dir in DirsOf(a)
    {
      var y :| 0 <= y < |rs[i].tables| && rs[i].tables[y] == s;
      assert a[i].tables[y].dir == s.dir;
    }
  }

  lemma NothingInserted(cfg: Config, clock: nat -> nat, a: RunState)
    requires Extracted(Removals(a))
    ensures Inserted(cfg, clock, a, 0) == a.sys
  {
    hide Folded;
    assert Folded(cfg, clock, a).outs[..0] == [];
  }

  lemma StillAnswers(cfg: Config, clock: nat -> nat, a: RunState, j: nat)
    requires Valid(a.sys) && Extracted(Removals(a)) && j <= |Removals(a)|
    ensures forall k, x | Timed(Tables(a), k) ::
              IsNewest(Tables(a), k, x) <==> IsNewest(TablesOf(Inserted(cfg, clock, a, j).buckets), k, x)
  {
    hide *;
    forall k, x | Timed(Tables(a), k)
      ensures IsNewest(Tables(a), k, x) <==> IsNewest(TablesOf(Inserted(cfg, clock, a, j).buckets), k, x)
    {
      LookupDuringRound(cfg, clock, a, j, k, x);
    }
  }

  lemma RunExtend(cfg: Config, clock: nat -> nat, rounds: seq<RunState>, b: RunState)
    requires Run(cfg, clock, rounds)
    requires var a := rounds[|rounds| - 1];
             Extracted(Removals(a)) && Removals(a) != [] && b == AfterRound(cfg, clock, a)
    ensures Run(cfg, clock, rounds + [b])
  {
    hide AfterRound, Removals, Valid, Extracted;
    var n := |rounds| - 1;
    var more := rounds + [b];
    forall i | 0 <= i < |more| - 1
      ensures Extracted(Removals(more[i])) && Removals(more[i]) != [] && more[i + 1] == AfterRound(cfg, clock, more[i])
    {
      if i < n {
        assert more[i] == rounds[i] && more[i + 1] == rounds[i + 1];
      } else {
        assert more[i] == rounds[n] && more[i + 1] == b;
      }
    }
  }
}
