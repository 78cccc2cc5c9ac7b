/** The whole engine: the store together with the buckets of its SSTables, the key ranges that say which of them
    are searched, and the compaction runner. Flushes put tables into buckets, rounds of compaction merge them
    and clean up, and every read still answers as a plain map would.
 */
module Engine {
  import opened Wrappers
  import opened Bytes
  import opened Entries
  import opened LogCodec
  import opened Merge
  import opened Store
  import opened StoreSteps
  import opened CompactionInStore
  import B = Buckets
  import C = Compaction
  import R = Runs
  import Collector
  import SsTable
  import Recovery

  /** A round in progress: the state in which it began, what its merges have read and what the collector held
      then, the merged tables inserted so far, and the tables flushed meanwhile. */
  datatype Round = Round(cfg: Config, start: C.RunState, loaded: seq<B.Removal>, held: seq<Entry>,
                         merged: seq<B.Sst>, flushed: seq<B.Sst>)

  /** The key ranges beside those of the tables in the buckets. The filters of the tables in `unready` have not
      been rebuilt since the restart. A lookup rebuilds some and keeps copies of those tables, which are then
      searched: those in the buckets are in `restored`, those that a round has removed from there in `kept`. The
      next write registers the copies, and with them the removed tables, which then are `back`. */
  datatype Ranges = Ranges(unready: set<nat>, restored: set<nat>, kept: seq<B.Sst>, back: seq<B.Sst>)

  /** The store, its tables in the order in which a search visits them, the buckets with what the runner has
      on record, the round in progress, the table whose entry map the collector shares, and the key ranges. */
  datatype Machine = Machine(store: Store.State, tables: seq<B.Sst>, run: C.RunState, round: Option<Round>,
                             linked: Option<nat>, ranges: Ranges)

  datatype Act =
    | Plain(op: R.Op)
    | Restart(head: nat)
    | FlushTable(index: nat, size: nat)
    | Rebuild(dirs: set<nat>)
    | NewRunner
    | BeginRound(cfg: Config)
    | InsertMerged(size: nat)
    | AbandonRound
    | FinishRound

  function New(clock: nat -> nat): (e: Machine)
  {
    Machine(Recovery.NewStore(clock), [], C.RunState(C.Sys([], map[], 0), map[], 0), None, None,
            Ranges({}, {}, [], []))
  }

  // ---------------------------------------------------------------------
  // What the merges of a round read

  /** The entry map of a table holds what the collector has put into it, if it shares it, and else nothing. */
  function Load(t: B.Sst, linked: Option<nat>, held: seq<Entry>): (t': B.Sst)
  {
    if linked == Some(t.dir) then t.(mem := held) else t
  }

  function LoadRemoval(r: B.Removal, linked: Option<nat>, held: seq<Entry>): (r': B.Removal)
    ensures |r'.tables| == |r.tables|
    ensures forall j | 0 <= j < |r.tables| :: r'.tables[j] == Load(r.tables[j], linked, held)
  {
    r.(tables := seq(|r.tables|, j requires 0 <= j < |r.tables| => Load(r.tables[j], linked, held)))
  }

  /** The extracted tables as the merges find them. */
  function Loaded(e: Machine): (rs: seq<B.Removal>)
    ensures |rs| == |C.Removals(e.run)|
    ensures forall i | 0 <= i < |rs| :: rs[i] == LoadRemoval(C.Removals(e.run)[i], e.linked, Held(e.store))
  {
    var rs := C.Removals(e.run);
    seq(|rs|, i requires 0 <= i < |rs| => LoadRemoval(rs[i], e.linked, Held(e.store)))
  }

  /** The merges of the round. */
  function Merges(rclock: nat -> nat, c: Round): (f: C.Fold)
    requires C.Extracted(c.loaded)
    ensures |f.outs| == |c.loaded|
  {
    C.MergeBuckets(c.cfg, rclock, c.start.tick, c.loaded, c.start.marks)
  }

  /** The merged tables of the round. */
  function Outs(rclock: nat -> nat, c: Round): (outs: seq<seq<Entry>>)
    requires C.Extracted(c.loaded)
    ensures |outs| == |c.loaded|
  {
    Merges(rclock, c).outs
  }

  // ---------------------------------------------------------------------
  // Steps

  /** After a restart the buckets hold the same tables, but are read back from their directories: buckets come
      in any order, and so do the tables of each. */
  ghost predicate ReadBack(s: C.Sys, s': C.Sys)
  {
    C.Valid(s') && B.TablesOf(s'.buckets) == B.TablesOf(s.buckets) &&
    forall i | 0 <= i < |s'.buckets| :: HasBucket(s, s'.buckets[i])
  }

  predicate HasBucket(s: C.Sys, b: B.Bucket)
  {
    exists j :: 0 <= j < |s.buckets| && s.buckets[j].id == b.id && multiset(s.buckets[j].tables) == multiset(b.tables)
  }

  /** The tables that are searched. */
  function Searched(e: Machine): (ts: multiset<B.Sst>)
  {
    C.Tables(e.run) + multiset(e.ranges.kept) + multiset(e.ranges.back)
  }

  /** The tables of the store become the searched ones, in any order. */
  predicate Reloaded(s: Store.State, e': Machine)
  {
    multiset(e'.tables) == Searched(e') && e'.store == s.(tables := C.Disks(e'.tables))
  }

  function DirsOf(ts: multiset<B.Sst>): (ds: set<nat>) { set t | t in ts :: t.dir }

  /** The operation gets to the write, and so registers the copies of the rebuilt tables. */
  predicate Writes(s: Store.State, op: R.Op)
  {
    match op
    case OpPut(k, v) => Validate(k, Some(v)).Ok?
    case OpUpdate(k, v) => Validate(k, Some(v)).Ok? && Get(s, k).Ok?
    case OpDelete(k) => Validate(k, None).Ok? && Get(s, k).Ok?
    case _ => false
  }

  function Registered(r: Ranges): (r': Ranges) { Ranges(r.unready - r.restored, {}, [], r.back + r.kept) }

  /** Of the removed tables, those stay searched whose filters were rebuilt. */
  predicate StaySearched(removed: multiset<B.Sst>, restored: set<nat>, kept: seq<B.Sst>)
  {
    multiset(kept) <= removed && forall t | t in removed :: t in multiset(kept) <==> t.dir in restored
  }

  /** One step of the engine. `rclock` is what the compaction runner reads. A flush that succeeds puts its
      table into a bucket, also while a round is in progress. A round extracts and merges when it begins, if no
      merge comes out empty, inserts the merged tables one by one, and cleans up; it may fail at any point
      before. A restart ends the round, and a new run of compaction starts with no deletion on record. */
  ghost predicate Next(capacity: nat, clock: nat -> nat, rclock: nat -> nat, e: Machine, act: Act, e': Machine)
  {
    match act
    case Plain(op) =>
      !op.OpFlush? && !op.OpTables? && !op.OpCrash? && R.Exec(e.store, capacity, clock, op) == Some(e'.store) &&
      e' == e.(store := e'.store, ranges := if Writes(e.store, op) then Registered(e.ranges) else e.ranges)
    case Restart(n) =>
      var s := R.Exec(e.store, capacity, clock, R.OpCrash(n));
      s.Some? && ReadBack(e.run.sys, e'.run.sys) && Reloaded(s.value, e') && e'.run.marks == map[] &&
      e'.round == None && e'.linked == None && e'.ranges == Ranges(DirsOf(C.Tables(e'.run)), {}, [], [])
    case FlushTable(i, size) =>
      i < |e.store.sealed| &&
      if e.store.sealed[i] == [] || !SsTable.Fits(e.store.sealed[i]) then e' == e else
      var t := C.Fresh(e.run.sys, SsTable.StoredAll(e.store.sealed[i]));
      e' == Machine(Flush(e.store, i), e.tables + [t], e.run.(sys := C.AddTable(e.run.sys, t.disk, size)),
                    if e.round.Some? then Some(e.round.value.(flushed := e.round.value.flushed + [t])) else None,
                    if e.store.link == ToSealed(i) then Some(t.dir) else e.linked, e.ranges)
    case Rebuild(dirs) =>
      dirs != {} && dirs <= e.ranges.unready - e.ranges.restored && dirs <= DirsOf(C.Tables(e.run)) &&
      e' == e.(store := e'.store, tables := e'.tables, ranges := e.ranges.(restored := dirs, kept := [])) &&
      Reloaded(e.store, e')
    case NewRunner => e.round == None && e' == e.(run := e.run.(marks := map[]))
    case BeginRound(cfg) =>
      var c := Round(cfg, e.run, Loaded(e), Held(e.store), [], []);
      e.round == None && C.Extracted(Loaded(e)) && (forall i | 0 <= i < |c.loaded| :: Outs(rclock, c)[i] != []) &&
      e' == e.(run := e.run.(marks := Merges(rclock, c).marks, tick := Merges(rclock, c).tick), round := Some(c))
    case InsertMerged(size) =>
      e.round.Some? && C.Extracted(e.round.value.loaded) &&
      var c := e.round.value;
      |c.merged| < |Outs(rclock, c)| &&
      var t := C.Fresh(e.run.sys, Outs(rclock, c)[|c.merged|]);
      e' == e.(store := e.store.(tables := C.Disks(e.tables + [t])), tables := e.tables + [t],
               run := e.run.(sys := C.AddTable(e.run.sys, t.disk, size)), round := Some(c.(merged := c.merged + [t])))
    case AbandonRound => e.round.Some? && e' == e.(round := None)
    case FinishRound =>
      e.round.Some? && C.Extracted(e.round.value.loaded) &&
      var c := e.round.value;
      var gone := B.Removed(C.Removals(c.start));
      |c.merged| == |Outs(rclock, c)| && Reloaded(e.store, e') && e.ranges.kept <= e'.ranges.kept &&
      var kept := e'.ranges.kept[|e.ranges.kept|..];
      StaySearched(gone, e.ranges.restored, kept) &&
      e' == Machine(e'.store, e'.tables, e.run.(sys := C.CleanUp(e.run.sys, C.Removals(c.start))), None, e.linked,
                    Ranges(e.ranges.unready - DirsOf(gone), e.ranges.restored - DirsOf(gone), e.ranges.kept + kept,
                           e.ranges.back))
  }

  // ---------------------------------------------------------------------
  // Invariants

  predicate SortedDisks(ts: seq<B.Sst>)
  {
    forall i | 0 <= i < |ts| :: Sorted(ts[i].disk)
  }

  /** The tables of the store are the searched ones, and no entry map holds anything but what the collector has
      put into the one it shares. */
  ghost predicate Consistent(e: Machine)
  {
    C.Valid(e.run.sys) && multiset(e.tables) == Searched(e) && e.store.tables == C.Disks(e.tables) &&
    (forall t | t in C.Tables(e.run) :: t.mem == []) && SortedDisks(e.ranges.kept) && SortedDisks(e.ranges.back)
  }

  /** What the round in progress will remove is still in front of its buckets, and the tables in the buckets are
      those of its beginning, the merged ones so far and those flushed meanwhile. */
  ghost predicate RoundOk(rclock: nat -> nat, e: Machine)
  {
    e.round.Some? ==>
      var c := e.round.value;
      C.Valid(c.start.sys) && C.Extracted(c.loaded) && LoadedFrom(C.Removals(c.start), c.loaded, c.held) &&
      Sorted(c.held) && B.AllPending(e.run.sys.buckets, C.Removals(c.start)) &&
      |c.merged| <= |Outs(rclock, c)| && C.Disks(c.merged) == Outs(rclock, c)[..|c.merged|] &&
      C.Tables(e.run) == C.Tables(c.start) + multiset(c.merged) + multiset(c.flushed)
  }

  // ---------------------------------------------------------------------
  // What a run must respect for a key

  /** Beside `rest`, the tables make no difference to a read of the key. */
  ghost predicate Redundant(rest: multiset<B.Sst>, ts: seq<B.Sst>, k: Key)
  {
    forall r | C.IsNewest(rest, k, r) :: SameLive(C.NewestOf(r, Finds(C.Disks(ts), k)), r)
  }

  /** What the merges of the round have made of the key, worked out from the tables at its beginning. */
  function Made(rclock: nat -> nat, c: Round, k: Key): (xs: seq<Option<Entry>>)
    requires C.Extracted(c.loaded)
  {
    C.FoldBuckets(c.cfg, rclock, c.start.tick, c.loaded, Recorded(c.start.marks, k), k).outs
  }

  /** That looks the same to a read beside the tables that stay and beside those that were there, among the
      tables flushed meanwhile and those searched without being in a bucket. */
  ghost predicate Unnoticed(rclock: nat -> nat, e: Machine, k: Key)
    requires e.round.Some? && C.Extracted(e.round.value.loaded)
  {
    var c := e.round.value;
    forall kept, r, q | StaySearched(B.Removed(C.Removals(c.start)), e.ranges.restored, kept) &&
                        C.IsNewest(C.Tables(c.start), k, r) && C.IsNewest(C.Staying(c.start), k, q) ::
      var f := Finds(C.Disks(Others(e) + kept), k);
      SameLive(C.NewestOf(C.NewestOf(r, Made(rclock, c, k)), f), C.NewestOf(C.NewestOf(q, Made(rclock, c, k)), f))
  }

  function Others(e: Machine): (ts: seq<B.Sst>)
    requires e.round.Some?
  {
    e.round.value.flushed + e.ranges.kept + e.ranges.back
  }

  /** The version is in the tables, or the collector holds it and a read does not get to the tables or finds no
      older version there. */
  predicate Addable(s: Store.State, k: Key, x: Entry)
  {
    Version(s.tables, x) ||
    (Find(Held(s), k) == Some(x) &&
     (Hidden(s, k) || (Newest(s.tables, k).Some? && x.time <= Newest(s.tables, k).value.time)))
  }

  /** What the merges have read of the key in the collector's table can be added to the tables. */
  predicate HeldFits(e: Machine, k: Key)
    requires e.round.Some?
  {
    Find(e.round.value.held, k).Some? ==> Addable(e.store, k, Find(e.round.value.held, k).value)
  }

  ghost predicate Allowed(rclock: nat -> nat, e: Machine, act: Act, k: Key)
  {
    match act
    case Plain(op) => R.Allowed(e.store, op, k)
    case Restart(n) =>
      R.Allowed(e.store, R.OpCrash(n), k) && Redundant(C.Tables(e.run), e.ranges.kept + e.ranges.back, k)
    case FlushTable(i, _) => i < |e.store.sealed| ==> InOrder(e.store, i, k)
    case Rebuild(_) => Redundant(C.Tables(e.run) + multiset(e.ranges.back), e.ranges.kept, k)
    case InsertMerged(_) => e.round.Some? ==> HeldFits(e, k)
    case FinishRound =>
      e.round.Some? && C.Extracted(e.round.value.loaded) ==> Hidden(e.store, k) || Unnoticed(rclock, e, k)
    case _ => true
  }

  function Apply(m: map<Key, Value>, act: Act): (m': map<Key, Value>)
  {
    if act.Plain? then R.Apply(m, act.op) else m
  }

  function ApplyAll(acts: seq<Act>): (m: map<Key, Value>)
  {
    if acts == [] then map[] else Apply(ApplyAll(acts[..|acts| - 1]), acts[|acts| - 1])
  }

  /** A run of the engine, from a new store on. */
  ghost predicate Run(states: seq<Machine>, acts: seq<Act>, capacity: nat, clock: nat -> nat, rclock: nat -> nat)
  {
    |states| == |acts| + 1 && states[0] == New(clock) &&
    (forall i | 0 <= i < |acts| :: Next(capacity, clock, rclock, states[i], acts[i], states[i + 1])) &&
    (forall i | 0 <= i < |states| :: Small(states[i].store, clock(states[i].store.tick)))
  }

  ghost predicate RunAllowed(states: seq<Machine>, acts: seq<Act>, rclock: nat -> nat, k: Key)
    requires |states| == |acts| + 1
  {
    forall i | 0 <= i < |acts| :: Allowed(rclock, states[i], acts[i], k)
  }

  // ---------------------------------------------------------------------
  // Every step keeps the tables in agreement

  lemma SortedTables(e: Machine)
    requires C.Valid(e.run.sys) && multiset(e.tables) == Searched(e)
    requires SortedDisks(e.ranges.kept) && SortedDisks(e.ranges.back)
    ensures AllSorted(C.Disks(e.tables))
  {
    hide Sorted, C.Agree, B.DistinctIds, B.NonEmptyBuckets, B.TablesOf;
    forall i | 0 <= i < |e.tables|
      ensures Sorted(e.tables[i].disk)
    {
      assert e.tables[i] in multiset(e.tables);
      if e.tables[i] in C.Tables(e.run) {
        assert C.TableOk(e.tables[i]);
      }
    }
  }

  lemma BucketTables(e: Machine)
    ensures C.Tables(e.run) == B.TablesOf(e.run.sys.buckets)
  {
  }

  lemma PlainTables(s: Store.State, capacity: nat, clock: nat -> nat, op: R.Op, s': Store.State)
    requires !op.OpFlush? && !op.OpTables? && R.Exec(s, capacity, clock, op) == Some(s')
    ensures s'.tables == s.tables
  {
    hide Get, Size, Collector.PlanFor, Collector.InsertEach;
  }

  /** A table is added to the buckets and to the end of the searched tables. */
  lemma AddedConsistent(e: Machine, out: seq<Entry>, size: nat, e': Machine)
    requires Consistent(e) && Sorted(out) && e'.ranges == e.ranges
    requires e'.run.sys == C.AddTable(e.run.sys, out, size) && e'.tables == e.tables + [C.Fresh(e.run.sys, out)]
    requires e'.store.tables == C.Disks(e'.tables)
    ensures Consistent(e') && C.Tables(e'.run) == C.Tables(e.run) + multiset{C.Fresh(e.run.sys, out)}
  {
    hide C.Valid, C.Tables, C.AddTable, Sorted;
    C.AddTableValid(e.run.sys, out, size);
    BucketTables(e');
    BucketTables(e);
    assert multiset(e'.tables) == multiset(e.tables) + multiset{C.Fresh(e.run.sys, out)};
  }

  lemma PendingMore(s: C.Sys, out: seq<Entry>, size: nat, rs: seq<B.Removal>)
    requires B.AllPending(s.buckets, rs)
    ensures B.AllPending(C.AddTable(s, out, size).buckets, rs)
  {
    hide B.Pending, B.Insert;
    forall i | 0 <= i < |rs|
      ensures B.Pending(C.AddTable(s, out, size).buckets, rs[i])
    {
      B.InsertKeepsPending(s.buckets, C.Fresh(s, out), size, s.nextId, rs[i]);
    }
  }

  lemma FlushConsistent(clock: nat -> nat, rclock: nat -> nat, e: Machine, i: nat, size: nat, e': Machine)
    requires Consistent(e) && RoundOk(rclock, e) && Inv(e.store, clock) && i < |e.store.sealed|
    requires e.store.sealed[i] != [] && SsTable.Fits(e.store.sealed[i])
    requires var t := C.Fresh(e.run.sys, SsTable.StoredAll(e.store.sealed[i]));
             e' == Machine(Flush(e.store, i), e.tables + [t], e.run.(sys := C.AddTable(e.run.sys, t.disk, size)),
                           if e.round.Some? then Some(e.round.value.(flushed := e.round.value.flushed + [t])) else None,
                           e'.linked, e.ranges)
    ensures Consistent(e') && RoundOk(rclock, e')
  {
    hide C.Valid, C.Tables, C.AddTable, C.Removals, SsTable.Fits, SsTable.StoredAll, Inv, B.AllPending, C.MergeBuckets,
         Sorted, C.Extracted, LoadedFrom, Consistent;
    var out := SsTable.StoredAll(e.store.sealed[i]);
    R.SortedParts(e.store, clock);
    StoredSorted(e.store.sealed[i]);
    ConsistentTables(e);
    assert C.Disks(e'.tables) == C.Disks(e.tables) + [out];
    AddedConsistent(e, out, size, e');
    if e.round.Some? {
      var c := e.round.value;
      PendingMore(e.run.sys, out, size, C.Removals(c.start));
      AddToSum(C.Tables(c.start), c.merged, c.flushed, C.Fresh(e.run.sys, out));
    }
  }

  lemma ConsistentTables(e: Machine)
    requires Consistent(e)
    ensures e.store.tables == C.Disks(e.tables) && multiset(e.tables) == Searched(e) && C.Valid(e.run.sys)
    ensures AllSorted(e.store.tables)
  {
    hide C.Valid, C.Tables, Sorted;
    SortedTables(e);
  }

  lemma AddToSum(a: multiset<B.Sst>, b: seq<B.Sst>, c: seq<B.Sst>, t: B.Sst)
    ensures a + multiset(b) + multiset(c) + multiset{t} == a + multiset(b) + multiset(c + [t])
    ensures a + multiset(b) + multiset(c) + multiset{t} == a + multiset(b + [t]) + multiset(c)
  {
  }

  /** What the merges of the round have read is on disk in its tables, or the collector held it. */
  lemma MergedIsRead(rclock: nat -> nat, e: Machine, i: nat, k: Key)
    requires RoundOk(rclock, e) && e.round.Some? && i < |Outs(rclock, e.round.value)|
    ensures var c := e.round.value;
            var x := Find(Outs(rclock, c)[i], k);
            Sorted(Outs(rclock, c)[i]) &&
            (x.Some? ==> x.value.key == k && (Find(c.held, k) == x || C.Holds(C.Tables(c.start), x.value)))
  {
    hide Find, C.Valid, C.MergeBuckets, C.Removals, C.Tables, Less, C.Contents, Version, LoadedFrom, B.AllPending;
    var c := e.round.value;
    var rs := C.Removals(c.start);
    C.RemovalFacts(c.start);
    LoadedMergeable(rs, c.loaded, c.held);
    C.BucketsRead(c.cfg, rclock, c.start.tick, c.loaded, c.start.marks, k);
    LoadedLength(rs, c.loaded, c.held);
    C.MergeIsSorted(c.cfg, rclock, c.start.tick, c.loaded, c.start.marks, i);
    var out := C.MergeBuckets(c.cfg, rclock, c.start.tick, c.loaded, c.start.marks).outs[i];
    var x := Find(out, k);
    if x.Some? {
      FindKey(Outs(rclock, c)[i], k);
      LoadedReads(rs, c.loaded, c.held, i, x.value);
      if C.Holds(multiset(rs[i].tables), x.value) {
        C.HoldsMore(multiset(rs[i].tables), C.Tables(c.start), x.value);
      }
    }
  }

  lemma LoadedLength(rs: seq<B.Removal>, loaded: seq<B.Removal>, held: seq<Entry>)
    requires LoadedFrom(rs, loaded, held)
    ensures |loaded| == |rs| && (C.Extracted(rs) <==> C.Extracted(loaded))
  {
    forall i | 0 <= i < |rs|
      ensures |loaded[i].tables| == |rs[i].tables|
    {
    }
  }

  lemma InsertConsistent(rclock: nat -> nat, e: Machine, size: nat, e': Machine)
    requires Consistent(e) && RoundOk(rclock, e) && e.round.Some? &&
             |e.round.value.merged| < |Outs(rclock, e.round.value)|
    requires var c := e.round.value;
             var t := C.Fresh(e.run.sys, Outs(rclock, c)[|c.merged|]);
             e' == e.(store := e.store.(tables := C.Disks(e.tables + [t])), tables := e.tables + [t],
                      run := e.run.(sys := C.AddTable(e.run.sys, t.disk, size)),
                      round := Some(c.(merged := c.merged + [t])))
    ensures Consistent(e') && RoundOk(rclock, e')
  {
    hide C.Valid, C.Tables, C.AddTable, C.Removals, B.AllPending, C.MergeBuckets, Sorted, C.Extracted, LoadedFrom,
         Consistent, Find;
    var c := e.round.value;
    var n := |c.merged|;
    var out := Outs(rclock, c)[n];
    MergedIsRead(rclock, e, n, []);
    AddedConsistent(e, out, size, e');
    PendingMore(e.run.sys, out, size, C.Removals(c.start));
    AddToSum(C.Tables(c.start), c.merged, c.flushed, C.Fresh(e.run.sys, out));
    assert C.Disks(e'.round.value.merged) == C.Disks(c.merged) + [out];
    assert Outs(rclock, c)[..n + 1] == Outs(rclock, c)[..n] + [out];
  }

  /** The tables in the buckets after the clean-up are those that stayed, the merged ones and those flushed
      meanwhile. */
  lemma FinishTables(rclock: nat -> nat, e: Machine, e': Machine)
    requires Consistent(e) && RoundOk(rclock, e) && e.round.Some?
    requires e'.run == e.run.(sys := C.CleanUp(e.run.sys, C.Removals(e.round.value.start)))
    ensures C.Valid(e'.run.sys) && forall t | t in C.Tables(e'.run) :: t.mem == []
    ensures var c := e.round.value;
            C.Tables(e'.run) == C.Staying(c.start) + multiset(c.merged) + multiset(c.flushed) &&
            B.Removed(C.Removals(c.start)) <= C.Tables(c.start) <= C.Tables(e.run)
  {
    hide C.Valid, C.Tables, C.CleanUp, C.Removals, B.AllPending, C.MergeBuckets, C.Extracted, B.Removed,
         LoadedFrom, Sorted;
    var c := e.round.value;
    var rs := C.Removals(c.start);
    C.RemovalFacts(c.start);
    BucketTables(e);
    BucketTables(e');
    C.CleanUpValid(e.run.sys, rs);
    RemovedWithin(c.start);
    C.RearrangeRound(C.Tables(e'.run), B.Removed(rs), C.Tables(c.start), multiset(c.merged) + multiset(c.flushed));
    forall t | t in C.Tables(e'.run)
      ensures t.mem == []
    {
      assert t in C.Tables(e'.run) + B.Removed(rs);
    }
  }

  /** A table that a round removes is searched afterwards if and only if a lookup has rebuilt its filter and no write
      has registered it since. */
  lemma RemovedStaySearched(capacity: nat, clock: nat -> nat, rclock: nat -> nat, e: Machine, e': Machine, t: B.Sst)
    requires Consistent(e) && RoundOk(rclock, e) && Next(capacity, clock, rclock, e, FinishRound, e')
    requires t in B.Removed(C.Removals(e.round.value.start)) && t !in e.ranges.kept && t !in e.ranges.back
    ensures t in Searched(e') <==> t.dir in e.ranges.restored
  {
    hide C.Valid, C.Tables, C.CleanUp, C.Removals, B.AllPending, C.MergeBuckets, C.Extracted, B.Removed,
         LoadedFrom, Sorted, Reloaded, Outs;
    var c := e.round.value;
    var rs := C.Removals(c.start);
    C.RemovalFacts(c.start);
    BucketTables(e);
    BucketTables(e');
    C.CleanUpValid(e.run.sys, rs);
    OncePerTable(e.run.sys, t);
    assert (C.Tables(e'.run) + B.Removed(rs))[t] == C.Tables(e.run)[t];
    var kept := e'.ranges.kept[|e.ranges.kept|..];
    assert e'.ranges.kept == e.ranges.kept + kept;
  }

  lemma OncePerTable(s: C.Sys, t: B.Sst)
    requires C.Valid(s)
    ensures B.TablesOf(s.buckets)[t] <= 1
  {
    hide B.TablesOf;
  }

  /** Deletions are forgotten by a restart and by a new runner: what the next round has on record are markers that it
      has read itself. */
  lemma DeletionsForgotten(capacity: nat, clock: nat -> nat, rclock: nat -> nat, e: Machine, act: Act, e1: Machine,
                           cfg: Config, e2: Machine, k: Key)
    requires Next(capacity, clock, rclock, e, act, e1) && (act.NewRunner? || act.Restart?)
    requires Next(capacity, clock, rclock, e1, BeginRound(cfg), e2) && k in e2.run.marks
    ensures C.Extracted(Loaded(e1)) &&
            exists i :: 0 <= i < |Loaded(e1)| && MarkerInSome(C.Contents(Loaded(e1)[i].tables), k, e2.run.marks[k])
  {
    hide R.Exec, C.MergeBuckets, C.Contents, MarkerInSome, Reloaded, ReadBack, Loaded, C.Tables;
    C.MergesNote(cfg, rclock, e1.run.tick, Loaded(e1), map[], k, e2.run.marks[k]);
  }

  /** A filter that was rebuilt and registered is not rebuilt again. */
  lemma RebuiltOnce(capacity: nat, clock: nat -> nat, rclock: nat -> nat, e: Machine, op: R.Op, e1: Machine,
                    dirs: set<nat>, e2: Machine)
    requires Next(capacity, clock, rclock, e, Plain(op), e1) && Next(capacity, clock, rclock, e1, Rebuild(dirs), e2)
    ensures dirs !! e.ranges.restored
  {
    hide R.Exec, Writes, Reloaded, C.Tables;
  }

  lemma RemovedWithin(a: C.RunState)
    requires C.Valid(a.sys)
    ensures B.Removed(C.Removals(a)) <= C.Tables(a)
  {
    hide C.Valid, C.Removals, C.CleanUp, B.Removed, B.TablesOf;
    C.RemovalFacts(a);
    C.CleanUpValid(a.sys, C.Removals(a));
  }

  lemma FinishConsistent(rclock: nat -> nat, e: Machine, e': Machine)
    requires Consistent(e) && RoundOk(rclock, e) && e.round.Some? && e'.round == None && Reloaded(e.store, e')
    requires e'.run == e.run.(sys := C.CleanUp(e.run.sys, C.Removals(e.round.value.start)))
    requires e.ranges.kept <= e'.ranges.kept && e'.ranges.back == e.ranges.back
    requires multiset(e'.ranges.kept[|e.ranges.kept|..]) <= B.Removed(C.Removals(e.round.value.start))
    ensures Consistent(e')
  {
    hide C.Valid, C.Tables, C.CleanUp, C.Removals, B.Removed, Sorted, RoundOk, C.Disks;
    FinishTables(rclock, e, e');
    var kept := e'.ranges.kept[|e.ranges.kept|..];
    assert e'.ranges.kept == e.ranges.kept + kept;
    forall i | 0 <= i < |kept|
      ensures Sorted(kept[i].disk)
    {
      assert kept[i] in multiset(kept);
      assert kept[i] in C.Tables(e.run);
      BucketSorted(e, kept[i]);
    }
  }

  lemma BucketSorted(e: Machine, t: B.Sst)
    requires C.Valid(e.run.sys) && t in C.Tables(e.run)
    ensures Sorted(t.disk)
  {
    hide Sorted, C.Agree, B.DistinctIds, B.NonEmptyBuckets, B.TablesOf;
    assert C.TableOk(t);
  }

  lemma RoundSame(rclock: nat -> nat, e: Machine, e': Machine)
    requires RoundOk(rclock, e) && e'.run.sys == e.run.sys && (e'.round == e.round || e'.round == None)
    ensures RoundOk(rclock, e')
  {
    hide C.Valid, C.Removals, C.MergeBuckets, B.AllPending, LoadedFrom, Sorted;
  }

  /** Each step leaves the tables in agreement with the buckets and with the round in progress. */
  lemma StepConsistent(capacity: nat, clock: nat -> nat, rclock: nat -> nat, e: Machine, act: Act, e': Machine)
    requires Consistent(e) && RoundOk(rclock, e) && Inv(e.store, clock) && Next(capacity, clock, rclock, e, act, e')
    ensures Consistent(e') && RoundOk(rclock, e')
  {
    hide C.Valid, C.CleanUp, C.Removals, C.AddTable, SsTable.Fits, SsTable.StoredAll, Inv, B.TablesOf, R.Exec, Outs,
         Merges, C.Extracted, C.Fresh, Loaded, Sorted, B.Removed, Get, RoundOk, Writes, Consistent,
         Registered, DirsOf, C.Tables;
    match act
    case Plain(op) =>
      PlainTables(e.store, capacity, clock, op, e'.store);
      PlainConsistent(e, e');
      RoundSame(rclock, e, e');
    case Restart(n) =>
      RestartConsistent(R.Exec(e.store, capacity, clock, R.OpCrash(n)).value, e, e');
      NoRound(rclock, e');
    case FlushTable(i, size) =>
      if e.store.sealed[i] != [] && SsTable.Fits(e.store.sealed[i]) {
        FlushConsistent(clock, rclock, e, i, size, e');
      }
    case Rebuild(dirs) =>
      RebuildConsistent(e, e');
      RoundSame(rclock, e, e');
    case NewRunner =>
      PlainConsistent(e, e');
      RoundSame(rclock, e, e');
    case BeginRound(cfg) =>
      HeldSorted(e.store, clock);
      BeginOk(rclock, e, cfg, e');
    case InsertMerged(size) => InsertConsistent(rclock, e, size, e');
    case AbandonRound =>
      PlainConsistent(e, e');
      RoundSame(rclock, e, e');
    case FinishRound =>
      FinishConsistent(rclock, e, e');
      NoRound(rclock, e');
  }

  lemma PlainConsistent(e: Machine, e': Machine)
    requires Consistent(e) && e'.run.sys == e.run.sys && e'.tables == e.tables && e'.store.tables == e.store.tables
    requires e'.ranges == e.ranges || e'.ranges == Registered(e.ranges)
    ensures Consistent(e')
  {
    hide C.Valid, B.TablesOf, Sorted;
  }

  lemma RestartConsistent(s: Store.State, e: Machine, e': Machine)
    requires Consistent(e) && ReadBack(e.run.sys, e'.run.sys) && Reloaded(s, e')
    requires e'.ranges.kept == [] && e'.ranges.back == []
    ensures Consistent(e')
  {
    hide C.Valid, B.TablesOf, Sorted;
  }

  lemma RebuildConsistent(e: Machine, e': Machine)
    requires Consistent(e) && e'.run == e.run && Reloaded(e.store, e')
    requires e'.ranges.kept == [] && e'.ranges.back == e.ranges.back
    ensures Consistent(e')
  {
    hide C.Valid, C.Tables, Sorted;
  }

  lemma NoRound(rclock: nat -> nat, e: Machine)
    requires e.round == None
    ensures RoundOk(rclock, e)
  {
  }

  lemma BeginOk(rclock: nat -> nat, e: Machine, cfg: Config, e': Machine)
    requires Consistent(e) && Sorted(Held(e.store)) && C.Extracted(Loaded(e))
    requires e' == e.(run := e.run.(marks := e'.run.marks, tick := e'.run.tick),
                      round := Some(Round(cfg, e.run, Loaded(e), Held(e.store), [], [])))
    ensures Consistent(e') && RoundOk(rclock, e')
  {
    hide C.Valid, C.Removals, C.MergeBuckets, B.TablesOf, C.Extracted, Sorted, LoadedFrom;
    C.RemovalFacts(e.run);
    LoadedIs(e);
  }

  /** Only the table that the collector shares has something in its entry map. */
  lemma LoadedIs(e: Machine)
    requires Consistent(e)
    ensures LoadedFrom(C.Removals(e.run), Loaded(e), Held(e.store))
  {
    hide C.Valid, C.Removals, C.Tables;
    var rs := C.Removals(e.run);
    C.RemovalFacts(e.run);
    forall i, j | 0 <= i < |rs| && 0 <= j < |rs[i].tables|
      ensures rs[i].tables[j].mem == []
    {
      assert rs[i].tables[j] in multiset(rs[i].tables);
      assert rs[i].tables[j] in C.Tables(e.run);
    }
  }

  // ---------------------------------------------------------------------
  // Every allowed step keeps the store right about the key

  lemma {:induction false} ListOf(ts: multiset<B.Sst>) returns (order: seq<B.Sst>)
    ensures multiset(order) == ts
    decreases |ts|
  {
    if ts == multiset{} {
      order := [];
    } else {
      var t :| t in ts;
      var rest := ListOf(ts - multiset{t});
      order := rest + [t];
      assert ts == ts - multiset{t} + multiset{t};
    }
  }

  lemma NewestExists(ts: multiset<B.Sst>, k: Key) returns (r: Option<Entry>)
    requires C.Timed(ts, k)
    ensures C.IsNewest(ts, k, r)
  {
    hide C.IsNewest, C.Timed, Newest;
    var order := ListOf(ts);
    C.SearchFindsNewest(order, k);
    r := Newest(C.Disks(order), k);
  }

  lemma TimedWithin(ts: multiset<B.Sst>, part: multiset<B.Sst>, k: Key)
    requires C.Timed(ts, k) && part <= ts
    ensures C.Timed(part, k)
  {
    hide Find;
    forall t | t in part
      ensures t in ts
    {
    }
  }

  /** The time of a version identifies it, in a store that is right about the key. */
  lemma RightTimed(e: Machine, clock: nat -> nat, m: map<Key, Value>, k: Key)
    requires Consistent(e) && R.Right(e.store, clock, m, k)
    ensures C.Timed(multiset(e.tables), k)
  {
    hide Inv, C.Timed, C.Valid, VersionOk, Find, Newest;
    TablesAreTimed(e.store.log, clock(e.store.tick), e.tables, k);
  }

  lemma StepRight(capacity: nat, clock: nat -> nat, rclock: nat -> nat, e: Machine, act: Act, e': Machine,
                  m: map<Key, Value>, k: Key)
    requires Consistent(e) && RoundOk(rclock, e) && Consistent(e')
    requires R.Right(e.store, clock, m, k) && UserKey(k) && Ticking(clock)
    requires Next(capacity, clock, rclock, e, act, e') && Allowed(rclock, e, act, k)
    requires Small(e.store, clock(e.store.tick)) && Small(e'.store, clock(e'.store.tick))
    ensures R.Right(e'.store, clock, Apply(m, act), k)
  {
    hide C.Valid, C.Tables, C.CleanUp, C.Removals, C.AddTable, C.MergeBuckets, SsTable.Fits, SsTable.StoredAll, R.Right,
         R.Exec, R.Allowed, Size, InOrder, Outs, Merges, C.Extracted, C.Fresh, Unnoticed, Consistent, RoundOk, ReadBack,
         Redundant, HeldFits, Hidden, Writes, Reloaded, B.Removed, Loaded;
    match act
    case Plain(op) => R.StepRight(e.store, capacity, clock, m, op, e'.store, k);
    case Restart(n) => RestartRight(capacity, clock, e, n, e', m, k);
    case FlushTable(i, size) =>
      if e.store.sealed[i] != [] && SsTable.Fits(e.store.sealed[i]) {
        R.FlushRight(e.store, clock, m, i, k);
      }
    case Rebuild(dirs) => RebuildRight(clock, e, e', m, k);
    case NewRunner =>
    case BeginRound(cfg) =>
    case InsertMerged(size) => InsertRight(clock, rclock, e, e', m, k);
    case AbandonRound =>
    case FinishRound => FinishRight(clock, rclock, e, e', m, k);
  }

  /** Other tables in which a search finds the same are put in place. */
  lemma RearrangedRight(s: Store.State, clock: nat -> nat, m: map<Key, Value>, e': Machine, k: Key)
    requires R.Right(s, clock, m, k) && Consistent(e') && Rearranged(s.tables, C.Disks(e'.tables), k)
    ensures R.Right(s.(tables := C.Disks(e'.tables)), clock, m, k)
  {
    hide R.Right, Find, Newest, Version, Hidden;
    ConsistentTables(e');
    R.TablesRight(s, clock, m, C.Disks(e'.tables), k);
  }

  lemma RestartRight(capacity: nat, clock: nat -> nat, e: Machine, n: nat, e': Machine, m: map<Key, Value>, k: Key)
    requires Consistent(e) && Consistent(e') && R.Right(e.store, clock, m, k) && UserKey(k) && Ticking(clock)
    requires R.Allowed(e.store, R.OpCrash(n), k) && Small(e.store, clock(e.store.tick))
    requires Redundant(C.Tables(e.run), e.ranges.kept + e.ranges.back, k)
    requires var s := R.Exec(e.store, capacity, clock, R.OpCrash(n));
             s.Some? && ReadBack(e.run.sys, e'.run.sys) && Reloaded(s.value, e')
    requires e'.ranges.kept == [] && e'.ranges.back == [] && Small(e'.store, clock(e'.store.tick))
    ensures R.Right(e'.store, clock, m, k)
  {
    hide C.Valid, R.Right, R.Exec, R.Allowed, Rearranged, Size, B.TablesOf, C.IsNewest, C.Timed, Find,
         C.NewestOf, SameLive;
    var s := R.Exec(e.store, capacity, clock, R.OpCrash(n)).value;
    var rest, dropped := C.Tables(e.run), e.ranges.kept + e.ranges.back;
    PlainTables(e.store, capacity, clock, R.OpCrash(n), s);
    R.StepRight(e.store, capacity, clock, m, R.OpCrash(n), s, k);
    RightTimed(e, clock, m, k);
    assert multiset(e.tables) == rest + multiset(dropped);
    assert multiset(e'.tables) == rest;
    TimedWithin(multiset(e.tables), rest, k);
    var r := NewestExists(rest, k);
    DroppedUnnoticed(rest, dropped, e.tables, e'.tables, k, r);
    RearrangedRight(s, clock, m, e', k);
  }

  lemma RebuildRight(clock: nat -> nat, e: Machine, e': Machine, m: map<Key, Value>, k: Key)
    requires Consistent(e) && Consistent(e') && R.Right(e.store, clock, m, k) && Reloaded(e.store, e')
    requires Redundant(C.Tables(e.run) + multiset(e.ranges.back), e.ranges.kept, k)
    requires e'.run == e.run && e'.ranges.kept == [] && e'.ranges.back == e.ranges.back
    ensures R.Right(e'.store, clock, m, k)
  {
    hide C.Valid, R.Right, Rearranged, C.Tables, C.IsNewest, C.Timed, Find, C.NewestOf, SameLive;
    var rest := C.Tables(e.run) + multiset(e.ranges.back);
    RightTimed(e, clock, m, k);
    assert multiset(e.tables) == rest + multiset(e.ranges.kept);
    assert multiset(e'.tables) == rest;
    TimedWithin(multiset(e.tables), rest, k);
    var r := NewestExists(rest, k);
    DroppedUnnoticed(rest, e.ranges.kept, e.tables, e'.tables, k, r);
    RearrangedRight(e.store, clock, m, e', k);
  }

  lemma HeldIsVersion(e: Machine, ts: multiset<B.Sst>, x: Entry)
    requires Consistent(e) && ts <= multiset(e.tables) && C.Holds(ts, x)
    ensures Version(e.store.tables, x)
  {
    hide Find, C.Valid, C.Tables;
    var t :| t in ts && Find(t.disk, x.key) == Some(x);
    assert t in multiset(e.tables);
    var i :| 0 <= i < |e.tables| && e.tables[i] == t;
    assert e.store.tables[i] == t.disk;
  }

  lemma InsertRight(clock: nat -> nat, rclock: nat -> nat, e: Machine, e': Machine, m: map<Key, Value>, k: Key)
    requires Consistent(e) && RoundOk(rclock, e) && Consistent(e') && R.Right(e.store, clock, m, k)
    requires e.round.Some? && |e.round.value.merged| < |Outs(rclock, e.round.value)| && HeldFits(e, k)
    requires var c := e.round.value;
             e'.tables == e.tables + [C.Fresh(e.run.sys, Outs(rclock, c)[|c.merged|])] &&
             e'.store == e.store.(tables := C.Disks(e'.tables))
    ensures R.Right(e'.store, clock, m, k)
  {
    hide C.Valid, R.Right, C.Tables, C.Removals, C.MergeBuckets, C.Extracted, B.AllPending, Find, Newest, Hidden, Held,
         LoadedFrom, Version, Sorted;
    var c := e.round.value;
    var out := Outs(rclock, c)[|c.merged|];
    MergedIsRead(rclock, e, |c.merged|, k);
    ConsistentTables(e);
    ConsistentTables(e');
    assert e'.store.tables == e.store.tables + [out];
    var x := Find(out, k);
    if x.Some? && C.Holds(C.Tables(c.start), x.value) {
      assert C.Tables(c.start) <= multiset(e.tables);
      HeldIsVersion(e, C.Tables(c.start), x.value);
    }
    InsertReplaces(e.store, out, k);
    R.TablesRight(e.store, clock, m, e'.store.tables, k);
  }

  /** A table may be added whose version of the key is in the tables, or is held by the collector and does not
      come before what a read finds. */
  lemma InsertReplaces(s: Store.State, out: seq<Entry>, k: Key)
    requires Find(out, k).Some? ==> Find(out, k).value.key == k && Addable(s, k, Find(out, k).value)
    ensures Replaceable(s, s.tables + [out], k)
  {
    hide Find, Held, Hidden;
    var x := Find(out, k);
    forall e: Entry | e.key == k && Version(s.tables + [out], e)
      ensures Version(s.tables, e) || Find(Held(s), k) == Some(e)
    {
      VersionPush(s.tables, out, e);
    }
    NewestIsLatest(s.tables, k);
    NewestStep(s.tables, out, k);
    if x.Some? && Version(s.tables, x.value) {
      var i :| 0 <= i < |s.tables| && Find(s.tables[i], x.value.key) == x;
    }
  }

  lemma FinishRight(clock: nat -> nat, rclock: nat -> nat, e: Machine, e': Machine, m: map<Key, Value>, k: Key)
    requires Consistent(e) && RoundOk(rclock, e) && Consistent(e') && R.Right(e.store, clock, m, k)
    requires e.round.Some? && |e.round.value.merged| == |Outs(rclock, e.round.value)|
    requires Reloaded(e.store, e') && (Hidden(e.store, k) || Unnoticed(rclock, e, k))
    requires e'.run == e.run.(sys := C.CleanUp(e.run.sys, C.Removals(e.round.value.start)))
    requires e.ranges.kept <= e'.ranges.kept && e'.ranges.back == e.ranges.back
    requires StaySearched(B.Removed(C.Removals(e.round.value.start)), e.ranges.restored,
                          e'.ranges.kept[|e.ranges.kept|..])
    ensures R.Right(e'.store, clock, m, k)
  {
    hide C.Valid, R.Right, C.Tables, C.Removals, C.MergeBuckets, C.Extracted, B.AllPending, Find, C.Timed, C.CleanUp,
         C.IsNewest, C.NewestOf, SameLive, Hidden, Held, Newest, Version, B.Removed, Consistent, RoundOk, StaySearched;
    var c := e.round.value;
    var kept := e'.ranges.kept[|e.ranges.kept|..];
    ConsistentTables(e);
    ConsistentTables(e');
    FinishSums(rclock, e, e', kept);
    RightTimed(e, clock, m, k);
    TimedWithin(multiset(e.tables), C.Tables(c.start), k);
    TimedWithin(C.Tables(c.start), C.Staying(c.start), k);
    var r := NewestExists(C.Tables(c.start), k);
    var q := NewestExists(C.Staying(c.start), k);
    CleanUpUnnoticed(C.Tables(c.start), C.Staying(c.start), c.merged, Others(e), kept, e.tables, e'.tables, k, r, q);
    MadeIs(rclock, e, k);
    FinishReplaces(e.store, e'.store.tables, k);
    R.TablesRight(e.store, clock, m, e'.store.tables, k);
  }

  lemma FinishReplaces(s: Store.State, ts: seq<seq<Entry>>, k: Key)
    requires (forall x: Entry | x.key == k && Version(ts, x) :: Version(s.tables, x)) &&
             (Hidden(s, k) || Rearranged(s.tables, ts, k))
    ensures Replaceable(s, ts, k)
  {
    hide Hidden, Newest, Version;
  }

  lemma FinishSums(rclock: nat -> nat, e: Machine, e': Machine, kept: seq<B.Sst>)
    requires Consistent(e) && RoundOk(rclock, e) && Consistent(e') && e.round.Some?
    requires e'.run == e.run.(sys := C.CleanUp(e.run.sys, C.Removals(e.round.value.start)))
    requires e'.ranges.kept == e.ranges.kept + kept && e'.ranges.back == e.ranges.back
    requires StaySearched(B.Removed(C.Removals(e.round.value.start)), e.ranges.restored, kept)
    ensures var c := e.round.value;
            multiset(e.tables) == C.Tables(c.start) + multiset(c.merged) + multiset(Others(e)) &&
            multiset(e'.tables) == C.Staying(c.start) + multiset(c.merged) + multiset(Others(e) + kept) &&
            C.Staying(c.start) <= C.Tables(c.start) && multiset(kept) <= C.Tables(c.start) <= multiset(e.tables)
  {
    hide C.Valid, C.Tables, C.Removals, C.MergeBuckets, B.AllPending, C.CleanUp, B.Removed, LoadedFrom, Sorted;
    FinishTables(rclock, e, e');
  }

  lemma MadeIs(rclock: nat -> nat, e: Machine, k: Key)
    requires RoundOk(rclock, e) && e.round.Some? && |e.round.value.merged| == |Outs(rclock, e.round.value)|
    ensures C.Extracted(e.round.value.loaded)
    ensures Finds(C.Disks(e.round.value.merged), k) == Made(rclock, e.round.value, k)
  {
    hide C.Valid, C.Removals, C.MergeBuckets, B.AllPending, LoadedFrom, Sorted, C.Tables, C.FoldBuckets, Find;
    var c := e.round.value;
    C.RemovalFacts(c.start);
    LoadedMergeable(C.Removals(c.start), c.loaded, c.held);
    C.FoldBucketsAre(c.cfg, rclock, c.start.tick, c.loaded, c.start.marks, k);
    assert Outs(rclock, c)[..|c.merged|] == Outs(rclock, c);
  }

  // ---------------------------------------------------------------------
  // Whole runs

  lemma {:induction false} RunRight(states: seq<Machine>, acts: seq<Act>, capacity: nat, clock: nat -> nat,
                                    rclock: nat -> nat, n: nat, k: Key)
    requires Run(states, acts, capacity, clock, rclock) && RunAllowed(states, acts, rclock, k) && n <= |acts|
    requires UserKey(k) && Ticking(clock)
    ensures Consistent(states[n]) && RoundOk(rclock, states[n])
    ensures R.Right(states[n].store, clock, ApplyAll(acts[..n]), k)
  {
    hide R.Right, Next, Allowed, Consistent, RoundOk;
    if n == 0 {
      assert states[0].store.tick == 1;
      R.NewStoreRight(clock, k);
      NewConsistent(clock, rclock);
      assert acts[..0] == [];
    } else {
      RunRight(states, acts, capacity, clock, rclock, n - 1, k);
      assert Next(capacity, clock, rclock, states[n - 1], acts[n - 1], states[n - 1 + 1]);
      RightInv(states[n - 1].store, clock, ApplyAll(acts[..n - 1]), k);
      StepConsistent(capacity, clock, rclock, states[n - 1], acts[n - 1], states[n]);
      StepRight(capacity, clock, rclock, states[n - 1], acts[n - 1], states[n], ApplyAll(acts[..n - 1]), k);
      assert acts[..n][..n - 1] == acts[..n - 1];
    }
  }

  lemma RightInv(s: Store.State, clock: nat -> nat, m: map<Key, Value>, k: Key)
    requires R.Right(s, clock, m, k)
    ensures Inv(s, clock)
  {
  }

  lemma NewConsistent(clock: nat -> nat, rclock: nat -> nat)
    ensures Consistent(New(clock)) && RoundOk(rclock, New(clock))
  {
    assert B.TablesOf([]) == multiset{};
  }

  /** The engine refines a plain map. Over any run of writes, flushes into buckets, collections, lookups that
      rebuild filters, restarts and rounds of compaction, finished or abandoned, with anything else between the
      steps of a round, in any order the key allows, a read of the key returns exactly what the plain map holds
      after the same writes. */
  lemma EngineRefinesMap(states: seq<Machine>, acts: seq<Act>, capacity: nat, clock: nat -> nat, rclock: nat -> nat,
                         k: Key)
    requires Run(states, acts, capacity, clock, rclock) && RunAllowed(states, acts, rclock, k)
    requires UserKey(k) && 1 <= |k| <= 65536 && Ticking(clock)
    ensures Get(states[|acts|].store, k) == Ok(R.Lookup(ApplyAll(acts), k))
  {
    hide R.Right, Get, Next, Allowed, RunAllowed;
    RunRight(states, acts, capacity, clock, rclock, |acts|, k);
    assert acts[..|acts|] == acts;
    R.GetRight(states[|acts|].store, clock, ApplyAll(acts), k);
  }

  // ---------------------------------------------------------------------
  // Every run, whatever happens to the keys

  lemma StepKeepsInv(capacity: nat, clock: nat -> nat, rclock: nat -> nat, e: Machine, act: Act, e': Machine)
    requires Consistent(e) && Consistent(e') && Inv(e.store, clock) && Ticking(clock)
    requires Next(capacity, clock, rclock, e, act, e') && Small(e'.store, clock(e'.store.tick))
    ensures Inv(e'.store, clock)
  {
    hide C.Valid, C.Tables, C.CleanUp, C.Removals, C.AddTable, C.MergeBuckets, SsTable.Fits, SsTable.StoredAll, R.Exec,
         Size, Outs, Merges, C.Extracted, C.Fresh, ReadBack, Inv, Sorted, Consistent, Writes, Loaded,
         B.Removed, StaySearched;
    ConsistentTables(e');
    match act
    case Plain(op) => R.StepKeepsInv(e.store, capacity, clock, op, e'.store);
    case Restart(n) =>
      var s := R.Exec(e.store, capacity, clock, R.OpCrash(n)).value;
      CrashTick(e.store, capacity, clock, n);
      R.StepKeepsInv(e.store, capacity, clock, R.OpCrash(n), s);
      R.TablesKeepInv(s, clock, e'.store.tables);
    case FlushTable(i, size) =>
      if e.store.sealed[i] != [] && SsTable.Fits(e.store.sealed[i]) {
        FlushKeepsInv(e.store, clock, i);
      }
    case Rebuild(dirs) => R.TablesKeepInv(e.store, clock, e'.store.tables);
    case NewRunner =>
    case BeginRound(cfg) =>
    case InsertMerged(size) => R.TablesKeepInv(e.store, clock, e'.store.tables);
    case AbandonRound =>
    case FinishRound => R.TablesKeepInv(e.store, clock, e'.store.tables);
  }

  lemma CrashTick(s: Store.State, capacity: nat, clock: nat -> nat, n: nat)
    requires R.Exec(s, capacity, clock, R.OpCrash(n)).Some?
    ensures var s' := R.Exec(s, capacity, clock, R.OpCrash(n)).value; s'.log == s.log && s'.tick == s.tick
  {
    hide ParseAll, Recovery.Replayed, File;
  }

  /** In every state of every run the tables of the store are the searched ones: those in the buckets and those
      kept when a round removed them; what a round in progress will remove is in front of its buckets; and no
      entry map holds anything but what the collector has put there. */
  lemma {:induction false} RunConsistent(states: seq<Machine>, acts: seq<Act>, capacity: nat, clock: nat -> nat,
                                         rclock: nat -> nat, n: nat)
    requires Run(states, acts, capacity, clock, rclock) && n <= |acts| && Ticking(clock)
    ensures Consistent(states[n]) && RoundOk(rclock, states[n]) && Inv(states[n].store, clock)
  {
    hide Next, Consistent, RoundOk, Inv;
    if n == 0 {
      assert states[0].store.tick == 1;
      R.NewStoreInv(clock);
      NewConsistent(clock, rclock);
    } else {
      RunConsistent(states, acts, capacity, clock, rclock, n - 1);
      assert Next(capacity, clock, rclock, states[n - 1], acts[n - 1], states[n - 1 + 1]);
      StepConsistent(capacity, clock, rclock, states[n - 1], acts[n - 1], states[n]);
      StepKeepsInv(capacity, clock, rclock, states[n - 1], acts[n - 1], states[n]);
    }
  }

  /** The merge of bucket `i` reads the version: a table other than the first holds it, or the first is the one
      whose map the collector shares and that holds it. */
  predicate Reads(e: Machine, i: nat, x: Entry)
    requires i < |C.Removals(e.run)| && C.Removals(e.run)[i].tables != []
  {
    var ts := C.Removals(e.run)[i].tables;
    (exists j :: 0 < j < |ts| && Find(ts[j].disk, x.key) == Some(x)) ||
    (e.linked == Some(ts[0].dir) && Find(Held(e.store), x.key) == Some(x))
  }

  /** It does, and the version has not expired at the last merge of that bucket. */
  predicate ReadUnexpired(cfg: Config, rclock: nat -> nat, e: Machine, i: nat, x: Entry)
    requires C.Extracted(C.Removals(e.run)) && i < |C.Removals(e.run)|
  {
    Reads(e, i, x) && Unexpired(cfg, rclock(C.TickAfter(e.run.tick, C.Removals(e.run)[..i + 1]) - 1), x)
  }

  lemma LoadedContents(e: Machine, i: nat, x: Entry)
    requires Consistent(e) && i < |C.Removals(e.run)| && C.Removals(e.run)[i].tables != []
    ensures |Loaded(e)| == |C.Removals(e.run)| && Loaded(e)[i].tables != []
    ensures Version(C.Contents(Loaded(e)[i].tables), x) <==> Reads(e, i, x)
  {
    hide Find, C.Valid, C.Removals, C.Tables, Held;
    var rs, ts := C.Removals(e.run), Loaded(e)[i].tables;
    C.RemovalFacts(e.run);
    assert rs[i].tables[0] in multiset(rs[i].tables);
    assert rs[i].tables[0] in C.Tables(e.run);
    FindNone(x.key);
    var c := C.Contents(ts);
    assert c[0] == ts[0].mem;
    forall j | 0 < j < |ts|
      ensures c[j] == rs[i].tables[j].disk
    {
      assert c[j] == ts[1..][j - 1].disk;
    }
    if j :| 0 < j < |ts| && Find(rs[i].tables[j].disk, x.key) == Some(x) {
      assert Find(c[j], x.key) == Some(x);
    }
    if Find(c[0], x.key) == Some(x) {
      assert Version(c, x);
    }
  }

  lemma {:induction false} LoadedTicks(e: Machine, n: nat)
    requires C.Extracted(C.Removals(e.run)) && n <= |C.Removals(e.run)| && C.Extracted(Loaded(e))
    ensures C.TickAfter(e.run.tick, Loaded(e)[..n]) == C.TickAfter(e.run.tick, C.Removals(e.run)[..n])
  {
    hide C.Removals;
    if n > 0 {
      LoadedTicks(e, n - 1);
      assert Loaded(e)[..n][..n - 1] == Loaded(e)[..n - 1];
      assert C.Removals(e.run)[..n][..n - 1] == C.Removals(e.run)[..n - 1];
    }
  }

  /** In every state of every run: of a round that begins there, and of a live version that is the newest of
      what the tables and the collector hold. After the clean-up the tables that stay and the merged ones hold
      it if and only if a table that stays does, or it is newer than the deletion on record, the merge of some
      bucket reads it, and it has not expired at the last merge of that bucket. */
  lemma ComesThrough(states: seq<Machine>, acts: seq<Act>, capacity: nat, clock: nat -> nat, rclock: nat -> nat,
                     n: nat, cfg: Config, merged: seq<B.Sst>, x: Entry)
    requires Run(states, acts, capacity, clock, rclock) && n <= |acts| && Ticking(clock) && C.Forward(rclock)
    requires C.Extracted(C.Removals(states[n].run)) && C.Extracted(Loaded(states[n])) && !x.tomb
    requires var ts := C.Tables(states[n].run) + multiset{HeldTable(Held(states[n].store))};
             C.Timed(ts, x.key) && C.IsNewest(ts, x.key, Some(x))
    requires var c := Round(cfg, states[n].run, Loaded(states[n]), Held(states[n].store), [], []);
             C.Disks(merged) == Outs(rclock, c)
    ensures var e := states[n];
            C.Holds(C.Staying(e.run) + multiset(merged), x) <==>
            C.Holds(C.Staying(e.run), x) ||
            (Passes(Recorded(e.run.marks, x.key), x) &&
             exists i :: 0 <= i < |C.Removals(e.run)| && ReadUnexpired(cfg, rclock, e, i, x))
  {
    hide Next, C.Removals, C.Tables, C.Valid, Passes, B.Removed, Inv, RoundOk, C.MergeBuckets, C.Holds, Small, Find,
         C.Timed, C.IsNewest, C.Forward, LoadedFrom, Sorted, Held, Loaded, Consistent, Reads, C.Extracted, C.TickAfter,
         Unexpired, C.Contents, Version, C.Staying;
    RunConsistent(states, acts, capacity, clock, rclock, n);
    var e := states[n];
    HeldSorted(e.store, clock);
    LoadedIs(e);
    ConsistentTables(e);
    LoadedKeepsLive(cfg, rclock, e.run, Loaded(e), Held(e.store), merged, x);
    LoadedSize(e);
    forall i | 0 <= i < |C.Removals(e.run)|
      ensures C.Carries(cfg, rclock, e.run.tick, Loaded(e), i, x) <==> ReadUnexpired(cfg, rclock, e, i, x)
    {
      ExtractedSome(C.Removals(e.run), i);
      LoadedContents(e, i, x);
      LoadedTicks(e, i + 1);
    }
  }

  lemma LoadedSize(e: Machine)
    ensures |Loaded(e)| == |C.Removals(e.run)|
  {
  }

  lemma ExtractedSome(rs: seq<B.Removal>, i: nat)
    requires C.Extracted(rs) && i < |rs|
    ensures rs[i].tables != []
  {
  }

  lemma HeldSorted(s: Store.State, clock: nat -> nat)
    requires Inv(s, clock)
    ensures Sorted(Held(s))
  {
  }
}
