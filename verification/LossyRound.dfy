/** A run of the engine from a new store in which a finished round of compaction loses a key: five puts, four
    flushes into one bucket, and a round that merges the bucket. The key is in the first table of the bucket,
    which is merged from an entry map that the flush has emptied.
 */
module LossyRound {
  import opened Wrappers
  import opened Bytes
  import opened Entries
  import opened LogCodec
  import opened Merge
  import opened Memtables
  import opened Store
  import opened StoreSteps
  import opened Engine
  import B = Buckets
  import C = Compaction
  import R = Runs
  import S = Scenarios
  import SsTable
  import Recovery

  /** So small that every put seals the memtable with the put before it. */
  const CAPACITY: nat := 30

  const TABLE_SIZE: nat := 100

  function KeyOf(n: nat): (k: Key) { if n <= 1 then S.A else S.B }

  /** `A` is put once, then `B` again and again. */
  function Puts(n: nat, clock: nat -> nat): (s: Store.State)
  {
    if n == 0 then Recovery.NewStore(clock) else Put(Puts(n - 1, clock), CAPACITY, clock, KeyOf(n), [1])
  }

  // ---------------------------------------------------------------------
  // The puts

  lemma SealedPut(s: Store.State, clock: nat -> nat, k: Key, v: Value)
    requires s.gc == [] && s.active.size + 17 >= CAPACITY && Sized(k) && ValueSized(v)
    ensures var s' := Put(s, CAPACITY, clock, k, v);
            s'.log == s.log + [Record(k, v, clock(s.tick), v == MARKER)] && s'.gc == [] && s'.tables == s.tables &&
            s'.tick == s.tick + 2 && s'.active.size == |k| + 13 && s'.active.recent == Size(s.log) &&
            s'.active.entries == [Entry(k, Size(s.log), clock(s.tick), v == MARKER)] &&
            s'.link == LinkSealed(s) && s'.saved == s.saved + [(s.active.recent, s.tail)] && s'.hole == s.hole &&
            s'.tail == s.tail &&
            var h := Entry(HEAD_KEY, s.active.recent, clock(s.tick + 1), false);
            s'.sealed == s.sealed + [InsertSorted(s.active.entries, h)]
  {
    hide Size;
    var e := Entry(k, Size(s.log), clock(s.tick), v == MARKER);
    assert InsertSorted([], e) == [e];
  }

  /** A memtable with the entry of one key and that of the head. */
  predicate Thin(es: seq<Entry>, k: Key)
  {
    es != [] && |es| <= 2 && Sorted(es) && Find(es, k).Some? && forall e | e in es :: e.key == k || e.key == HEAD_KEY
  }

  /** It holds no deletion. */
  predicate Slim(es: seq<Entry>, k: Key)
  {
    Thin(es, k) && forall e | e in es :: !e.tomb
  }

  lemma ThinSealed(e: Entry, h: Entry)
    requires e.key != HEAD_KEY && h.key == HEAD_KEY
    ensures Thin(InsertSorted([e], h), e.key) && Find(InsertSorted([e], h), e.key) == Some(e)
    ensures !e.tomb && !h.tomb ==> Slim(InsertSorted([e], h), e.key)
  {
    assert Sorted([e]);
    InsertKeepsSorted([e], h);
    InsertMembers([e], h);
    InsertFinds([e], h, e.key);
    assert [e][1..] == [];
  }

  lemma ThinHoldsOnly(es: seq<Entry>, k: Key, q: Key)
    requires Thin(es, k) && q != k && q != HEAD_KEY
    ensures Find(es, q) == None
  {
    FindMember(es, q);
  }

  /** After `n` puts: the first sealed memtable is that of the new store, the others hold one put each. */
  predicate AfterPuts(s: Store.State, n: nat)
  {
    |s.sealed| == n && s.gc == [] && s.tables == [] && s.tick == 2 * n + 1 && s.active.size + 17 >= CAPACITY &&
    s.link == (if n == 0 then ToActive else ToSealed(0)) &&
    (n > 0 ==> |s.active.entries| == 1 && s.active.entries[0].key == KeyOf(n) && !s.active.entries[0].tomb &&
               Find(s.sealed[0], S.A) == None) &&
    (forall i | 1 <= i < n :: Slim(s.sealed[i], KeyOf(i)))
  }

  lemma {:induction false} PutsAre(n: nat, clock: nat -> nat)
    ensures AfterPuts(Puts(n, clock), n) && Size(Puts(n, clock).log) == 50 + 19 * n
  {
    hide Put, InsertSorted, Find, Sorted, Size;
    if n == 0 {
      NewIs(clock);
    } else {
      PutsAre(n - 1, clock);
      var s := Puts(n - 1, clock);
      SealedPut(s, clock, KeyOf(n), [1]);
      SizeAppend(s.log, Record(KeyOf(n), [1], clock(s.tick), false));
      var h := Entry(HEAD_KEY, s.active.recent, clock(s.tick + 1), false);
      if n == 1 {
        FirstSealed(clock);
      } else {
        assert s.active.entries == [s.active.entries[0]];
        ThinSealed(s.active.entries[0], h);
      }
    }
  }

  lemma NewIs(clock: nat -> nat)
    ensures AfterPuts(Recovery.NewStore(clock), 0) && Size(Recovery.NewStore(clock).log) == 50
  {
    hide InsertSorted;
    var log := Recovery.FirstLog(clock(0));
    assert log[..1] == [log[0]] && log[..1][..0] == [];
    assert Size(log[..1]) == Size(log[..1][..0]) + RecordSize(log[0]);
  }

  lemma FirstSealed(clock: nat -> nat)
    ensures var s := Recovery.NewStore(clock);
            Find(InsertSorted(s.active.entries, Entry(HEAD_KEY, s.active.recent, clock(2), false)), S.A) == None
  {
    hide InsertSorted, Find, Sorted, OffsetOf;
    var s := Recovery.NewStore(clock);
    var e1 := Entry(TAIL_KEY, 0, clock(0), false);
    var e2 := Entry(HEAD_KEY, OffsetOf(s.log, 1), clock(0), false);
    EmptySorted();
    FindNone(S.A);
    InsertKeepsSorted([], e1);
    InsertKeepsSorted(InsertSorted([], e1), e2);
    InsertFinds([], e1, S.A);
    InsertFinds(InsertSorted([], e1), e2, S.A);
    InsertFinds(s.active.entries, Entry(HEAD_KEY, s.active.recent, clock(2), false), S.A);
  }

  // ---------------------------------------------------------------------
  // The flushes

  function Opened(s: Store.State): (e: Machine)
  {
    Machine(s, [], C.RunState(C.Sys([], map[], 0), map[], 0), None, None, Ranges({}, {}, [], []))
  }

  /** The flush of memtable `i`. */
  function Flushed(e: Machine, i: nat): (e': Machine)
    requires i < |e.store.sealed|
  {
    var t := C.Fresh(e.run.sys, SsTable.StoredAll(e.store.sealed[i]));
    e.(store := Flush(e.store, i), tables := e.tables + [t],
       run := e.run.(sys := C.AddTable(e.run.sys, t.disk, TABLE_SIZE)),
       linked := if e.store.link == ToSealed(i) then Some(t.dir) else e.linked)
  }

  /** The memtables 1 to `j` are flushed. */
  function Flushes(j: nat, clock: nat -> nat): (e: Machine)
    requires j <= 4
  {
    if j == 0 then Opened(Puts(5, clock)) else
    var e := Flushes(j - 1, clock);
    if j >= |e.store.sealed| then e else Flushed(e, j)
  }

  lemma ThinFits(es: seq<Entry>, k: Key)
    requires Thin(es, k) && |k| <= 4
    ensures SsTable.Fits(es) && SsTable.SizeOf(SsTable.StoredAll(es)) <= 42
  {
    hide Sorted, Find;
    var st := SsTable.StoredAll(es);
    forall i | 0 <= i < |es|
      ensures |es[i].key| <= 4 && SsTable.EntrySize(st[i]) <= 21
    {
      assert es[i] in es;
    }
    SsTable.SizeOfOne(st[0]);
    if |st| == 1 {
      assert st == [st[0]];
    } else {
      assert st == [st[0]] + [st[1]];
      SsTable.SizeOfOne(st[1]);
      SsTable.SizeOfConcat([st[0]], [st[1]]);
    }
  }

  /** One bucket takes all tables, because they are small. */
  lemma OneBucket(bs: B.BucketSeq, ts: seq<B.Sst>, t: B.Sst, newId: nat)
    requires B.FileSize(t) < 4096 && Bucketed(bs, ts)
    ensures Bucketed(B.Insert(bs, t, TABLE_SIZE, newId), ts + [t])
  {
    hide B.FileSize;
    if ts == [] {
      assert [t][..0] == [];
      assert ts + [t] == [t];
      assert B.TotalSize([t]) == B.TotalSize([t][..0]) + B.FileSize(t);
    } else {
      hide B.Average;
      assert B.FirstFit(bs, TABLE_SIZE) == 0;
      B.AverageMoves(ts, t);
    }
  }

  /** The memtables 1 to `j` have become tables. */
  ghost predicate StoreFlushed(e: Machine, s: Store.State, j: nat)
    requires j <= 4
  {
    |s.sealed| == 5 && |e.store.sealed| == 5 && |e.tables| == j && e.round == None && e.run.marks == map[] &&
    e.linked == None && e.ranges == Ranges({}, {}, [], []) && s.link == ToSealed(0) &&
    e.store == s.(sealed := e.store.sealed, tables := C.Disks(e.tables)) &&
    (forall i | 0 <= i < 5 :: e.store.sealed[i] == if 1 <= i <= j then [] else s.sealed[i]) &&
    (forall i | 0 <= i < j :: e.tables[i].disk == SsTable.StoredAll(s.sealed[i + 1]))
  }

  /** They are in one bucket. */
  predicate Bucketed(bs: B.BucketSeq, ts: seq<B.Sst>)
  {
    if ts == [] then bs == []
    else |bs| == 1 && bs[0].tables == ts && bs[0].average == B.Average(ts) && bs[0].average < 4096
  }

  lemma {:induction false} FlushesAre(j: nat, clock: nat -> nat)
    requires j <= 4
    ensures var e := Flushes(j, clock);
            StoreFlushed(e, Puts(5, clock), j) && Bucketed(e.run.sys.buckets, e.tables) && Engine.Consistent(e)
  {
    hide Puts, SsTable.StoredAll, SsTable.Fits, Slim, Engine.Consistent, Bucketed, C.AddTable, Flush,
         Engine.Next, Flushed;
    var s := Puts(5, clock);
    PutsAre(5, clock);
    if j == 0 {
      OpenedIs(s);
    } else {
      FlushesAre(j - 1, clock);
      assert Slim(s.sealed[j], KeyOf(j));
      FlushNext(j, clock, clock);
      FlushedStore(Flushes(j - 1, clock), s, j);
    }
  }

  lemma FlushNext(j: nat, clock: nat -> nat, rclock: nat -> nat)
    requires 1 <= j <= 4
    requires var e := Flushes(j - 1, clock);
             StoreFlushed(e, Puts(5, clock), j - 1) && Bucketed(e.run.sys.buckets, e.tables) && Engine.Consistent(e)
    requires AfterPuts(Puts(5, clock), 5)
    ensures var e, e' := Flushes(j - 1, clock), Flushes(j, clock);
            |e.store.sealed| == 5 && e.store.sealed[j] != [] && SsTable.Fits(e.store.sealed[j]) &&
            Engine.Next(CAPACITY, clock, rclock, e, FlushTable(j, TABLE_SIZE), e') && Engine.Consistent(e') &&
            Bucketed(e'.run.sys.buckets, e'.tables) && e' == Flushed(e, j)
  {
    hide Puts, SsTable.StoredAll, SsTable.Fits, Engine.Consistent, Bucketed, Engine.Next, Flushed, Thin;
    var e := Flushes(j - 1, clock);
    assert Slim(Puts(5, clock).sealed[j], KeyOf(j));
    FlushGrows(e, j, KeyOf(j), clock, rclock);
  }

  lemma OpenedIs(s: Store.State)
    requires s.tables == []
    ensures Engine.Consistent(Opened(s)) && Bucketed([], [])
  {
    assert B.TablesOf([]) == multiset{};
  }

  /** A flush puts its table into the one bucket. */
  lemma FlushGrows(e: Machine, i: nat, k: Key, clock: nat -> nat, rclock: nat -> nat)
    requires i < |e.store.sealed| && Thin(e.store.sealed[i], k) && |k| <= 4 && e.round == None
    requires Engine.Consistent(e) && Bucketed(e.run.sys.buckets, e.tables)
    ensures e.store.sealed[i] != [] && SsTable.Fits(e.store.sealed[i])
    ensures Engine.Consistent(Flushed(e, i)) && Bucketed(Flushed(e, i).run.sys.buckets, Flushed(e, i).tables)
    ensures Engine.Next(CAPACITY, clock, rclock, e, FlushTable(i, TABLE_SIZE), Flushed(e, i))
  {
    hide SsTable.StoredAll, SsTable.Fits, SsTable.SizeOf, Sorted, Find, C.Valid, C.Tables, B.Insert,
         B.Average, Engine.Consistent;
    ThinFits(e.store.sealed[i], k);
    StoredSorted(e.store.sealed[i]);
    var out := SsTable.StoredAll(e.store.sealed[i]);
    var t := C.Fresh(e.run.sys, out);
    ConsistentTables(e);
    assert C.Disks(e.tables + [t]) == C.Disks(e.tables) + [out];
    OneBucket(e.run.sys.buckets, e.tables, t, e.run.sys.nextId);
    AddedConsistent(e, out, TABLE_SIZE, Flushed(e, i));
  }

  lemma FlushedStore(e: Machine, s: Store.State, j: nat)
    requires 1 <= j <= 4 && StoreFlushed(e, s, j - 1) && e.store.sealed[j] != [] && SsTable.Fits(e.store.sealed[j])
    ensures StoreFlushed(Flushed(e, j), s, j)
  {
    hide SsTable.StoredAll, SsTable.Fits, C.AddTable;
    var t := C.Fresh(e.run.sys, SsTable.StoredAll(e.store.sealed[j]));
    assert C.Disks(e.tables + [t]) == C.Disks(e.tables) + [t.disk];
  }

  lemma PutNext(n: nat, clock: nat -> nat, rclock: nat -> nat)
    ensures Engine.Next(CAPACITY, clock, rclock, Opened(Puts(n, clock)), Plain(R.OpPut(KeyOf(n + 1), [1])),
                 Opened(Puts(n + 1, clock)))
  {
    hide Put;
  }

  // ---------------------------------------------------------------------
  // The round

  /** The bucket with the four tables is extracted, and no table stays. */
  lemma Extraction(e: Machine)
    requires |e.tables| == 4 && Bucketed(e.run.sys.buckets, e.tables)
    ensures var rs := C.Removals(e.run);
            C.Extracted(rs) && |rs| == 1 && rs[0].tables == e.tables && B.Removed(rs) == multiset(e.tables)
  {
    hide B.ExtractAll, B.Removed, B.Average;
    var b := e.run.sys.buckets[0];
    assert e.run.sys.buckets == [b];
    C.ExtractOne(b);
  }

  /** The collector has put nothing into an entry map: the merges find them all empty. */
  lemma NothingLoaded(e: Machine)
    requires Engine.Consistent(e) && Held(e.store) == []
    ensures Loaded(e) == C.Removals(e.run)
  {
    hide C.Valid, C.Removals, C.Tables;
    var rs := C.Removals(e.run);
    LoadedIs(e);
    C.RemovalFacts(e.run);
    forall i | 0 <= i < |rs|
      ensures Loaded(e)[i] == rs[i]
    {
      forall j | 0 <= j < |rs[i].tables|
        ensures Loaded(e)[i].tables[j] == rs[i].tables[j]
      {
        assert rs[i].tables[j] in multiset(rs[i].tables);
        assert rs[i].tables[j] in C.Tables(e.run);
      }
      assert Loaded(e)[i].tables == rs[i].tables;
    }
  }

  /** No entry expires while the merges run. */
  ghost predicate NeverExpires(cfg: Config, rclock: nat -> nat)
  {
    cfg.useTtl ==> forall i: nat :: rclock(i) <= cfg.entryTtl
  }

  /** Where nothing expires and nothing was deleted, a key that some table has comes out of the fold. */
  lemma {:induction false} UndeletedComesOut(cfg: Config, nows: seq<nat>, x: Option<Entry>, ys: seq<Option<Entry>>,
                                             i: nat)
    requires |nows| == |ys| && (cfg.useTtl ==> forall j | 0 <= j < |nows| :: nows[j] <= cfg.entryTtl)
    requires (x.Some? ==> !x.value.tomb) && forall j | 0 <= j < |ys| && ys[j].Some? :: !ys[j].value.tomb
    requires (i < |ys| && ys[i].Some?) || x.Some?
    ensures Live(FoldKey(cfg, nows, x, ys, None).0) && FoldKey(cfg, nows, x, ys, None).1 == None
    decreases |ys|
  {
    if ys != [] {
      var n := |ys| - 1;
      UndeletedFold(cfg, nows[..n], x, ys[..n]);
      if i != n || x.Some? {
        UndeletedComesOut(cfg, nows[..n], x, ys[..n], i);
      }
    }
  }

  lemma {:induction false} UndeletedFold(cfg: Config, nows: seq<nat>, x: Option<Entry>, ys: seq<Option<Entry>>)
    requires |nows| == |ys| && (x.Some? ==> !x.value.tomb)
    requires forall j | 0 <= j < |ys| && ys[j].Some? :: !ys[j].value.tomb
    ensures var (r, t) := FoldKey(cfg, nows, x, ys, None); t == None && (r.Some? ==> !r.value.tomb)
    decreases |ys|
  {
    if ys != [] {
      var n := |ys| - 1;
      UndeletedFold(cfg, nows[..n], x, ys[..n]);
    }
  }

  /** What the merge of the one extracted bucket makes of a key. */
  lemma MergeOfKey(cfg: Config, rclock: nat -> nat, e: Machine, k: Key)
    requires |e.tables| == 4 && Bucketed(e.run.sys.buckets, e.tables) && Engine.Consistent(e)
    requires C.Extracted(C.Removals(e.run)) && e.run.marks == map[] && e.ranges.kept == [] && e.ranges.back == []
    ensures var outs := C.Folded(cfg, rclock, e.run).outs;
            var nows, ys := C.Readings(rclock, e.run.tick, 3), Finds(C.Disks(e.tables[1..]), k);
            |outs| == 1 && Sorted(outs[0]) && Find(outs[0], k) == FoldKey(cfg, nows, None, ys, None).0
  {
    hide B.ExtractAll, C.MergeBuckets, C.Valid, B.Average, Find, Sorted, B.TablesOf, FoldKey, C.Readings;
    Extraction(e);
    C.RemovalFacts(e.run);
    C.OutsSorted(cfg, rclock, e.run);
    FirstUnloaded(e);
    FindNone(k);
    var rs := C.Removals(e.run);
    C.FoldBucketsAre(cfg, rclock, e.run.tick, rs, e.run.marks, k);
    assert rs[..0] == [] && rs[0].tables == e.tables;
    var outs := C.Folded(cfg, rclock, e.run).outs;
    assert C.FoldBuckets(cfg, rclock, e.run.tick, rs[..0], None, k) == C.KeyFold([], None, e.run.tick);
    assert Finds(outs, k)[0] == Find(outs[0], k);
  }

  /** The merge does not read the first table, and does not come out empty. */
  lemma MergedWithout(cfg: Config, rclock: nat -> nat, e: Machine, s: Store.State)
    requires StoreFlushed(e, s, 4) && Bucketed(e.run.sys.buckets, e.tables) && Engine.Consistent(e)
    requires forall i | 1 <= i < 5 :: Slim(s.sealed[i], KeyOf(i))
    requires C.Extracted(C.Removals(e.run)) && NeverExpires(cfg, rclock)
    ensures var outs := C.Folded(cfg, rclock, e.run).outs;
            |outs| == 1 && Sorted(outs[0]) && Find(outs[0], S.A) == None && outs[0] != []
  {
    hide B.ExtractAll, C.MergeBuckets, C.Removals, B.Average, Find, Sorted, SsTable.StoredAll, Thin, FoldKey,
         Engine.Consistent, Bucketed, C.Extracted;
    var xs, ys := Finds(C.Disks(e.tables[1..]), S.A), Finds(C.Disks(e.tables[1..]), S.B);
    forall i | 0 <= i < 3
      ensures xs[i] == None && ys[i].Some? && !ys[i].value.tomb
    {
      assert e.tables[1..][i].disk == SsTable.StoredAll(s.sealed[i + 2]);
      StoredFinds(s.sealed[i + 2], S.A);
      StoredFinds(s.sealed[i + 2], S.B);
      ThinHoldsOnly(s.sealed[i + 2], S.B, S.A);
      SlimFinds(s.sealed[i + 2], S.B);
    }
    var nows := C.Readings(rclock, e.run.tick, 3);
    MergeOfKey(cfg, rclock, e, S.A);
    MergeOfKey(cfg, rclock, e, S.B);
    NothingComesOut(cfg, nows, xs, None);
    UndeletedComesOut(cfg, nows, None, ys, 0);
    FindNone(S.B);
  }

  lemma SlimFinds(es: seq<Entry>, k: Key)
    requires Slim(es, k)
    ensures Find(es, k).Some? && !Find(es, k).value.tomb
  {
    FindMember(es, k);
  }

  lemma {:induction false} NothingComesOut(cfg: Config, nows: seq<nat>, ys: seq<Option<Entry>>, t: Option<nat>)
    requires |nows| == |ys| && forall j | 0 <= j < |ys| :: ys[j] == None
    ensures FoldKey(cfg, nows, None, ys, t) == (None, t)
    decreases |ys|
  {
    if ys != [] {
      NothingComesOut(cfg, nows[..|ys| - 1], ys[..|ys| - 1], t);
    }
  }

  lemma FirstUnloaded(e: Machine)
    requires Engine.Consistent(e) && e.tables != [] && e.ranges.kept == [] && e.ranges.back == []
    ensures e.tables[0].mem == []
  {
    hide C.Valid, C.Tables;
    assert e.tables[0] in multiset(e.tables);
  }

  lemma {:induction false} NoneNewest(ts: seq<seq<Entry>>, k: Key)
    requires forall i | 0 <= i < |ts| :: Find(ts[i], k) == None
    ensures Newest(ts, k) == None
  {
    hide Find;
    if ts != [] {
      NoneNewest(ts[..|ts| - 1], k);
    }
  }

  /** Once the merged table is the only one, the key is nowhere. */
  lemma Nowhere(e: Machine, s: Store.State, out: seq<Entry>)
    requires StoreFlushed(e, s, 4) && AfterPuts(s, 5) && Find(out, S.A) == None
    ensures Get(e.store.(tables := [out]), S.A) == Ok(None)
  {
    hide Find, SsTable.StoredAll, Slim, Newest;
    var s' := e.store.(tables := [out]);
    FindNone(S.A);
    forall i | 0 <= i < 5
      ensures Find(s'.sealed[i], S.A) == None
    {
    }
    NoneNewest(s'.sealed, S.A);
    NoneNewest([out], S.A);
    ActiveWithout(s);
    S.NothingSelected(s', S.A);
  }

  lemma ActiveWithout(s: Store.State)
    requires AfterPuts(s, 5)
    ensures Find(s.active.entries, S.A) == None
  {
    assert s.active.entries == [s.active.entries[0]];
    C.FindOne(s.active.entries[0], S.A);
  }

  /** The state after the round has begun, after its one insertion, and after its clean-up, which keeps some of
      the tables searched. */
  function Begun(e: Machine, cfg: Config, rclock: nat -> nat): (e': Machine)
    requires C.Extracted(Loaded(e))
  {
    var c := Round(cfg, e.run, Loaded(e), Held(e.store), [], []);
    e.(run := e.run.(marks := Merges(rclock, c).marks, tick := Merges(rclock, c).tick), round := Some(c))
  }

  function Filled(e: Machine, out: seq<Entry>): (e': Machine)
    requires e.round.Some?
  {
    var t := C.Fresh(e.run.sys, out);
    e.(store := e.store.(tables := C.Disks(e.tables + [t])), tables := e.tables + [t],
       run := e.run.(sys := C.AddTable(e.run.sys, out, TABLE_SIZE)),
       round := Some(e.round.value.(merged := e.round.value.merged + [t])))
  }

  function Cleaned(e: Machine, t: B.Sst, rs: seq<B.Removal>, kept: seq<B.Sst>): (e': Machine)
  {
    var gone := DirsOf(B.Removed(rs));
    Machine(e.store.(tables := C.Disks([t] + kept)), [t] + kept, e.run.(sys := C.CleanUp(e.run.sys, rs)), None,
            e.linked,
            Ranges(e.ranges.unready - gone, e.ranges.restored - gone, e.ranges.kept + kept, e.ranges.back))
  }

  /** A state in which a round can begin that merges everything. */
  ghost predicate Ready(e: Machine)
  {
    |e.tables| == 4 && Bucketed(e.run.sys.buckets, e.tables) && Engine.Consistent(e) && e.round == None &&
    Held(e.store) == [] && e.ranges.kept == [] && e.ranges.back == []
  }

  lemma BeginStep(cfg: Config, clock: nat -> nat, rclock: nat -> nat, e: Machine, out: seq<Entry>)
    requires Ready(e) && C.Extracted(C.Removals(e.run))
    requires C.Folded(cfg, rclock, e.run).outs == [out] && out != []
    ensures C.Extracted(Loaded(e))
    ensures var e1 := Begun(e, cfg, rclock);
            Engine.Next(CAPACITY, clock, rclock, e, BeginRound(cfg), e1) && Engine.Consistent(e1) &&
            RoundOk(rclock, e1) && Outs(rclock, e1.round.value) == [out]
  {
    hide C.MergeBuckets, C.Removals, Bucketed, C.Extracted, Engine.Consistent, Loaded, Held, RoundOk, Sorted;
    NothingLoaded(e);
    EmptySorted();
    BeginOk(rclock, e, cfg, Begun(e, cfg, rclock));
  }

  lemma InsertStep(clock: nat -> nat, rclock: nat -> nat, e: Machine, out: seq<Entry>)
    requires Engine.Consistent(e) && RoundOk(rclock, e) && e.round.Some? && Outs(rclock, e.round.value) == [out]
    requires e.round.value.merged == []
    ensures Engine.Next(CAPACITY, clock, rclock, e, InsertMerged(TABLE_SIZE), Filled(e, out))
    ensures Engine.Consistent(Filled(e, out)) && RoundOk(rclock, Filled(e, out))
  {
    hide C.MergeBuckets, C.Removals, C.AddTable, Engine.Consistent, B.AllPending, Sorted;
    InsertConsistent(rclock, e, TABLE_SIZE, Filled(e, out));
  }

  /** The three steps of the round. */
  lemma RoundSteps(cfg: Config, clock: nat -> nat, rclock: nat -> nat, e: Machine, out: seq<Entry>, kept: seq<B.Sst>)
    requires Ready(e) && StaySearched(multiset(e.tables), e.ranges.restored, kept)
    requires C.Extracted(C.Removals(e.run)) && C.Folded(cfg, rclock, e.run).outs == [out] && out != []
    ensures C.Extracted(Loaded(e))
    ensures var e1 := Begun(e, cfg, rclock);
            var e2 := Filled(e1, out);
            var e3 := Cleaned(e2, C.Fresh(e.run.sys, out), C.Removals(e.run), kept);
            Engine.Next(CAPACITY, clock, rclock, e, BeginRound(cfg), e1) &&
            Engine.Next(CAPACITY, clock, rclock, e1, InsertMerged(TABLE_SIZE), e2) &&
            Engine.Next(CAPACITY, clock, rclock, e2, FinishRound, e3)
  {
    hide C.MergeBuckets, C.Removals, Bucketed, C.Extracted, Engine.Consistent, Loaded, Held, RoundOk,
         Engine.Next, StaySearched;
    BeginStep(cfg, clock, rclock, e, out);
    var e1 := Begun(e, cfg, rclock);
    InsertStep(clock, rclock, e1, out);
    FinishStep(clock, rclock, e, Filled(e1, out), out, kept);
  }

  lemma FinishStep(clock: nat -> nat, rclock: nat -> nat, e: Machine, e2: Machine, out: seq<Entry>, kept: seq<B.Sst>)
    requires Ready(e) && StaySearched(multiset(e.tables), e.ranges.restored, kept) && e2.ranges == e.ranges
    requires Engine.Consistent(e2) && RoundOk(rclock, e2) && e2.round.Some? && e2.round.value.start == e.run
    requires e2.round.value.merged == [C.Fresh(e.run.sys, out)] && Outs(rclock, e2.round.value) == [out]
    requires e2.tables == e.tables + [C.Fresh(e.run.sys, out)]
    ensures Engine.Next(CAPACITY, clock, rclock, e2, FinishRound,
                        Cleaned(e2, C.Fresh(e.run.sys, out), C.Removals(e.run), kept))
  {
    hide C.MergeBuckets, C.Removals, C.Valid, B.TablesOf, Bucketed, C.CleanUp, Sorted, B.AllPending, B.Removed,
         Engine.Consistent, Outs, StaySearched;
    var t, rs := C.Fresh(e.run.sys, out), C.Removals(e.run);
    var e3 := Cleaned(e2, t, rs, kept);
    Extraction(e);
    ConsistentTables(e2);
    C.RemovalFacts(e.run);
    C.CleanUpValid(e2.run.sys, rs);
    OneLeft(B.TablesOf(C.CleanUp(e2.run.sys, rs).buckets), multiset(e.tables), t);
    assert multiset([t] + kept) == multiset([t]) + multiset(kept);
    assert e3.ranges.kept[|e2.ranges.kept|..] == kept;
  }

  lemma OneLeft(left: multiset<B.Sst>, ts: multiset<B.Sst>, t: B.Sst)
    requires left + ts == ts + multiset{t}
    ensures left == multiset([t])
  {
    forall u
      ensures left[u] == multiset{t}[u]
    {
      assert (left + ts)[u] == (ts + multiset{t})[u];
    }
  }

  // ---------------------------------------------------------------------
  // The run

  function ActAt(cfg: Config, i: nat): (act: Act)
  {
    if i < 5 then Plain(R.OpPut(KeyOf(i + 1), [1]))
    else if i < 9 then FlushTable(i - 4, TABLE_SIZE)
    else if i == 9 then BeginRound(cfg)
    else if i == 10 then InsertMerged(TABLE_SIZE)
    else FinishRound
  }

  /** Five puts, four flushes, and the three steps of a round. */
  function Acts(cfg: Config): (acts: seq<Act>)
    ensures |acts| == 12 && forall i | 0 <= i < 12 :: acts[i] == ActAt(cfg, i)
  {
    seq(12, i requires 0 <= i < 12 => ActAt(cfg, i))
  }

  lemma {:induction false} MapHasIt(cfg: Config, n: nat)
    requires 1 <= n <= 12
    ensures R.Lookup(ApplyAll(Acts(cfg)[..n]), S.A) == Some([1])
  {
    var acts := Acts(cfg);
    assert acts[..n][..n - 1] == acts[..n - 1] && acts[..n][n - 1] == acts[n - 1];
    if n == 1 {
      assert acts[..0] == [];
    } else {
      MapHasIt(cfg, n - 1);
    }
  }

  lemma FourTables(e: Machine, s: Store.State)
    requires StoreFlushed(e, s, 4) && AfterPuts(s, 5)
    ensures |e.tables| == 4 && e.round == None && e.store.log == s.log && e.store.tick == s.tick == 11
    ensures forall i | 1 <= i < 5 :: Slim(s.sealed[i], KeyOf(i))
  {
    hide Slim;
  }

  function Ending(e: Machine, cfg: Config, rclock: nat -> nat, out: seq<Entry>, kept: seq<B.Sst>)
      : (states: seq<Machine>)
    requires C.Extracted(Loaded(e))
    ensures |states| == 3
  {
    var e1 := Begun(e, cfg, rclock);
    var e2 := Filled(e1, out);
    [e1, e2, Cleaned(e2, C.Fresh(e.run.sys, out), C.Removals(e.run), kept)]
  }

  lemma EndingSteps(cfg: Config, clock: nat -> nat, rclock: nat -> nat, e: Machine, out: seq<Entry>, kept: seq<B.Sst>)
    requires Ready(e) && StaySearched(multiset(e.tables), e.ranges.restored, kept)
    requires C.Extracted(C.Removals(e.run)) && C.Folded(cfg, rclock, e.run).outs == [out] && out != []
    ensures C.Extracted(Loaded(e))
    ensures var es := Ending(e, cfg, rclock, out, kept);
            Engine.Next(CAPACITY, clock, rclock, e, BeginRound(cfg), es[0]) &&
            Engine.Next(CAPACITY, clock, rclock, es[0], InsertMerged(TABLE_SIZE), es[1]) &&
            Engine.Next(CAPACITY, clock, rclock, es[1], FinishRound, es[2])
  {
    hide Engine.Next, C.Folded, C.Removals, C.Extracted, Loaded, Ready, StaySearched, Begun, Filled, Cleaned;
    RoundSteps(cfg, clock, rclock, e, out, kept);
  }

  lemma EndingStores(e: Machine, cfg: Config, rclock: nat -> nat, out: seq<Entry>, kept: seq<B.Sst>)
    requires C.Extracted(Loaded(e))
    ensures var es := Ending(e, cfg, rclock, out, kept);
            es[2].store == e.store.(tables := [out] + C.Disks(kept)) &&
            forall i | 0 <= i < 3 :: es[i].store.log == e.store.log && es[i].store.tick == e.store.tick
  {
    hide C.MergeBuckets, C.Removals, C.Extracted, C.AddTable, C.CleanUp, Loaded;
    assert C.Disks([C.Fresh(e.run.sys, out)] + kept) == [out] + C.Disks(kept);
  }

  /** The states up to the last flush. */
  function Beginning(clock: nat -> nat): (states: seq<Machine>)
    ensures |states| == 10
    ensures forall i | 0 <= i < 10 :: states[i] == if i < 5 then Opened(Puts(i, clock)) else Flushes(i - 5, clock)
  {
    seq(10, i requires 0 <= i < 10 => if i < 5 then Opened(Puts(i, clock)) else Flushes(i - 5, clock))
  }

  lemma LastPut(clock: nat -> nat)
    ensures Flushes(0, clock) == Opened(Puts(5, clock))
  {
  }

  lemma BeginningSteps(cfg: Config, clock: nat -> nat, rclock: nat -> nat, i: nat)
    requires i < 9
    ensures Engine.Next(CAPACITY, clock, rclock, Beginning(clock)[i], Acts(cfg)[i], Beginning(clock)[i + 1])
  {
    hide Engine.Next, Puts, Flushes, Engine.Consistent, Bucketed, StoreFlushed, AfterPuts;
    LastPut(clock);
    if i < 5 {
      PutNext(i, clock, rclock);
    } else {
      PutsAre(5, clock);
      FlushesAre(i - 5, clock);
      FlushNext(i - 4, clock, rclock);
    }
  }

  lemma BeginningSmall(clock: nat -> nat, i: nat)
    requires i < 10 && Ticking(clock) && clock(20) <= U64_LIMIT
    ensures var e := Beginning(clock)[i]; Small(e.store, clock(e.store.tick))
  {
    hide Puts, Size, Bucketed, Engine.Consistent, SsTable.Fits, SsTable.StoredAll, C.AddTable, Flush;
    if i < 5 {
      PutsAre(i, clock);
      assert Beginning(clock)[i] == Opened(Puts(i, clock));
    } else {
      PutsAre(5, clock);
      FlushesAre(i - 5, clock);
      assert Beginning(clock)[i] == Flushes(i - 5, clock);
    }
  }

  /** The states of the round, and what is left in the end. */
  lemma LastSteps(cfg: Config, clock: nat -> nat, rclock: nat -> nat) returns (es: seq<Machine>, out: seq<Entry>)
    requires NeverExpires(cfg, rclock)
    ensures |es| == 3 && Get(es[2].store, S.A) == Ok(None)
    ensures var e := Flushes(4, clock);
            Engine.Next(CAPACITY, clock, rclock, e, BeginRound(cfg), es[0]) &&
            Engine.Next(CAPACITY, clock, rclock, es[0], InsertMerged(TABLE_SIZE), es[1]) &&
            Engine.Next(CAPACITY, clock, rclock, es[1], FinishRound, es[2]) &&
            forall i | 0 <= i < 3 :: es[i].store.log == e.store.log && es[i].store.tick == e.store.tick
  {
    hide *;
    var s, e := Puts(5, clock), Flushes(4, clock);
    PutsAre(5, clock);
    FlushesAre(4, clock);
    FourTables(e, s);
    Extraction(e);
    MergedWithout(cfg, rclock, e, s);
    out := C.Folded(cfg, rclock, e.run).outs[0];
    assert C.Folded(cfg, rclock, e.run).outs == [out];
    Nowhere(e, s, out);
    FlushedIsReady(e, s);
    EndingSteps(cfg, clock, rclock, e, out, []);
    EndingStores(e, cfg, rclock, out, []);
    assert [out] + C.Disks([]) == [out];
    es := Ending(e, cfg, rclock, out, []);
  }

  /** The run: `A` was put, nothing failed, no collection and no crash happened, and after the round a read says
      that `A` does not exist. */
  lemma RoundLosesKey(cfg: Config, clock: nat -> nat, rclock: nat -> nat) returns (states: seq<Machine>)
    requires Ticking(clock) && clock(20) <= U64_LIMIT && NeverExpires(cfg, rclock)
    ensures Run(states, Acts(cfg), CAPACITY, clock, rclock)
    ensures R.Lookup(ApplyAll(Acts(cfg)), S.A) == Some([1]) && Get(states[12].store, S.A) == Ok(None)
  {
    hide Puts, Flushes, Engine.Next, Get, ApplyAll, Size, Acts;
    var es, out := LastSteps(cfg, clock, rclock);
    states := Beginning(clock) + es;
    AllSteps(states, cfg, clock, rclock, es);
    forall i | 0 <= i < 13
      ensures Small(states[i].store, clock(states[i].store.tick))
    {
      BeginningSmall(clock, if i < 10 then i else 9);
      assert Beginning(clock)[9] == Flushes(4, clock);
    }
    FirstIsNew(clock);
    MapHasIt(cfg, 12);
    TwelveActs(cfg);
  }

  lemma TwelveActs(cfg: Config)
    ensures |Acts(cfg)| == 12 && Acts(cfg)[..12] == Acts(cfg)
  {
  }

  lemma FirstIsNew(clock: nat -> nat)
    ensures Beginning(clock)[0] == New(clock)
  {
  }

  lemma FlushedIsReady(e: Machine, s: Store.State)
    requires StoreFlushed(e, s, 4) && Bucketed(e.run.sys.buckets, e.tables) && Engine.Consistent(e)
    ensures Ready(e) && StaySearched(multiset(e.tables), e.ranges.restored, [])
  {
    hide Bucketed, Engine.Consistent, SsTable.StoredAll;
  }

  lemma AllSteps(states: seq<Machine>, cfg: Config, clock: nat -> nat, rclock: nat -> nat, es: seq<Machine>)
    requires |es| == 3 && states == Beginning(clock) + es
    requires Engine.Next(CAPACITY, clock, rclock, Flushes(4, clock), BeginRound(cfg), es[0]) &&
             Engine.Next(CAPACITY, clock, rclock, es[0], InsertMerged(TABLE_SIZE), es[1]) &&
             Engine.Next(CAPACITY, clock, rclock, es[1], FinishRound, es[2])
    ensures forall i | 0 <= i < 12 :: Engine.Next(CAPACITY, clock, rclock, states[i], Acts(cfg)[i], states[i + 1])
  {
    hide Puts, Flushes, Engine.Next;
    forall i | 0 <= i < 12
      ensures Engine.Next(CAPACITY, clock, rclock, states[i], Acts(cfg)[i], states[i + 1])
    {
      if i < 9 {
        BeginningSteps(cfg, clock, rclock, i);
        assert states[i] == Beginning(clock)[i] && states[i + 1] == Beginning(clock)[i + 1];
      } else {
        assert states[9] == Flushes(4, clock) && states[10] == es[0] && states[11] == es[1] && states[12] == es[2];
      }
    }
  }
}
