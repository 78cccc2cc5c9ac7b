/** A run of the engine in which a deleted key comes back: a round of compaction removes its table and drops the
    deletion, but a lookup since the last restart has rebuilt the filter of that table and kept a copy of it,
    which is still searched.
 */
module ReturningKey {
  import opened Wrappers
  import opened Bytes
  import opened Entries
  import opened LogCodec
  import opened Merge
  import opened Memtables
  import opened Store
  import opened StoreSteps
  import opened Engine
  import opened LossyRound
  import B = Buckets
  import C = Compaction
  import R = Runs
  import S = Scenarios
  import SsTable
  import Recovery

  // ---------------------------------------------------------------------
  // Two puts

  function FourRecords(clock: nat -> nat): (log: seq<Record>)
  {
    Recovery.FirstLog(clock(0)) + [Record(S.A, [1], clock(1), false), Record(S.B, [1], clock(3), false)]
  }

  lemma FourOffsets(clock: nat -> nat)
    ensures var log := FourRecords(clock);
            |log| == 4 && OffsetOf(log, 2) == 50 && OffsetOf(log, 3) == 69 && Size(log) == 88 &&
            log[2] == Record(S.A, [1], clock(1), false)
  {
    hide Size;
    var log := FourRecords(clock);
    OffsetZero(log);
    OffsetNext(log, 0);
    OffsetNext(log, 1);
    OffsetNext(log, 2);
    OffsetNext(log, 3);
    OffsetEnd(log);
  }

  lemma NewPlaces(clock: nat -> nat)
    ensures var s := Puts(0, clock);
            s.log == Recovery.FirstLog(clock(0)) && s.hole == 0 && s.tail == 0 && |s.saved| == 1 && s.sealed == [] &&
            s.tick == 1 && s.gc == [] && s.active.size == 34 && s.tables == []
  {
    hide InsertSorted;
  }

  /** `A` is put at offset 50 and sealed with its own record as head; `B` is put after it. */
  lemma FirstPuts(clock: nat -> nat)
    ensures var s := Puts(2, clock);
            s.log == FourRecords(clock) && s.hole == 0 && |s.saved| == 3 && s.saved[2] == (50, 0) && s.tick == 5 &&
            |s.sealed| == 2 && Slim(s.sealed[1], S.A) && s.link == ToSealed(0) && s.gc == [] && s.tables == [] &&
            Find(s.sealed[1], S.A) == Some(Entry(S.A, 50, clock(1), false))
  {
    hide Put, InsertSorted, Find, Sorted, Size, Slim;
    NewPlaces(clock);
    NewIs(clock);
    var s0, s1, s2 := Puts(0, clock), Puts(1, clock), Puts(2, clock);
    SealedPut(s0, clock, S.A, [1]);
    SealedPut(s1, clock, S.B, [1]);
    PutsAre(1, clock);
    PutsAre(2, clock);
    ThinSealed(s1.active.entries[0], Entry(HEAD_KEY, s1.active.recent, clock(s1.tick + 1), false));
    assert s2.log == FourRecords(clock);
  }

  lemma FirstPutsInv(clock: nat -> nat)
    requires Ticking(clock) && clock(20) <= U64_LIMIT
    ensures Inv(Puts(2, clock), clock)
    ensures forall n | 0 <= n <= 2 :: Small(Puts(n, clock), clock(Puts(n, clock).tick))
  {
    hide Put, Inv, Size, AfterPuts;
    PutsAre(0, clock);
    PutsAre(1, clock);
    PutsAre(2, clock);
    AfterPutsTick(0, clock);
    AfterPutsTick(1, clock);
    AfterPutsTick(2, clock);
    R.NewStoreInv(clock);
    R.PutKeepsInv(Puts(0, clock), CAPACITY, clock, S.A, [1]);
    R.PutKeepsInv(Puts(1, clock), CAPACITY, clock, S.B, [1]);
  }

  lemma AfterPutsTick(n: nat, clock: nat -> nat)
    requires AfterPuts(Puts(n, clock), n)
    ensures Puts(n, clock).tick == 2 * n + 1
  {
    hide Puts, Slim;
  }

  // ---------------------------------------------------------------------
  // A flush and a restart

  function OneTable(clock: nat -> nat): (e: Machine)
  {
    var e := Opened(Puts(2, clock));
    if |e.store.sealed| < 2 then e else Flushed(e, 1)
  }

  /** The table of `A`. */
  function TableOfA(clock: nat -> nat): (t: B.Sst)
  {
    var s := Puts(2, clock);
    B.Sst(0, if |s.sealed| < 2 then [] else SsTable.StoredAll(s.sealed[1]), [])
  }

  /** The tables are numbered in the order in which they were flushed. */
  predicate Numbered(e: Machine)
  {
    e.run.sys.nextId == |e.tables| && forall i | 0 <= i < |e.tables| :: e.tables[i].dir == i
  }

  lemma OneTableIs(clock: nat -> nat, rclock: nat -> nat)
    ensures var e := OneTable(clock);
            Engine.Consistent(e) && Bucketed(e.run.sys.buckets, e.tables) && e.tables == [TableOfA(clock)] &&
            Numbered(e) && e.store == Flush(Puts(2, clock), 1) && e.round == None && e.run.marks == map[] &&
            e.linked == None && e.ranges == Ranges({}, {}, [], []) &&
            Engine.Next(CAPACITY, clock, rclock, Opened(Puts(2, clock)), FlushTable(1, TABLE_SIZE), e)
    ensures var s := OneTable(clock).store;
            |Puts(2, clock).sealed| == 2 && s == Puts(2, clock).(sealed := s.sealed, tables := [TableOfA(clock).disk])
  {
    hide Puts, SsTable.StoredAll, SsTable.Fits, Thin, Engine.Consistent, Bucketed, B.Insert, Engine.Next, Find;
    FirstPuts(clock);
    var e := Opened(Puts(2, clock));
    OpenedIs(Puts(2, clock));
    FlushGrows(e, 1, S.A, clock, rclock);
  }

  /** What the store is after the recovery: the second put is replayed. */
  ghost predicate Reopened(s: Store.State, clock: nat -> nat)
  {
    s.log == FourRecords(clock) && s.hole == 0 && s.tail == 0 && s.gc == [] && s.sealed == [] && s.link == ToActive &&
    s.tick == 5 && s.tables == [TableOfA(clock).disk] &&
    s.active == Memtable([Entry(S.B, 69, clock(3), false)], 14, 69)
  }

  lemma SecondReplayed(clock: nat -> nat)
    ensures var log := FourRecords(clock);
            |log| == 4 && Recovery.Replayed(CAPACITY, 50, log[2..])
            == Recovery.Rebuild(Memtable([Entry(S.B, 69, clock(3), false)], 14, 69), [])
  {
    hide Size;
    var log := FourRecords(clock);
    var rs := log[2..];
    var e := Entry(S.B, 69, clock(3), false);
    FourOffsets(clock);
    assert rs == [log[2], log[3]] && rs[..1] == [log[2]];
    assert Recovery.Replayed(CAPACITY, 50, rs[..1]) == Recovery.Rebuild(EmptyTable, []);
    assert [log[2]] == [] + [log[2]];
    SizeAppend([], log[2]);
    assert Size([]) == 0 by { NoSize(); }
    assert Recovery.EntryAt(50, rs, 1) == e;
    assert InsertSorted([], e) == [e];
  }

  lemma NoSize()
    ensures Size([]) == 0
  {
  }

  lemma Recovers(clock: nat -> nat)
    requires Ticking(clock) && clock(20) <= U64_LIMIT
    ensures var s := R.Exec(OneTable(clock).store, CAPACITY, clock, R.OpCrash(2));
            s.Some? && Reopened(s.value, clock)
  {
    hide Puts, OneTable, Recovery.Replayed, Size, Find, Thin, Engine.Consistent, Bucketed, Engine.Next, Inv,
         Recovery.Recover, TableOfA, FourRecords, OffsetOf;
    var s := OneTable(clock).store;
    OneTableIs(clock, clock);
    FirstPuts(clock);
    FirstPutsInv(clock);
    FourOffsets(clock);
    FlushKeepsInv(Puts(2, clock), clock, 1);
    Recovery.RecoverReads(s, clock, CAPACITY, 2, 2);
    SecondReplayed(clock);
  }

  /** The state after the restart; the filter of the one table is to be rebuilt. */
  function Restarted(clock: nat -> nat): (e: Machine)
  {
    var e, s := OneTable(clock), R.Exec(OneTable(clock).store, CAPACITY, clock, R.OpCrash(2));
    e.(store := if s.Some? then s.value else e.store, ranges := Ranges({0}, {}, [], []))
  }

  lemma RestartedIs(clock: nat -> nat, rclock: nat -> nat)
    requires Ticking(clock) && clock(20) <= U64_LIMIT
    ensures var e := Restarted(clock);
            Engine.Next(CAPACITY, clock, rclock, OneTable(clock), Restart(2), e) && Reopened(e.store, clock) &&
            Engine.Consistent(e) && Bucketed(e.run.sys.buckets, e.tables) && e.tables == [TableOfA(clock)] &&
            Numbered(e) && e.round == None && e.run.marks == map[]
  {
    hide OneTable, R.Exec, Bucketed, Puts, C.Valid, B.TablesOf;
    OneTableIs(clock, rclock);
    Recovers(clock);
    var e, e' := OneTable(clock), Restarted(clock);
    var s := R.Exec(e.store, CAPACITY, clock, R.OpCrash(2)).value;
    assert e'.store == s && C.Disks([TableOfA(clock)]) == [TableOfA(clock).disk];
    assert DirsOf(C.Tables(e'.run)) == {0} by { OnlyDir(C.Tables(e'.run), TableOfA(clock)); }
    assert s.(tables := C.Disks(e'.tables)) == s;
    SameReadBack(e.run.sys);
  }

  lemma SameReadBack(s: C.Sys)
    requires C.Valid(s)
    ensures ReadBack(s, s)
  {
    hide C.Valid, B.TablesOf;
    forall i | 0 <= i < |s.buckets|
      ensures HasBucket(s, s.buckets[i])
    {
    }
  }

  lemma OnlyDir(ts: multiset<B.Sst>, t: B.Sst)
    requires ts == multiset([t])
    ensures DirsOf(ts) == {t.dir}
  {
    assert t in ts;
  }

  // ---------------------------------------------------------------------
  // A deletion and two puts

  function KeyAt(n: nat): (k: Key) { if n == 1 then S.A else S.B }

  function ValueAt(n: nat): (v: Value) { if n == 1 then MARKER else [1] }

  function Later(n: nat, clock: nat -> nat): (s: Store.State)
  {
    if n == 0 then Restarted(clock).store else Put(Later(n - 1, clock), CAPACITY, clock, KeyAt(n), ValueAt(n))
  }

  /** The memtables sealed since hold one put each, and so does the active one. */
  ghost predicate AfterLater(s: Store.State, clock: nat -> nat, n: nat)
  {
    |s.sealed| == n && s.gc == [] && s.hole == 0 && s.tick == 5 + 2 * n && s.active.size == 14 &&
    s.link == (if n == 0 then ToActive else ToSealed(0)) && s.tables == [TableOfA(clock).disk] &&
    FourRecords(clock) <= s.log && Size(s.log) == 88 + 19 * n &&
    |s.active.entries| == 1 && s.active.entries[0].key == KeyAt(n) && (s.active.entries[0].tomb <==> n == 1) &&
    forall i | 0 <= i < n ::
      if i == 1 then Thin(s.sealed[i], S.A) && Live(Find(s.sealed[i], S.A)) == false && Find(s.sealed[i], S.A).Some?
      else Slim(s.sealed[i], S.B)
  }

  lemma {:induction false} LaterIs(n: nat, clock: nat -> nat)
    requires n <= 3 && Ticking(clock) && clock(20) <= U64_LIMIT
    ensures AfterLater(Later(n, clock), clock, n)
  {
    hide Put, InsertSorted, Find, Sorted, Size, Restarted, TableOfA, FourRecords, Thin, Engine.Consistent,
         Bucketed, Engine.Next;
    if n == 0 {
      RestartedIs(clock, clock);
      FourOffsets(clock);
    } else {
      LaterIs(n - 1, clock);
      var s := Later(n - 1, clock);
      SealedPut(s, clock, KeyAt(n), ValueAt(n));
      SizeAppend(s.log, Record(KeyAt(n), ValueAt(n), clock(s.tick), ValueAt(n) == MARKER));
      var x := s.active.entries[0];
      assert s.active.entries == [x];
      ThinSealed(x, Entry(HEAD_KEY, s.active.recent, clock(s.tick + 1), false));
      LaterSealed(s, Later(n, clock), n - 1);
    }
  }

  lemma LaterSealed(s: Store.State, s': Store.State, n: nat)
    requires |s.sealed| == n && |s'.sealed| == n + 1 && forall i | 0 <= i < n :: s'.sealed[i] == s.sealed[i]
    ensures s'.sealed[..n] == s.sealed
  {
  }

  /** The engine after the restart and `n` of the puts. */
  function Written(n: nat, clock: nat -> nat): (e: Machine) { Restarted(clock).(store := Later(n, clock)) }

  lemma WrittenNext(n: nat, clock: nat -> nat, rclock: nat -> nat)
    ensures Engine.Next(CAPACITY, clock, rclock, Written(n, clock), Plain(R.OpPut(KeyAt(n + 1), ValueAt(n + 1))),
                        Written(n + 1, clock))
  {
    hide Put, OneTable, R.Exec;
    RestartedRanges(clock);
    NothingRegistered();
    R.PutStep(Later(n, clock), CAPACITY, clock, KeyAt(n + 1), ValueAt(n + 1));
  }

  lemma RestartedRanges(clock: nat -> nat)
    ensures Restarted(clock).ranges == Ranges({0}, {}, [], [])
  {
  }

  lemma NothingRegistered()
    ensures Registered(Ranges({0}, {}, [], [])) == Ranges({0}, {}, [], [])
  {
    var r := Registered(Ranges({0}, {}, [], []));
    assert r.unready == {0} && r.back == [];
  }

  // ---------------------------------------------------------------------
  // Three more flushes and a lookup

  function Refilled(j: nat, clock: nat -> nat): (e: Machine)
    requires j <= 3
  {
    if j == 0 then Written(3, clock) else
    var e := Refilled(j - 1, clock);
    if j > |e.store.sealed| then e else Flushed(e, j - 1)
  }

  /** The first `j` memtables have become tables, after that of `A`. */
  ghost predicate Grown(e: Machine, s: Store.State, clock: nat -> nat, j: nat)
    requires j <= 3
  {
    |s.sealed| == 3 && |e.store.sealed| == 3 && |e.tables| == j + 1 && e.tables[0] == TableOfA(clock) && Numbered(e) &&
    e.round == None && e.run.marks == map[] && e.ranges == Ranges({0}, {}, [], []) && Held(e.store) == [] &&
    e.store == s.(sealed := e.store.sealed, tables := C.Disks(e.tables), link := e.store.link) &&
    (forall i | 0 <= i < 3 :: e.store.sealed[i] == if i < j then [] else s.sealed[i]) &&
    (forall i | 0 <= i < j :: e.tables[i + 1].disk == SsTable.StoredAll(s.sealed[i]))
  }

  lemma {:induction false} RefilledIs(j: nat, clock: nat -> nat, rclock: nat -> nat)
    requires j <= 3 && Ticking(clock) && clock(20) <= U64_LIMIT
    ensures var e := Refilled(j, clock);
            Grown(e, Later(3, clock), clock, j) && Engine.Consistent(e) && Bucketed(e.run.sys.buckets, e.tables)
    ensures j > 0 ==> Engine.Next(CAPACITY, clock, rclock, Refilled(j - 1, clock), FlushTable(j - 1, TABLE_SIZE),
                                  Refilled(j, clock))
  {
    hide Later, Restarted, SsTable.StoredAll, SsTable.Fits, Thin, Engine.Consistent, Bucketed, B.Insert, Engine.Next,
         Flush, TableOfA, Find, FourRecords, Size, Flushed;
    var s := Later(3, clock);
    LaterIs(3, clock);
    if j == 0 {
      WrittenIs(clock);
    } else {
      RefilledIs(j - 1, clock, rclock);
      var e := Refilled(j - 1, clock);
      FlushGrows(e, j - 1, if j == 2 then S.A else S.B, clock, rclock);
      GrownMore(e, s, clock, j);
    }
  }

  lemma WrittenIs(clock: nat -> nat)
    requires Ticking(clock) && clock(20) <= U64_LIMIT && AfterLater(Later(3, clock), clock, 3)
    ensures var e := Written(3, clock);
            Grown(e, Later(3, clock), clock, 0) && Engine.Consistent(e) && Bucketed(e.run.sys.buckets, e.tables)
  {
    hide Later, Restarted, SsTable.StoredAll, Bucketed, Engine.Next, TableOfA, C.Valid, C.Tables;
    RestartedIs(clock, clock);
    RestartedRanges(clock);
    var e := Written(3, clock);
    assert C.Disks(e.tables) == [TableOfA(clock).disk];
  }

  lemma GrownMore(e: Machine, s: Store.State, clock: nat -> nat, j: nat)
    requires 1 <= j <= 3 && Grown(e, s, clock, j - 1) && e.store.sealed[j - 1] != [] &&
             SsTable.Fits(e.store.sealed[j - 1])
    ensures Grown(Flushed(e, j - 1), s, clock, j)
  {
    hide SsTable.StoredAll, SsTable.Fits, TableOfA, B.Insert;
    var t := C.Fresh(e.run.sys, SsTable.StoredAll(e.store.sealed[j - 1]));
    assert C.Disks(e.tables + [t]) == C.Disks(e.tables) + [t.disk];
  }

  /** A lookup of `A` rebuilds the filter of its table. */
  function LookedUp(clock: nat -> nat): (e: Machine)
  {
    Refilled(3, clock).(ranges := Ranges({0}, {0}, [], []))
  }

  lemma LookedUpIs(clock: nat -> nat, rclock: nat -> nat)
    requires Ticking(clock) && clock(20) <= U64_LIMIT
    ensures var e := LookedUp(clock);
            Engine.Next(CAPACITY, clock, rclock, Refilled(3, clock), Engine.Act.Rebuild({0}), e) && Ready(e) &&
            e.run.marks == map[] && StaySearched(multiset(e.tables), e.ranges.restored, [TableOfA(clock)])
  {
    hide Refilled, Later, SsTable.StoredAll, Bucketed, TableOfA, StaySearched, Engine.Next, Held;
    RefilledIs(3, clock, rclock);
    var e := Refilled(3, clock);
    FirstStays(e.tables, TableOfA(clock));
    LookupStep(e, clock, rclock);
  }

  lemma LookupStep(e: Machine, clock: nat -> nat, rclock: nat -> nat)
    requires Engine.Consistent(e) && e.ranges == Ranges({0}, {}, [], []) && e.tables != [] && e.tables[0].dir == 0
    ensures var e' := e.(ranges := Ranges({0}, {0}, [], []));
            Engine.Next(CAPACITY, clock, rclock, e, Engine.Act.Rebuild({0}), e') && Engine.Consistent(e')
  {
    hide C.Valid, C.Tables;
    assert e.tables[0] in multiset(e.tables);
    assert e.tables[0] in C.Tables(e.run);
    assert 0 in DirsOf(C.Tables(e.run));
  }

  lemma FirstStays(ts: seq<B.Sst>, t: B.Sst)
    requires ts != [] && ts[0] == t && t.dir == 0 && forall i | 0 <= i < |ts| :: ts[i].dir == i
    ensures StaySearched(multiset(ts), {0}, [t])
  {
    forall u | u in multiset(ts)
      ensures u in multiset([t]) <==> u.dir in {0}
    {
      var i :| 0 <= i < |ts| && ts[i] == u;
    }
    assert t in multiset(ts);
  }

  // ---------------------------------------------------------------------
  // The round

  /** The merge reads the deletion in the middle, and drops it. */
  lemma MarkerDropped(cfg: Config, nows: seq<nat>, x: Entry)
    requires |nows| == 3 && x.tomb
    ensures FoldKey(cfg, nows, None, [None, Some(x), None], None).0 == None
  {
    var ys := [None, Some(x), None];
    assert ys[..2] == [None, Some(x)] && ys[..2][..1] == ys[..1] == [None] && ys[..1][..0] == [];
    assert nows[..2][..1] == nows[..1];
    assert FoldKey(cfg, nows[..1], None, [None], None) == (None, None);
    assert FoldKey(cfg, nows[..2], None, [None, Some(x)], None).1 == Some(x.time);
  }

  lemma MergedOut(cfg: Config, clock: nat -> nat, rclock: nat -> nat)
    requires Ticking(clock) && clock(20) <= U64_LIMIT && NeverExpires(cfg, rclock)
    requires C.Extracted(C.Removals(LookedUp(clock).run))
    ensures var outs := C.Folded(cfg, rclock, LookedUp(clock).run).outs;
            |outs| == 1 && Find(outs[0], S.A) == None && outs[0] != []
  {
    hide Refilled, Later, SsTable.StoredAll, Bucketed, TableOfA, Engine.Consistent, Engine.Next, C.Removals,
         C.Extracted, C.MergeBuckets, FoldKey, Thin, Find, FourRecords, Size, Sorted;
    var e, s := LookedUp(clock), Later(3, clock);
    LaterIs(3, clock);
    RefilledIs(3, clock, rclock);
    LookedUpIs(clock, rclock);
    var ts := e.tables[1..];
    forall i | 0 <= i < 3
      ensures C.Disks(ts)[i] == SsTable.StoredAll(s.sealed[i])
    {
    }
    MemtableFinds(s, clock);
    var xs, ys := Finds(C.Disks(ts), S.A), Finds(C.Disks(ts), S.B);
    var nows := C.Readings(rclock, e.run.tick, 3);
    MergeOfKey(cfg, rclock, e, S.A);
    MergeOfKey(cfg, rclock, e, S.B);
    assert xs == [None, xs[1], None];
    MarkerDropped(cfg, nows, xs[1].value);
    UndeletedComesOut(cfg, nows, None, ys, 0);
    FindNone(S.B);
  }

  lemma MemtableFinds(s: Store.State, clock: nat -> nat)
    requires AfterLater(s, clock, 3)
    ensures forall i | 0 <= i < 3 ::
              var x, y := Find(SsTable.StoredAll(s.sealed[i]), S.A), Find(SsTable.StoredAll(s.sealed[i]), S.B);
              if i == 1 then x.Some? && x.value.tomb && y == None else x == None && Live(y)
  {
    hide SsTable.StoredAll, Find, Sorted;
    forall i | 0 <= i < 3
      ensures var x, y := Find(SsTable.StoredAll(s.sealed[i]), S.A), Find(SsTable.StoredAll(s.sealed[i]), S.B);
              if i == 1 then x.Some? && x.value.tomb && y == None else x == None && Live(y)
    {
      StoredFinds(s.sealed[i], S.A);
      StoredFinds(s.sealed[i], S.B);
      if i == 1 {
        ThinHoldsOnly(s.sealed[i], S.A, S.B);
      } else {
        SlimFinds(s.sealed[i], S.B);
        ThinHoldsOnly(s.sealed[i], S.B, S.A);
      }
    }
  }

  // ---------------------------------------------------------------------
  // The run

  function ActAt(cfg: Config, i: nat): (act: Act)
  {
    if i < 2 then Plain(R.OpPut(KeyOf(i + 1), [1]))
    else if i == 2 then FlushTable(1, TABLE_SIZE)
    else if i == 3 then Restart(2)
    else if i < 7 then Plain(R.OpPut(KeyAt(i - 3), ValueAt(i - 3)))
    else if i < 10 then FlushTable(i - 7, TABLE_SIZE)
    else if i == 10 then Engine.Act.Rebuild({0})
    else if i == 11 then BeginRound(cfg)
    else if i == 12 then InsertMerged(TABLE_SIZE)
    else FinishRound
  }

  /** Two puts, a flush, a restart, a put of the marker and two more puts, three flushes, a lookup, a round. */
  function Acts(cfg: Config): (acts: seq<Act>)
    ensures |acts| == 14 && forall i | 0 <= i < 14 :: acts[i] == ActAt(cfg, i)
  {
    seq(14, i requires 0 <= i < 14 => ActAt(cfg, i))
  }

  function StateAt(clock: nat -> nat, i: nat): (e: Machine)
    requires i < 12
  {
    if i <= 2 then Opened(Puts(i, clock))
    else if i == 3 then OneTable(clock)
    else if i < 8 then Written(i - 4, clock)
    else if i < 11 then Refilled(i - 7, clock)
    else LookedUp(clock)
  }

  function Beginning(clock: nat -> nat): (states: seq<Machine>)
    ensures |states| == 12 && forall i | 0 <= i < 12 :: states[i] == StateAt(clock, i)
  {
    seq(12, i requires 0 <= i < 12 => StateAt(clock, i))
  }

  lemma StepOf(cfg: Config, clock: nat -> nat, rclock: nat -> nat, i: nat)
    requires i < 11 && Ticking(clock) && clock(20) <= U64_LIMIT
    ensures Engine.Next(CAPACITY, clock, rclock, StateAt(clock, i), ActAt(cfg, i), StateAt(clock, i + 1))
  {
    hide Engine.Next, Puts, OneTable, Restarted, Later, LookedUp, Grown, Bucketed, Engine.Consistent, Ready, Reopened,
         StaySearched, Flushed;
    if i < 2 {
      PutNext(i, clock, rclock);
    } else if i == 2 {
      OneTableIs(clock, rclock);
    } else if i == 3 {
      RestartedIs(clock, rclock);
      assert Written(0, clock) == Restarted(clock) by { FirstWritten(clock); }
    } else if i < 7 {
      WrittenNext(i - 4, clock, rclock);
    } else if i < 10 {
      RefilledIs(i - 6, clock, rclock);
      assert Refilled(0, clock) == Written(3, clock) by { FirstRefilled(clock); }
    } else {
      LookedUpIs(clock, rclock);
    }
  }

  lemma FirstWritten(clock: nat -> nat)
    ensures Written(0, clock) == Restarted(clock)
  {
    hide Restarted;
  }

  lemma FirstRefilled(clock: nat -> nat)
    ensures Refilled(0, clock) == Written(3, clock)
  {
    hide Written;
  }

  lemma StateSmall(clock: nat -> nat, i: nat)
    requires i < 12 && Ticking(clock) && clock(20) <= U64_LIMIT
    ensures var e := StateAt(clock, i); Small(e.store, clock(e.store.tick))
  {
    hide Puts, OneTable, Restarted, Later, Refilled, Bucketed, Engine.Consistent, Engine.Next, Size, TableOfA, Thin,
         Find, FourRecords, Numbered;
    FirstPutsInv(clock);
    if i == 3 {
      OneTableIs(clock, clock);
      FirstPuts(clock);
      FourOffsets(clock);
    } else if 4 <= i < 8 {
      LaterIs(i - 4, clock);
    } else if i >= 8 {
      LaterIs(3, clock);
      RefilledIs(if i == 11 then 3 else i - 7, clock, clock);
    }
  }

  lemma {:induction false} MapWithout(cfg: Config, n: nat)
    requires 5 <= n <= 14
    ensures R.Lookup(ApplyAll(Acts(cfg)[..n]), S.A) == None
  {
    var acts := Acts(cfg);
    assert acts[..n][..n - 1] == acts[..n - 1] && acts[..n][n - 1] == acts[n - 1] == ActAt(cfg, n - 1);
    if n > 5 {
      MapWithout(cfg, n - 1);
    }
  }

  /** The states of the round, and what the last one searches. */
  lemma LastSteps(cfg: Config, clock: nat -> nat, rclock: nat -> nat) returns (es: seq<Machine>, out: seq<Entry>)
    requires Ticking(clock) && clock(20) <= U64_LIMIT && NeverExpires(cfg, rclock)
    ensures |es| == 3 && Find(out, S.A) == None && es[2].ranges.kept == [TableOfA(clock)]
    ensures Engine.Next(CAPACITY, clock, rclock, LookedUp(clock), BeginRound(cfg), es[0]) &&
            Engine.Next(CAPACITY, clock, rclock, es[0], InsertMerged(TABLE_SIZE), es[1]) &&
            Engine.Next(CAPACITY, clock, rclock, es[1], FinishRound, es[2])
    ensures var s := LookedUp(clock).store;
            es[2].store == s.(tables := [out] + C.Disks([TableOfA(clock)])) &&
            forall i | 0 <= i < 3 :: es[i].store.log == s.log && es[i].store.tick == s.tick
  {
    hide *;
    var e, kept := LookedUp(clock), [TableOfA(clock)];
    LookedUpIs(clock, rclock);
    ReadyExtracts(e);
    MergedOut(cfg, clock, rclock);
    out := C.Folded(cfg, rclock, e.run).outs[0];
    assert C.Folded(cfg, rclock, e.run).outs == [out];
    EndingSteps(cfg, clock, rclock, e, out, kept);
    EndingStores(e, cfg, rclock, out, kept);
    EndingKept(e, cfg, rclock, out, kept);
    es := Ending(e, cfg, rclock, out, kept);
  }

  /** The run: `A` is deleted, nothing fails, no collection happens, and after the round a read finds `A` as it
      was before its deletion. */
  lemma DeletedReturns(cfg: Config, clock: nat -> nat, rclock: nat -> nat) returns (states: seq<Machine>)
    requires Ticking(clock) && clock(20) <= U64_LIMIT && NeverExpires(cfg, rclock)
    ensures Run(states, Acts(cfg), CAPACITY, clock, rclock)
    ensures R.Lookup(ApplyAll(Acts(cfg)), S.A) == None && Get(states[14].store, S.A) == Ok(Some([1]))
    ensures states[14].ranges.kept == [TableOfA(clock)]
  {
    hide StateAt, Engine.Next, Get, ApplyAll, Find, ActAt, LookedUp, Engine.Consistent, TableOfA, RoundOk, Inv, Small;
    var es, out := LastSteps(cfg, clock, rclock);
    states := Beginning(clock) + es;
    AllSteps(states, cfg, clock, rclock, LookedUp(clock), es);
    MapWithout(cfg, 14);
    assert Acts(cfg)[..14] == Acts(cfg);
    Engine.RunConsistent(states, Acts(cfg), CAPACITY, clock, rclock, 14);
    assert states[14] == es[2];
    FoundAgain(clock, es[2].store, out);
  }

  lemma ReadyExtracts(e: Machine)
    requires Ready(e)
    ensures C.Extracted(C.Removals(e.run))
  {
    hide Bucketed, Engine.Consistent, C.Removals;
    Extraction(e);
  }

  lemma EndingKept(e: Machine, cfg: Config, rclock: nat -> nat, out: seq<Entry>, kept: seq<B.Sst>)
    requires Ready(e) && C.Extracted(Loaded(e))
    ensures Ending(e, cfg, rclock, out, kept)[2].ranges.kept == kept
  {
    hide C.MergeBuckets, C.Removals, C.Extracted, C.AddTable, C.CleanUp, Loaded, Bucketed, Engine.Consistent, B.Removed;
  }

  lemma AllSteps(states: seq<Machine>, cfg: Config, clock: nat -> nat, rclock: nat -> nat, e: Machine, es: seq<Machine>)
    requires Ticking(clock) && clock(20) <= U64_LIMIT && |es| == 3 && e == LookedUp(clock)
    requires states == Beginning(clock) + es
    requires Engine.Next(CAPACITY, clock, rclock, e, BeginRound(cfg), es[0]) &&
             Engine.Next(CAPACITY, clock, rclock, es[0], InsertMerged(TABLE_SIZE), es[1]) &&
             Engine.Next(CAPACITY, clock, rclock, es[1], FinishRound, es[2])
    requires forall i | 0 <= i < 3 :: es[i].store.log == e.store.log && es[i].store.tick == e.store.tick
    ensures Run(states, Acts(cfg), CAPACITY, clock, rclock)
  {
    hide Engine.Next, LookedUp, Puts, OneTable, Written, Refilled, Size;
    forall i | 0 <= i < 14
      ensures Engine.Next(CAPACITY, clock, rclock, states[i], Acts(cfg)[i], states[i + 1])
    {
      if i < 11 {
        StepOf(cfg, clock, rclock, i);
      }
    }
    forall i | 0 <= i < 15
      ensures Small(states[i].store, clock(states[i].store.tick))
    {
      StateSmall(clock, if i < 12 then i else 11);
    }
    FirstIsNew(clock);
    assert states[0] == Opened(Puts(0, clock));
  }

  lemma FirstIsNew(clock: nat -> nat)
    ensures Opened(Puts(0, clock)) == New(clock)
  {
  }

  /** The search gets to the kept table, and the log still holds the value. */
  lemma FoundAgain(clock: nat -> nat, s: Store.State, out: seq<Entry>)
    requires Ticking(clock) && clock(20) <= U64_LIMIT && Inv(s, clock) && Find(out, S.A) == None
    requires s == LookedUp(clock).store.(tables := [out] + C.Disks([TableOfA(clock)]))
    ensures Get(s, S.A) == Ok(Some([1]))
  {
    hide Refilled, Later, SsTable.StoredAll, Bucketed, Engine.Consistent, Engine.Next, Find, FourRecords, Size, Sorted,
         Inv, Newest, OffsetOf, File, GetValue, Thin, Numbered, TableOfA, Held;
    var x := Entry(S.A, 50, clock(1), false);
    RefilledIs(3, clock, clock);
    LaterIs(3, clock);
    FourOffsets(clock);
    StoredA(clock);
    FindNone(S.A);
    NoneNewest(s.sealed, S.A);
    C.FindOne(s.active.entries[0], S.A);
    assert s.active.entries == [s.active.entries[0]];
    assert s.tables == [out, TableOfA(clock).disk];
    LastFound(out, TableOfA(clock).disk, x);
    assert Tiered(s, S.A) == Some(x);
    KeptOffset(FourRecords(clock), s.log, 2);
    FileHolds(s, clock);
    S.WellFormedLog(s, clock);
    HoldsRead(File(s), s.log, s.hole, 2);
  }

  lemma KeptOffset(log: seq<Record>, longer: seq<Record>, i: nat)
    requires log <= longer && i < |log|
    ensures longer[i] == log[i] && OffsetOf(longer, i) == OffsetOf(log, i)
  {
    assert longer[..i] == log[..i];
  }

  lemma StoredA(clock: nat -> nat)
    requires Ticking(clock) && clock(20) <= U64_LIMIT
    ensures Find(TableOfA(clock).disk, S.A) == Some(Entry(S.A, 50, clock(1), false))
  {
    hide Puts, SsTable.StoredAll, Find, Thin, FourRecords;
    FirstPuts(clock);
    StoredFinds(Puts(2, clock).sealed[1], S.A);
  }

  lemma LastFound(a: seq<Entry>, b: seq<Entry>, x: Entry)
    requires Find(a, x.key) == None && Find(b, x.key) == Some(x) && x.time > 0
    ensures Newest([a, b], x.key) == Some(x)
  {
    hide Find;
    assert [a, b][..1] == [a] && [a][..0] == [];
    assert Newest([a], x.key) == None;
  }
}
