/** Every write, hand-over, flush and rearrangement of the tables keeps the invariant of every key. */
module StoreSteps {
  import opened Wrappers
  import opened Bytes
  import opened Entries
  import opened LogCodec
  import opened Merge
  import opened Memtables
  import opened Store
  import SsTable

  // ---------------------------------------------------------------------
  // Versions of a changed list of tables

  lemma VersionPush(ts: seq<seq<Entry>>, t: seq<Entry>, e: Entry)
    ensures Version(ts + [t], e) <==> Version(ts, e) || Find(t, e.key) == Some(e)
  {
    hide Find;
    var more := ts + [t];
    if i :| 0 <= i < |ts| && Find(ts[i], e.key) == Some(e) {
      assert more[i] == ts[i];
    }
    assert more[|ts|] == t;
    if Version(more, e) {
      var i :| 0 <= i < |more| && Find(more[i], e.key) == Some(e);
      if i < |ts| {
        assert ts[i] == more[i];
      }
    }
  }

  lemma VersionClear(ts: seq<seq<Entry>>, i: nat, e: Entry)
    requires i < |ts|
    ensures Version(ts[i := []], e) ==> Version(ts, e)
    ensures Version(ts, e) ==> Version(ts[i := []], e) || Find(ts[i], e.key) == Some(e)
  {
    hide Find;
    var less := ts[i := []];
    FindNone(e.key);
    if Version(less, e) {
      var j :| 0 <= j < |less| && Find(less[j], e.key) == Some(e);
      assert j != i && ts[j] == less[j];
    }
    if Version(ts, e) {
      var j :| 0 <= j < |ts| && Find(ts[j], e.key) == Some(e);
      if j != i {
        assert less[j] == ts[j];
      }
    }
  }

  lemma VersionDrop(ts: seq<seq<Entry>>, i: nat, e: Entry)
    requires i < |ts| && ts[i] == []
    ensures Version(ts[..i] + ts[i + 1..], e) <==> Version(ts, e)
  {
    hide Find;
    var less := ts[..i] + ts[i + 1..];
    FindNone(e.key);
    if Version(less, e) {
      var j :| 0 <= j < |less| && Find(less[j], e.key) == Some(e);
      assert less[j] == if j < i then ts[j] else ts[j + 1];
    }
    if Version(ts, e) {
      var j :| 0 <= j < |ts| && Find(ts[j], e.key) == Some(e);
      assert ts[j] == less[if j < i then j else j - 1];
    }
  }

  // ---------------------------------------------------------------------
  // A common argument: what a read finds is determined by offsets

  /** The entry found by a search of tables whose versions all stand for records, when some version has
      offset `top` and none a larger one. */
  lemma NewestAtTop(log: seq<Record>, now: nat, ts: seq<seq<Entry>>, k: Key, x: Entry)
    requires AllOk(log, now, ts, k) && x.key == k && Version(ts, x) && AtMost(ts, k, x.offset)
    ensures Newest(ts, k).Some? && Newest(ts, k).value.offset == x.offset
  {
    hide Find, Newest, VersionOk;
    NewestIsLast(log, now, ts, k);
    NewestKey(ts, k);
  }

  /** Entries for the same record are right about a key together. */
  lemma SameAnswer(log: seq<Record>, now: nat, x: Option<Entry>, y: Option<Entry>, k: Key)
    requires Answers(log, x, k) && EntryOk(log, now, x) && EntryOk(log, now, y)
    requires x.Some? <==> y.Some?
    requires x.Some? ==> x.value.key == k && y.value.key == k && x.value.offset == y.value.offset
    ensures Answers(log, y, k)
  {
    hide VersionOk, OffsetOf;
    if x.Some? {
      VersionOrder(log, x.value, y.value);
    }
  }

  lemma AnswersAppend(log: seq<Record>, more: seq<Record>, x: Option<Entry>, k: Key)
    requires Answers(log, x, k) && Last(log + more, k) == Last(log, k)
    ensures Answers(log + more, x, k)
  {
    hide OffsetOf;
    var l := Last(log, k);
    if l.Some? {
      OffsetStable(log, more, l.value);
      assert (log + more)[l.value] == log[l.value];
    }
  }

  /** The tiers below the active memtable, and nothing else, decide what they answer. */
  lemma BareSame(s: State, s': State, k: Key)
    requires s'.log == s.log && s'.sealed == s.sealed && s'.tables == s.tables && Held(s') == Held(s)
    ensures Layered(Bare(s'), k) <==> Layered(Bare(s), k)
    ensures UpToDate(Bare(s'), k) <==> UpToDate(Bare(s), k)
  {
    hide Find, Newest, OffsetOf;
    assert Select(Bare(s'), k) == Select(Bare(s), k);
  }

  lemma CoveredSame(s: State, s': State, k: Key)
    requires Covered(s, k)
    requires s'.log == s.log && s'.sealed == s.sealed && s'.tables == s.tables && Held(s') == Held(s)
    requires s'.saved == s.saved
    ensures Covered(s', k)
  {
    hide Layered, UpToDate, OffsetOf;
    BareSame(s, s', k);
    forall n | 0 <= n < |s'.saved|
      ensures HeadCovered(s', k, s'.saved[n].0)
    {
      var h: nat :| h < |s.log| && OffsetOf(s.log, h) == s.saved[n].0 && CoveredAt(s, k, h);
      assert CoveredAt(s', k, h);
    }
  }

  /** The tiers below the active memtable hold the same versions of the key. */
  ghost predicate SameBelow(s: State, s': State, k: Key)
  {
    |s'.sealed| == |s.sealed| && (forall i | 0 <= i < |s.sealed| :: Find(s'.sealed[i], k) == Find(s.sealed[i], k)) &&
    s'.tables == s.tables && Find(Held(s'), k) == Find(Held(s), k)
  }

  lemma {:induction false} NewestSame(ts: seq<seq<Entry>>, ts': seq<seq<Entry>>, k: Key)
    requires |ts'| == |ts| && forall i | 0 <= i < |ts| :: Find(ts'[i], k) == Find(ts[i], k)
    ensures Newest(ts', k) == Newest(ts, k)
    ensures forall e: Entry | e.key == k :: Version(ts', e) <==> Version(ts, e)
  {
    hide Find;
    if ts != [] {
      NewestSame(ts[..|ts| - 1], ts'[..|ts| - 1], k);
    }
  }

  /** The key stays covered when records are appended behind it. */
  lemma CoveredAppend(s: State, s': State, more: seq<Record>, k: Key)
    requires Covered(s, k) && s'.log == s.log + more && s'.saved == s.saved
    requires (Last(s'.log, k) == Last(s.log, k) && SameBelow(s, s', k)) ||
             (Last(s'.log, k).Some? && Last(s'.log, k).value >= |s.log|)
    ensures Covered(s', k)
  {
    hide Layered, Tiered, OffsetOf, SameBelow;
    forall n | 0 <= n < |s'.saved|
      ensures HeadCovered(s', k, s'.saved[n].0)
    {
      var h: nat :| h < |s.log| && OffsetOf(s.log, h) == s.saved[n].0 && CoveredAt(s, k, h);
      OffsetStable(s.log, more, h);
      if Last(s'.log, k).Some? && Last(s'.log, k).value <= h {
        SameTiersBelow(s, s', k);
        AnswersAppend(s.log, more, Select(Bare(s), k), k);
      }
      assert CoveredAt(s', k, h);
    }
  }

  lemma SameTiersBelow(s: State, s': State, k: Key)
    requires SameBelow(s, s', k)
    ensures Select(Bare(s'), k) == Select(Bare(s), k)
    ensures Layered(Bare(s'), k) <==> Layered(Bare(s), k)
  {
    hide Find, Newest;
    NewestSame(s.sealed, s'.sealed, k);
  }

  // ---------------------------------------------------------------------
  // Sealing

  function SealAt(s: State, time: nat): (s': State)
  {
    var head := s.active.recent;
    var full := Inserted(s.active, Entry(HEAD_KEY, head, time, false));
    s.(saved := s.saved + [(head, s.tail)], sealed := s.sealed + [full.entries], active := EmptyTable,
       link := LinkSealed(s))
  }

  lemma SealKeepsInv(s: State, clock: nat -> nat, time: nat)
    requires Inv(s, clock)
    ensures Inv(SealAt(s, time), clock)
  {
    hide OffsetOf, Sorted;
    InsertKeepsSorted(s.active.entries, Entry(HEAD_KEY, s.active.recent, time, false));
    assert Sorted([]) by { EmptySorted(); }
    var h: nat :| h < |s.log| && OffsetOf(s.log, h) == s.active.recent;
    assert OffsetOf(s.log, 0) == 0 by { OffsetZero(s.log); }
    assert RecordAt(s.log, 0);
  }

  lemma EmptySorted()
    ensures Sorted([])
  {
  }

  lemma OffsetZero(log: seq<Record>)
    ensures OffsetOf(log, 0) == 0
  {
    assert log[..0] == [];
  }

  /** Sealing moves the active versions to the newest sealed memtable; the head it records covers
      everything the key had up to it. */
  lemma SealKeepsKey(s: State, clock: nat -> nat, now: nat, time: nat, k: Key)
    requires Inv(s, clock) && KeyInv(s, now, k) && UserKey(k) && s.gc == []
    ensures KeyInv(SealAt(s, time), now, k)
  {
    hide Sorted, OffsetOf, VersionOk, Newest, Find, InsertSorted, CoveredAt;
    var s' := SealAt(s, time);
    var e := Entry(HEAD_KEY, s.active.recent, time, false);
    var full := InsertSorted(s.active.entries, e);
    InsertFinds(s.active.entries, e, k);
    FindNone(k);
    FindMember(s.active.entries, k);
    forall x: Entry | x.key == k
      ensures Version(s'.sealed, x) <==> Version(s.sealed, x) || Find(s.active.entries, k) == Some(x)
    {
      VersionPush(s.sealed, full, x);
    }
    NewestIsLast(s.log, now, s.sealed, k);
    NewestKey(s.sealed, k);
    var a := Find(s.active.entries, k);
    if a.Some? {
      NewestAtTop(s.log, now, s'.sealed, k, a.value);
    } else {
      NewestStep(s.sealed, full, k);
    }
    SelectOk(s, now, k);
    SelectOk(s', now, k);
    SameAnswer(s.log, now, Select(s, k), Select(s', k), k);
    SealCovers(s, s', k);
  }

  lemma SealCovers(s: State, s': State, k: Key)
    requires Covered(s, k) && RecordAt(s.log, s.active.recent) && Layered(s', k) && UpToDate(s', k)
    requires s'.log == s.log && s'.gc == [] && s'.active == EmptyTable
    requires s'.saved == s.saved + [(s.active.recent, s.tail)]
    ensures Covered(s', k)
  {
    hide Layered, UpToDate, OffsetOf;
    assert Bare(s') == s';
    forall n | 0 <= n < |s'.saved|
      ensures HeadCovered(s', k, s'.saved[n].0)
    {
      if n < |s.saved| {
        var h: nat :| h < |s.log| && OffsetOf(s.log, h) == s.saved[n].0 && CoveredAt(s, k, h);
        assert CoveredAt(s', k, h);
      } else {
        var h: nat :| h < |s.log| && OffsetOf(s.log, h) == s.active.recent;
        assert CoveredAt(s', k, h);
      }
    }
  }

  // ---------------------------------------------------------------------
  // Appending and inserting

  function AppendAt(s: State, time: nat, k: Key, v: Value): (s': State)
  {
    var tomb := v == MARKER;
    s.(log := s.log + [Record(k, v, time, tomb)], active := Inserted(s.active, Entry(k, Size(s.log), time, tomb)))
  }

  lemma BoundaryStable(log: seq<Record>, more: seq<Record>, offset: nat)
    ensures Boundary(log, offset) ==> Boundary(log + more, offset)
    ensures RecordAt(log, offset) ==> RecordAt(log + more, offset)
  {
    hide OffsetOf;
    if h: nat :| h <= |log| && OffsetOf(log, h) == offset {
      OffsetStable(log, more, h);
    }
    if h: nat :| h < |log| && OffsetOf(log, h) == offset {
      OffsetStable(log, more, h);
    }
  }

  lemma AppendKeepsInv(s: State, clock: nat -> nat, time: nat, k: Key, v: Value)
    requires Inv(s, clock) && s.gc == [] && WellFormed(Record(k, v, time, v == MARKER))
    ensures Inv(AppendAt(s, time, k, v), clock)
  {
    hide OffsetOf, Sorted, Size;
    var s' := AppendAt(s, time, k, v);
    var r := Record(k, v, time, v == MARKER);
    InsertKeepsSorted(s.active.entries, Entry(k, Size(s.log), time, v == MARKER));
    BoundaryStable(s.log, [r], s.hole);
    BoundaryStable(s.log, [r], s.tail);
    BoundaryStable(s.log, [r], s.active.recent);
    OffsetEnd(s.log);
    OffsetStable(s.log, [r], |s.log|);
    assert RecordAt(s'.log, Size(s.log));
    forall n | 0 <= n < |s.saved|
      ensures RecordAt(s'.log, s.saved[n].0) && Boundary(s'.log, s.saved[n].1)
    {
      BoundaryStable(s.log, [r], s.saved[n].0);
      BoundaryStable(s.log, [r], s.saved[n].1);
    }
  }

  lemma EntryAppend(log: seq<Record>, now: nat, r: Record, now': nat, x: Option<Entry>)
    requires EntryOk(log, now, x) && now <= r.time < now'
    ensures EntryOk(log + [r], now', x)
  {
    if x.Some? {
      VersionAppend(log, [r], x.value);
    }
  }

  lemma AllAppend(log: seq<Record>, now: nat, r: Record, now': nat, ts: seq<seq<Entry>>, k: Key)
    requires AllOk(log, now, ts, k) && now <= r.time < now'
    ensures AllOk(log + [r], now', ts, k)
  {
    hide Version;
    forall e: Entry | e.key == k && Version(ts, e)
      ensures VersionOk(log + [r], e) && e.time < now'
    {
      VersionAppend(log, [r], e);
    }
  }

  /** A record appended at the end is backed by itself. */
  lemma FreshVersion(log: seq<Record>, r: Record)
    requires r.time > 0
    ensures VersionOk(log + [r], Entry(r.key, Size(log), r.time, r.tomb))
    ensures OffsetOf(log + [r], |log|) == Size(log)
  {
    hide Size;
    OffsetStable(log, [r], |log|);
    OffsetEnd(log);
    assert Backed(log + [r], Entry(r.key, Size(log), r.time, r.tomb), |log|);
  }

  lemma AppendKeepsKey(s: State, clock: nat -> nat, now: nat, now': nat, time: nat, k0: Key, v: Value, k: Key)
    requires Inv(s, clock) && KeyInv(s, now, k) && s.gc == [] && 0 < now <= time < now'
    ensures KeyInv(AppendAt(s, time, k0, v), now', k)
  {
    hide Sorted, OffsetOf, VersionOk, Newest, Find, InsertSorted, CoveredAt, Size, Boundary, Covered, Layered, UpToDate,
         Unpunched, AllOk, Version;
    var s' := AppendAt(s, time, k0, v);
    var r := Record(k0, v, time, v == MARKER);
    var e := Entry(k0, Size(s.log), time, v == MARKER);
    InsertFinds(s.active.entries, e, k);
    FreshVersion(s.log, r);
    LastAppend(s.log, r, k);
    FindNone(k);
    EntryAppend(s.log, now, r, now', Find(s.active.entries, k));
    AllAppend(s.log, now, r, now', s.sealed, k);
    AllAppend(s.log, now, r, now', s.tables, k);
    EntryAppend(s.log, now, r, now', Find(Held(s), k));
    CoveredAppend(s, s', [r], k);
    HoleWithin(s, clock);
    if k == k0 {
      LatestIsTop(s'.log, now', s.sealed, e);
      LatestTables(s', now', e);
      AppendedView(s, s', e);
    } else {
      OthersView(s, s', r, k);
    }
  }

  /** The key that was written is read at its new record. */
  lemma AppendedView(s: State, s': State, e: Entry)
    requires s'.gc == [] && Find(s'.active.entries, e.key) == Some(e) && s'.sealed == s.sealed && s'.tables == s.tables
    requires AtMost(s.sealed, e.key, e.offset) && TablesAtMost(s', e.key, e.offset) && s'.hole <= e.offset
    requires Last(s'.log, e.key).Some? && e.offset == OffsetOf(s'.log, Last(s'.log, e.key).value)
    requires s'.log[Last(s'.log, e.key).value].tomb == e.tomb
    ensures Layered(s', e.key) && UpToDate(s', e.key) && Unpunched(s', e.key)
  {
    hide OffsetOf, Newest, Find, Version, Last;
    FindNone(e.key);
  }

  /** Any other key is read as before. */
  lemma OthersView(s: State, s': State, r: Record, k: Key)
    requires s.gc == [] && s' == s.(log := s.log + [r], active := s'.active)
    requires Find(s'.active.entries, k) == Find(s.active.entries, k) && Last(s'.log, k) == Last(s.log, k)
    requires Layered(s, k) && UpToDate(s, k) && Unpunched(s, k)
    ensures Layered(s', k) && UpToDate(s', k) && Unpunched(s', k)
  {
    hide OffsetOf, Newest, Find, Version;
    AnswersAppend(s.log, [r], Select(s, k), k);
    if Last(s.log, k).Some? {
      OffsetStable(s.log, [r], Last(s.log, k).value);
    }
  }

  /** No version of the key has a larger offset than the last record. */
  lemma LatestIsTop(log: seq<Record>, now: nat, ts: seq<seq<Entry>>, e: Entry)
    requires AllOk(log, now, ts, e.key) && Last(log, e.key).Some? && e.offset == OffsetOf(log, Last(log, e.key).value)
    ensures AtMost(ts, e.key, e.offset)
  {
    hide VersionOk, OffsetOf, Version;
    forall x: Entry | x.key == e.key && Version(ts, x)
      ensures x.offset <= e.offset
    {
      VersionAtMostLast(log, x);
    }
  }

  lemma LatestTables(s: State, now: nat, e: Entry)
    requires Sound(s, now, e.key) && Last(s.log, e.key).Some? && e.offset == OffsetOf(s.log, Last(s.log, e.key).value)
    ensures TablesAtMost(s, e.key, e.offset)
  {
    hide VersionOk, OffsetOf, Version, Find, AtMost;
    LatestIsTop(s.log, now, s.tables, e);
    FindMember(Held(s), e.key);
    if Find(Held(s), e.key).Some? {
      VersionAtMostLast(s.log, Find(Held(s), e.key).value);
    }
  }

  lemma HoleWithin(s: State, clock: nat -> nat)
    requires Inv(s, clock)
    ensures s.hole <= Size(s.log)
  {
    hide Size;
    var h: nat :| h <= |s.log| && OffsetOf(s.log, h) == s.hole;
    OffsetMonotone(s.log, h, |s.log|);
    OffsetEnd(s.log);
  }

  // ---------------------------------------------------------------------
  // The write

  lemma WriteIs(s: State, capacity: nat, clock: nat -> nat, k: Key, v: Value)
    ensures var s' := Write(s, capacity, clock, k, v);
            if Full(s.active, capacity, HEAD_KEY_SIZE)
            then s' == AppendAt(SealAt(s, clock(s.tick + 1)), clock(s.tick), k, v).(tick := s.tick + 2)
            else s' == AppendAt(s, clock(s.tick), k, v).(tick := s.tick + 1)
  {
    hide InsertSorted, Size;
  }

  /** When a put seals: exactly when 17 more would make the memtable reach its capacity. It is then sealed with an
      entry for the head, which leads to the last record it holds, and that place is saved with the tail. So a
      memtable of several entries stays below its capacity, but for what its last key has over four bytes. */
  lemma PutSeals(s: State, capacity: nat, clock: nat -> nat, k: Key, v: Value)
    requires 1 <= |k| <= 65536 && 1 <= |v| <= 0x1_0000_0000
    ensures var a, s', e := Synced(s).active, Put(s, capacity, clock, k, v),
                            Entry(k, Size(s.log), clock(s.tick), v == [42]);
            var head := Entry([104, 101, 97, 100], a.recent, clock(s.tick + 1), false);
            if a.size + 17 >= capacity then
              s'.sealed == s.sealed + [InsertSorted(a.entries, head)] && s'.active.entries == [e] &&
              s'.saved == s.saved + [(a.recent, Synced(s).tail)] && s'.active.size == |k| + 13
            else
              s'.sealed == s.sealed && s'.active.entries == InsertSorted(a.entries, e) && s'.saved == s.saved &&
              s'.active.size == a.size + |k| + 13 < capacity + |k| - 4
    ensures Put(s, capacity, clock, k, v).log == s.log + [Record(k, v, clock(s.tick), v == [42])]
  {
    hide Size, InsertAll;
  }

  /** A write keeps the invariant of the state and of every user key, and the log tells of it. */
  lemma WriteKeeps(s: State, capacity: nat, clock: nat -> nat, k0: Key, v: Value, k: Key)
    requires Inv(s, clock) && KeyInv(s, clock(s.tick), k) && UserKey(k) && s.gc == [] && Ticking(clock)
    requires WellFormed(Record(k0, v, clock(s.tick), v == MARKER))
    ensures var s' := Write(s, capacity, clock, k0, v);
            Inv(s', clock) && KeyInv(s', clock(s'.tick), k) && s'.gc == [] &&
            s'.log == s.log + [Record(k0, v, clock(s.tick), v == MARKER)]
  {
    hide Inv, KeyInv, Size, InsertSorted, SealAt, AppendAt, Write;
    var now := clock(s.tick);
    WriteIs(s, capacity, clock, k0, v);
    if Full(s.active, capacity, HEAD_KEY_SIZE) {
      var m := SealAt(s, clock(s.tick + 1));
      SealFields(s, clock(s.tick + 1));
      SealKeepsInv(s, clock, clock(s.tick + 1));
      SealKeepsKey(s, clock, now, clock(s.tick + 1), k);
      AppendKeepsInv(m, clock, now, k0, v);
      AppendKeepsKey(m, clock, now, clock(s.tick + 2), now, k0, v, k);
      AppendFields(m, now, k0, v);
      TickFree(AppendAt(m, now, k0, v), clock, s.tick + 2, clock(s.tick + 2), k);
    } else {
      AppendKeepsInv(s, clock, now, k0, v);
      AppendKeepsKey(s, clock, now, clock(s.tick + 1), now, k0, v, k);
      AppendFields(s, now, k0, v);
      TickFree(AppendAt(s, now, k0, v), clock, s.tick + 1, clock(s.tick + 1), k);
    }
  }

  lemma SealFields(s: State, time: nat)
    ensures SealAt(s, time).log == s.log && SealAt(s, time).gc == s.gc
  {
  }

  lemma AppendFields(s: State, time: nat, k: Key, v: Value)
    ensures AppendAt(s, time, k, v).log == s.log + [Record(k, v, time, v == MARKER)]
    ensures AppendAt(s, time, k, v).gc == s.gc
  {
  }

  lemma TickFree(s: State, clock: nat -> nat, tick: nat, now: nat, k: Key)
    ensures Inv(s, clock) ==> Inv(s.(tick := tick), clock)
    ensures KeyInv(s, now, k) ==> KeyInv(s.(tick := tick), now, k)
  {
    hide OffsetOf, VersionOk, Find, Newest, Version, AtMost, Last;
    var s' := s.(tick := tick);
    assert Select(s', k) == Select(s, k);
    if KeyInv(s, now, k) {
      CoveredSame(s, s', k);
    }
  }

  // ---------------------------------------------------------------------
  // Handing over what the collector rewrote

  lemma {:induction false} InsertAllFinds(m: Memtable, es: seq<Entry>, k: Key)
    requires Sorted(m.entries) && Sorted(es)
    ensures Sorted(InsertAll(m, es).entries)
    ensures Find(InsertAll(m, es).entries, k) == if Find(es, k).Some? then Find(es, k) else Find(m.entries, k)
  {
    hide Less, InsertSorted;
    if es != [] {
      var n := |es| - 1;
      SortedTail(es, n);
      InsertAllFinds(m, es[..n], k);
      var mid := InsertAll(m, es[..n]).entries;
      InsertKeepsSorted(mid, es[n]);
      InsertFinds(mid, es[n], k);
      FindLast(es, k);
    }
  }

  lemma FindLast(es: seq<Entry>, k: Key)
    requires Sorted(es) && es != []
    ensures Find(es, k) == if es[|es| - 1].key == k then Some(es[|es| - 1]) else Find(es[..|es| - 1], k)
  {
    hide Less;
    var n := |es| - 1;
    assert es == es[..n] + [es[n]];
    FindConcat(es[..n], [es[n]], k);
    assert [es[n]][1..] == [];
    if es[n].key == k {
      SortedFind(es, es[n]);
    }
  }

  /** A memtable remembers the greatest offset that was put into it, in whatever order. */
  lemma {:induction false} RecentIsGreatest(es: seq<Entry>)
    ensures var recent := InsertAll(EmptyTable, es).recent;
            (forall e | e in es :: e.offset <= recent) && (es != [] ==> exists e | e in es :: e.offset == recent)
  {
    hide InsertSorted;
    if es != [] {
      var n := |es| - 1;
      RecentIsGreatest(es[..n]);
      assert es == es[..n] + [es[n]];
    }
  }

  lemma {:induction false} InsertAllRecent(log: seq<Record>, m: Memtable, es: seq<Entry>)
    requires RecordAt(log, m.recent) && forall g | g in es :: RecordAt(log, g.offset)
    ensures RecordAt(log, InsertAll(m, es).recent)
  {
    hide RecordAt, InsertSorted;
    if es != [] {
      InsertAllRecent(log, m, es[..|es| - 1]);
      assert es[|es| - 1] in es;
    }
  }

  lemma SyncKeepsInv(s: State, clock: nat -> nat)
    requires Inv(s, clock) && s.gc != []
    ensures Inv(Sync(s), clock)
  {
    hide OffsetOf, Sorted, InsertAll;
    InsertAllFinds(s.active, s.gc, []);
    InsertAllRecent(s.log, s.active, s.gc);
    assert Sorted([]) by { EmptySorted(); }
  }

  lemma SyncKeepsKey(s: State, clock: nat -> nat, now: nat, k: Key)
    requires Inv(s, clock) && KeyInv(s, now, k) && s.gc != []
    ensures KeyInv(Sync(s), now, k)
  {
    hide Sorted, OffsetOf, VersionOk, Newest, Find, InsertAll, Size, Boundary, RecordAt;
    var s' := Sync(s);
    InsertAllFinds(s.active, s.gc, k);
    FindNone(k);
    assert Topmost(s', k) == Topmost(s, k);
    assert Select(s', k) == Select(s, k);
    CoveredSame(s, s', k);
  }

  // ---------------------------------------------------------------------
  // Moving versions between the sealed memtables and the tables

  ghost predicate Below(s: State, k: Key, e: Entry)
  {
    e.key == k && (Version(s.sealed, e) || Version(s.tables, e))
  }

  /** The versions below the active memtable are rearranged: none is new, and the latest stays. */
  ghost predicate Shifted(s: State, s': State, k: Key)
  {
    s' == s.(sealed := s'.sealed, tables := s'.tables, link := s'.link) && Held(s') == Held(s) &&
    (forall e | Below(s', k, e) :: Below(s, k, e)) &&
    (forall e | Below(s, k, e) :: exists e' :: Below(s', k, e') && e'.offset >= e.offset)
  }

  /** Every saved head lies before the key's last record. */
  predicate Unsaved(s: State, k: Key)
  {
    forall n | 0 <= n < |s.saved| ::
      Last(s.log, k).Some? && s.saved[n].0 < OffsetOf(s.log, Last(s.log, k).value)
  }

  lemma ShiftKeepsKey(s: State, s': State, now: nat, k: Key)
    requires KeyInv(s, now, k) && Shifted(s, s', k) && Layered(s', k)
    requires Unsaved(s, k) || (Layered(Bare(s), k) ==> Layered(Bare(s'), k))
    ensures KeyInv(s', now, k)
  {
    hide OffsetOf, VersionOk, Newest, Find, Version, Layered;
    ShiftSound(s, s', now, k);
    ShiftUpToDate(s, s', now, k);
    ShiftCovers(s, s', now, k);
  }

  lemma ShiftSound(s: State, s': State, now: nat, k: Key)
    requires Sound(s, now, k) && Shifted(s, s', k)
    ensures Sound(s', now, k)
  {
    hide VersionOk, Find, Version;
    forall e: Entry | e.key == k && (Version(s'.sealed, e) || Version(s'.tables, e))
      ensures VersionOk(s.log, e) && e.time < now
    {
      assert Below(s', k, e);
      assert Below(s, k, e);
    }
  }

  /** Below the active memtable a read finds the latest version. */
  lemma SelectIsTop(s: State, now: nat, k: Key)
    requires Sound(s, now, k) && Layered(s, k) && Find(s.gc, k).None? && Find(s.active.entries, k).None?
    ensures Select(s, k).Some? ==> Below(s, k, Select(s, k).value)
    ensures forall e | Below(s, k, e) :: Select(s, k).Some? && e.offset <= Select(s, k).value.offset
  {
    hide VersionOk, Newest, Find, Version;
    NewestIsLast(s.log, now, s.sealed, k);
    NewestIsLast(s.log, now, s.tables, k);
    NewestKey(s.sealed, k);
    NewestKey(s.tables, k);
  }

  lemma ShiftUpToDate(s: State, s': State, now: nat, k: Key)
    requires Sound(s, now, k) && Sound(s', now, k) && UpToDate(s, k) && Shifted(s, s', k) && Layered(s, k) &&
             Layered(s', k)
    ensures UpToDate(s', k)
  {
    hide OffsetOf, VersionOk, Newest, Find, Version, Layered, Below, Sound, Tiered;
    if Find(s.gc, k).None? && Find(s.active.entries, k).None? {
      var x, x' := Select(s, k), Select(s', k);
      SelectIsTop(s, now, k);
      SelectIsTop(s', now, k);
      SelectOk(s, now, k);
      SelectOk(s', now, k);
      if x.Some? {
        var e' :| Below(s', k, e') && e'.offset >= x.value.offset;
      }
      SameAnswer(s.log, now, x, x', k);
    } else {
      SameAbove(s, s', k);
    }
  }

  lemma SameAbove(s: State, s': State, k: Key)
    requires s'.gc == s.gc && s'.active == s.active && (Find(s.gc, k).Some? || Find(s.active.entries, k).Some?)
    ensures Select(s', k) == Select(s, k)
  {
  }

  lemma SoundBare(s: State, now: nat, k: Key)
    requires Sound(s, now, k)
    ensures Sound(Bare(s), now, k)
  {
    FindNone(k);
  }

  lemma ShiftedBare(s: State, s': State, k: Key)
    requires Shifted(s, s', k)
    ensures Shifted(Bare(s), Bare(s'), k)
  {
    hide Version;
    forall e | Below(Bare(s'), k, e)
      ensures Below(Bare(s), k, e)
    {
      assert Below(s', k, e);
      assert Below(s, k, e);
    }
    forall e | Below(Bare(s), k, e)
      ensures exists e' :: Below(Bare(s'), k, e') && e'.offset >= e.offset
    {
      assert Below(s, k, e);
      var e' :| Below(s', k, e') && e'.offset >= e.offset;
      assert Below(Bare(s'), k, e');
    }
  }

  lemma ShiftCovers(s: State, s': State, now: nat, k: Key)
    requires Covered(s, k) && Shifted(s, s', k) && Sound(s, now, k) && Sound(s', now, k)
    requires Unsaved(s, k) || (Layered(Bare(s), k) ==> Layered(Bare(s'), k))
    ensures Covered(s', k)
  {
    hide OffsetOf, Layered, UpToDate, Sound, Below;
    forall n | 0 <= n < |s'.saved|
      ensures HeadCovered(s', k, s'.saved[n].0)
    {
      var h: nat :| h < |s.log| && OffsetOf(s.log, h) == s.saved[n].0 && CoveredAt(s, k, h);
      if Last(s.log, k).Some? && Last(s.log, k).value <= h {
        OffsetMonotone(s.log, Last(s.log, k).value, h);
        SoundBare(s, now, k);
        SoundBare(s', now, k);
        ShiftedBare(s, s', k);
        ShiftUpToDate(Bare(s), Bare(s'), now, k);
      }
      assert CoveredAt(s', k, h);
    }
  }

  // ---------------------------------------------------------------------
  // Flushing

  /** Memtable `i` does not hold a later version of the key than every other one that holds it. */
  predicate NotNewer(sealed: seq<seq<Entry>>, i: nat, k: Key)
    requires i < |sealed|
  {
    var x, m := Find(sealed[i], k), Newest(sealed[i := []], k);
    x.Some? && m.Some? ==> x.value.offset <= m.value.offset
  }

  /** The flush of `i` takes no version of the key from behind an older sealed one, unless the active
      memtable has the key and every crash would replay it. */
  predicate InOrder(s: State, i: nat, k: Key)
    requires i < |s.sealed|
  {
    NotNewer(s.sealed, i, k) || (Topmost(s, k).Some? && Unsaved(s, k))
  }

  /** Offsets and times fit the fields of an SSTable. */
  ghost predicate Small(s: State, now: nat)
  {
    Size(s.log) <= U32_LIMIT && now <= U64_LIMIT
  }

  lemma {:induction false} StoredFinds(es: seq<Entry>, k: Key)
    ensures Find(SsTable.StoredAll(es), k)
         == if Find(es, k).Some? then Some(SsTable.Stored(Find(es, k).value)) else None
  {
    hide SsTable.Stored;
    if es != [] {
      StoredFinds(es[1..], k);
      SsTable.StoredKey(es[0]);
      assert SsTable.StoredAll(es)[1..] == SsTable.StoredAll(es[1..]);
    }
  }

  lemma StoredSorted(es: seq<Entry>)
    requires Sorted(es)
    ensures Sorted(SsTable.StoredAll(es))
  {
    hide Less, SsTable.Stored;
    forall i | 0 <= i < |es|
      ensures SsTable.StoredAll(es)[i].key == es[i].key
    {
      SsTable.StoredKey(es[i]);
    }
  }

  lemma StoredExactly(log: seq<Record>, now: nat, e: Entry)
    requires VersionOk(log, e) && e.time < now && Size(log) <= U32_LIMIT && now <= U64_LIMIT
    ensures SsTable.Stored(e) == e
  {
    hide Size;
    var i :| Backed(log, e, i);
    OffsetMonotone(log, i, |log|);
    OffsetEnd(log);
  }

  lemma FlushKeepsInv(s: State, clock: nat -> nat, i: nat)
    requires Inv(s, clock) && i < |s.sealed|
    ensures Inv(Flush(s, i), clock)
  {
    hide Sorted, Boundary, RecordAt;
    StoredSorted(s.sealed[i]);
    EmptySorted();
  }

  /** A flush in order keeps the key. */
  lemma FlushKeepsKey(s: State, now: nat, i: nat, k: Key)
    requires KeyInv(s, now, k) && i < |s.sealed| && InOrder(s, i, k) && Small(s, now)
    ensures KeyInv(Flush(s, i), now, k)
  {
    hide SsTable.Fits, Flush, Covered, UpToDate, Unpunched, Layered, Sound, LogTimed, Shifted, NotNewer, Unsaved,
         Size, Topmost;
    if s.sealed[i] == [] || !SsTable.Fits(s.sealed[i]) {
      NoFlush(s, i);
    } else {
      FlushShifts(s, now, i, k);
      FlushLayers(s, now, i, k);
      if Layered(Bare(s), k) && NotNewer(s.sealed, i, k) {
        SoundBare(s, now, k);
        FlushLayers(Bare(s), now, i, k);
        FlushBare(s, i);
      }
      ShiftKeepsKey(s, Flush(s, i), now, k);
    }
  }

  lemma NoFlush(s: State, i: nat)
    requires i < |s.sealed| && (s.sealed[i] == [] || !SsTable.Fits(s.sealed[i]))
    ensures Flush(s, i) == s
  {
  }

  lemma FlushBare(s: State, i: nat)
    requires i < |s.sealed|
    ensures Flush(Bare(s), i) == Bare(Flush(s, i))
  {
    hide SsTable.Fits, SsTable.StoredAll;
  }

  lemma FlushShifts(s: State, now: nat, i: nat, k: Key)
    requires Sound(s, now, k) && i < |s.sealed| && Small(s, now) && s.sealed[i] != [] && SsTable.Fits(s.sealed[i])
    ensures Shifted(s, Flush(s, i), k)
  {
    hide Find, VersionOk, Version, Size, SsTable.Fits, SsTable.StoredAll;
    var s' := Flush(s, i);
    FlushVersions(s, now, i, SsTable.StoredAll(s.sealed[i]), k);
    forall e | Below(s, k, e)
      ensures exists e' :: Below(s', k, e') && e'.offset >= e.offset
    {
      assert Below(s', k, e);
    }
  }

  lemma FlushVersions(s: State, now: nat, i: nat, t: seq<Entry>, k: Key)
    requires Sound(s, now, k) && i < |s.sealed| && Small(s, now) && t == SsTable.StoredAll(s.sealed[i])
    ensures Find(t, k) == Find(s.sealed[i], k)
    ensures forall e: Entry | e.key == k ::
              (Version(s.tables + [t], e) <==> Version(s.tables, e) || Find(s.sealed[i], k) == Some(e)) &&
              (Version(s.sealed[i := []], e) ==> Version(s.sealed, e)) &&
              (Version(s.sealed, e) ==> Version(s.sealed[i := []], e) || Find(s.sealed[i], k) == Some(e)) &&
              (Find(s.sealed[i], k) == Some(e) ==> Version(s.sealed, e))
  {
    hide Find, Newest, VersionOk, Size, SsTable.StoredAll, SsTable.Stored;
    StoredFinds(s.sealed[i], k);
    var x := Find(s.sealed[i], k);
    if x.Some? {
      FindMember(s.sealed[i], k);
      assert Version(s.sealed, x.value);
      StoredExactly(s.log, now, x.value);
    }
    forall e: Entry | e.key == k
      ensures Version(s.tables + [t], e) <==> Version(s.tables, e) || x == Some(e)
      ensures Version(s.sealed[i := []], e) ==> Version(s.sealed, e)
      ensures Version(s.sealed, e) ==> Version(s.sealed[i := []], e) || x == Some(e)
    {
      VersionPush(s.tables, t, e);
      VersionClear(s.sealed, i, e);
    }
  }

  lemma FlushLayers(s: State, now: nat, i: nat, k: Key)
    requires Sound(s, now, k) && Layered(s, k) && i < |s.sealed| && Small(s, now)
    requires s.sealed[i] != [] && SsTable.Fits(s.sealed[i]) && (NotNewer(s.sealed, i, k) || Topmost(s, k).Some?)
    ensures Layered(Flush(s, i), k)
  {
    hide Find, Newest, VersionOk, Version, Size, SsTable.StoredAll, SsTable.Fits;
    FlushVersions(s, now, i, SsTable.StoredAll(s.sealed[i]), k);
    var sealed' := s.sealed[i := []];
    NewestIsLast(s.log, now, s.sealed, k);
    NewestIsLast(s.log, now, sealed', k);
    NewestKey(sealed', k);
    NewestKey(s.sealed, k);
    var m' := Newest(sealed', k);
    if m'.Some? && Topmost(s, k).None? {
      var m := Newest(s.sealed, k).value;
      assert Version(sealed', m) || Find(s.sealed[i], k) == Some(m);
      assert m.offset <= m'.value.offset;
    }
  }

  /** An emptied memtable leaves the sealed set unnoticed. */
  lemma DropKeepsKey(s: State, now: nat, i: nat, k: Key)
    requires KeyInv(s, now, k) && i < |s.sealed|
    ensures KeyInv(DropSealed(s, i), now, k)
  {
    hide Find, Newest, VersionOk, Version, OffsetOf, CoveredAt, Covered, UpToDate, Unpunched, Layered, Sound;
    var s' := DropSealed(s, i);
    if s.sealed[i] == [] {
      forall e: Entry
        ensures Version(s'.sealed, e) <==> Version(s.sealed, e)
      {
        VersionDrop(s.sealed, i, e);
      }
      forall e | Below(s, k, e)
        ensures exists e' :: Below(s', k, e') && e'.offset >= e.offset
      {
        assert Below(s', k, e);
      }
      DropLayers(s, s'.sealed, s'.link, now, k);
      if Layered(Bare(s), k) {
        SoundBare(s, now, k);
        DropLayers(Bare(s), s'.sealed, s'.link, now, k);
      }
      ShiftKeepsKey(s, s', now, k);
    }
  }

  lemma DropLayers(s: State, sealed': seq<seq<Entry>>, link: Link, now: nat, k: Key)
    requires Sound(s, now, k) && Layered(s, k) && forall e: Entry :: Version(sealed', e) <==> Version(s.sealed, e)
    requires Held(s.(link := link)) == Held(s)
    ensures Layered(s.(sealed := sealed', link := link), k)
  {
    hide Find, Newest, VersionOk, Version;
    NewestIsLast(s.log, now, s.sealed, k);
    NewestIsLast(s.log, now, sealed', k);
    NewestKey(s.sealed, k);
    NewestKey(sealed', k);
  }

  // ---------------------------------------------------------------------
  // Changing the tables behind the store's back

  /** A read cannot tell the two entries apart. */
  predicate SameLive(r: Option<Entry>, r': Option<Entry>)
  {
    if Live(r) then r' == r else !Live(r')
  }

  /** Other tables that hold no other version of the key, and in which a search finds the same live
      version, or none if there was none. */
  ghost predicate Rearranged(ts: seq<seq<Entry>>, ts': seq<seq<Entry>>, k: Key)
  {
    (forall e: Entry | e.key == k && Version(ts', e) :: Version(ts, e)) &&
    SameLive(Newest(ts, k), Newest(ts', k))
  }

  /** Whatever the tables hold, a read of the key stops before them, now and after every crash. */
  predicate Hidden(s: State, k: Key)
  {
    Newest(s.sealed, k).Some? || (Topmost(s, k).Some? && Unsaved(s, k))
  }

  /** The tables may be replaced: the others bring only versions that the tables or the collector's table hold,
      and a read that gets to them finds the same live version, or none if there was none. */
  ghost predicate Replaceable(s: State, ts': seq<seq<Entry>>, k: Key)
  {
    (forall e: Entry | e.key == k && Version(ts', e) :: Version(s.tables, e) || Find(Held(s), k) == Some(e)) &&
    (Hidden(s, k) || SameLive(Newest(s.tables, k), Newest(ts', k)))
  }

  lemma ReplaceKeepsKey(s: State, ts': seq<seq<Entry>>, now: nat, k: Key)
    requires KeyInv(s, now, k) && Replaceable(s, ts', k)
    ensures KeyInv(s.(tables := ts'), now, k)
  {
    hide Find, Newest, VersionOk, Version, OffsetOf, CoveredAt, Covered, UpToDate, Layered, Sound, SameLive, Topmost;
    ReplaceSound(s, ts', now, k);
    ReplaceReads(s, ts', now, k);
    ReplaceCovers(s, ts', now, k);
  }

  lemma ReplaceSound(s: State, ts': seq<seq<Entry>>, now: nat, k: Key)
    requires Sound(s, now, k) && Layered(s, k) && Replaceable(s, ts', k)
    ensures var s' := s.(tables := ts'); Sound(s', now, k) && Layered(s', k)
  {
    hide Find, Newest, VersionOk, Version, OffsetOf, Unsaved;
  }

  lemma ReplaceReads(s: State, ts': seq<seq<Entry>>, now: nat, k: Key)
    requires Sound(s, now, k) && UpToDate(s, k)
    requires SameLive(Newest(s.tables, k), Newest(ts', k)) || Newest(s.sealed, k).Some? || Topmost(s, k).Some?
    ensures UpToDate(s.(tables := ts'), k)
  {
    hide Find, Newest, VersionOk, Version, OffsetOf;
    var s' := s.(tables := ts');
    SelectOk(s, now, k);
    if Topmost(s, k).None? && Newest(s.sealed, k).None? {
      if !Live(Select(s, k)) {
        NotLiveLast(s.log, Select(s, k), k);
      }
    } else {
      assert Select(s', k) == Select(s, k);
    }
  }

  lemma ReplaceCovers(s: State, ts': seq<seq<Entry>>, now: nat, k: Key)
    requires Sound(s, now, k) && Covered(s, k) && Replaceable(s, ts', k)
    ensures Covered(s.(tables := ts'), k)
  {
    hide Find, OffsetOf, Layered, UpToDate, Sound, Version, Newest, SameLive, Topmost;
    var s' := s.(tables := ts');
    SoundBare(s, now, k);
    forall n | 0 <= n < |s'.saved|
      ensures HeadCovered(s', k, s'.saved[n].0)
    {
      var h: nat :| h < |s.log| && OffsetOf(s.log, h) == s.saved[n].0 && CoveredAt(s, k, h);
      if Last(s.log, k).Some? && Last(s.log, k).value <= h {
        OffsetMonotone(s.log, Last(s.log, k).value, h);
        assert !Unsaved(s, k);
        ReplaceSound(Bare(s), ts', now, k);
        ReplaceReads(Bare(s), ts', now, k);
        assert Bare(s).(tables := ts') == Bare(s');
      }
      assert CoveredAt(s', k, h);
    }
  }

  // ---------------------------------------------------------------------
  // Tables that are searched although they were removed

  /** A read of the key gets to the tables and would find nothing there, or a deletion, but the others hold a
      live version, and no deletion is newer. */
  predicate Haunted(s: State, others: seq<seq<Entry>>, k: Key)
  {
    var x, n := Newest(others, k), Newest(s.tables, k);
    Topmost(s, k).None? && Newest(s.sealed, k).None? && Live(x) && !Live(n) &&
    (n.None? || n.value.time < x.value.time)
  }

  lemma {:induction false} NewestConcat(a: seq<seq<Entry>>, b: seq<seq<Entry>>, k: Key)
    ensures var x, y := Newest(a, k), Newest(b, k);
            Newest(a + b, k) == if y.Some? && (x.None? || x.value.time < y.value.time) then y else x
  {
    hide Find;
    if b == [] {
      assert a + b == a;
    } else {
      var n := |b| - 1;
      NewestConcat(a, b[..n], k);
      assert (a + b)[..|a| + n] == a + b[..n];
    }
  }

  lemma VersionConcat(a: seq<seq<Entry>>, b: seq<seq<Entry>>, e: Entry)
    ensures Version(a + b, e) <==> Version(a, e) || Version(b, e)
  {
    hide Find;
    if i :| 0 <= i < |a| && Find(a[i], e.key) == Some(e) {
      assert (a + b)[i] == a[i];
    }
    if i :| 0 <= i < |b| && Find(b[i], e.key) == Some(e) {
      assert (a + b)[|a| + i] == b[i];
    }
  }

  /** When other tables with versions of old are searched as well, the reads of a key stay right if and only if
      it is not haunted. */
  lemma HauntedIff(s: State, now: nat, others: seq<seq<Entry>>, k: Key)
    requires KeyInv(s, now, k) && AllOk(s.log, now, others, k)
    ensures Sound(s.(tables := s.tables + others), now, k)
    ensures UpToDate(s.(tables := s.tables + others), k) <==> !Haunted(s, others, k)
  {
    hide Find, Newest, VersionOk, Version, OffsetOf, Covered, Unpunched, LogTimed;
    var s' := s.(tables := s.tables + others);
    forall e: Entry
      ensures Version(s'.tables, e) <==> Version(s.tables, e) || Version(others, e)
    {
      VersionConcat(s.tables, others, e);
    }
    NewestConcat(s.tables, others, k);
    SelectOk(s, now, k);
    if Topmost(s, k).Some? || Newest(s.sealed, k).Some? {
      assert Select(s', k) == Select(s, k);
    } else {
      HauntedTables(s, now, others, k);
    }
  }

  lemma HauntedTables(s: State, now: nat, others: seq<seq<Entry>>, k: Key)
    requires KeyInv(s, now, k) && AllOk(s.log, now, others, k) && Topmost(s, k).None? && Newest(s.sealed, k).None?
    ensures var x, n := Newest(others, k), Newest(s.tables, k);
            Answers(s.log, if x.Some? && (n.None? || n.value.time < x.value.time) then x else n, k) <==>
            !Haunted(s, others, k)
  {
    hide Find, Newest, VersionOk, Version, OffsetOf, Covered, Unpunched, LogTimed;
    var x, n := Newest(others, k), Newest(s.tables, k);
    NewestIsLast(s.log, now, others, k);
    NewestKey(others, k);
    SelectOk(s, now, k);
    assert Select(s, k) == n;
    if !Live(n) {
      NotLiveLast(s.log, n, k);
    } else if x.Some? && n.value.time < x.value.time {
      VersionOrder(s.log, n.value, x.value);
      VersionAtMostLast(s.log, x.value);
      SameAnswer(s.log, now, n, x, k);
    }
  }

  /** A haunted key is not read as absent, although it is. */
  lemma HauntedRead(s: State, clock: nat -> nat, now: nat, others: seq<seq<Entry>>, k: Key)
    requires Inv(s, clock) && KeyInv(s, now, k) && AllOk(s.log, now, others, k) && Haunted(s, others, k)
    requires Sized(k)
    ensures Current(s.log, k) == None && Get(s.(tables := s.tables + others), k) != Ok(None)
  {
    hide Find, Newest, VersionOk, Version, OffsetOf, Covered, Unpunched, LogTimed, Inv, File, GetValue;
    var s' := s.(tables := s.tables + others);
    var x := Newest(others, k).value;
    NewestConcat(s.tables, others, k);
    SelectOk(s, now, k);
    NotLiveLast(s.log, Select(s, k), k);
    NewestIsLast(s.log, now, others, k);
    NewestKey(others, k);
    BackedOne(s.log, x);
    var i :| Backed(s.log, x, i);
    LiveRead(s, clock, x, i);
    SameFile(s, s');
    assert Tiered(s', k) == Some(x);
  }

  lemma BackedOne(log: seq<Record>, e: Entry)
    requires VersionOk(log, e)
    ensures exists i :: Backed(log, e, i)
  {
  }

  // ---------------------------------------------------------------------
  // Flushes out of order

  /** A read of the key would stop at a sealed memtable other than `i`, at a version older than the one that
      `i` holds, and one of the two versions is live. */
  predicate Shadowed(s: State, i: nat, k: Key)
    requires i < |s.sealed|
  {
    var x, m := Find(s.sealed[i], k), Newest(s.sealed[i := []], k);
    Find(s.gc, k).None? && Find(s.active.entries, k).None? &&
    x.Some? && m.Some? && m.value.offset < x.value.offset && (Live(x) || Live(m))
  }

  /** Whatever the order, a completed flush keeps the reads of a key right if and only if it does not take
      a version from behind an older one, unless both are deletions. */
  lemma FlushAnyOrder(s: State, now: nat, i: nat, k: Key)
    requires KeyInv(s, now, k) && i < |s.sealed| && Small(s, now)
    requires s.sealed[i] != [] && SsTable.Fits(s.sealed[i])
    ensures UpToDate(Flush(s, i), k) <==> !Shadowed(s, i, k)
  {
    hide Find, Newest, VersionOk, Version, OffsetOf, Size, SsTable.Fits, SsTable.StoredAll, Covered, Unpunched, Answers;
    var s' := Flush(s, i);
    var t := SsTable.StoredAll(s.sealed[i]);
    FlushVersions(s, now, i, t, k);
    if Find(s.gc, k).Some? || Find(s.active.entries, k).Some? {
      SameAbove(s, s', k);
    } else if Newest(s'.sealed, k).None? {
      NewestIsLast(s.log, now, s'.sealed, k);
      FlushFalls(s, s', now, k);
    } else {
      FlushStops(s, now, i, k);
    }
  }

  /** The read stops at another sealed memtable. */
  lemma FlushStops(s: State, now: nat, i: nat, k: Key)
    requires KeyInv(s, now, k) && i < |s.sealed| && Find(s.gc, k).None? && Find(s.active.entries, k).None?
    requires Newest(s.sealed[i := []], k).Some?
    ensures Answers(s.log, Newest(s.sealed[i := []], k), k) <==> !Shadowed(s, i, k)
  {
    hide Find, Newest, VersionOk, Version, OffsetOf, Covered, Unpunched;
    var less := s.sealed[i := []];
    var x, m, y := Find(s.sealed[i], k), Newest(less, k), Newest(s.sealed, k);
    forall e: Entry | e.key == k
      ensures Version(less, e) ==> Version(s.sealed, e)
      ensures Version(s.sealed, e) ==> Version(less, e) || x == Some(e)
      ensures x == Some(e) ==> Version(s.sealed, e)
    {
      VersionClear(s.sealed, i, e);
      SealedVersion(s.sealed, i, e);
    }
    FindMember(s.sealed[i], k);
    NewestIsLast(s.log, now, s.sealed, k);
    NewestIsLast(s.log, now, less, k);
    NewestKey(s.sealed, k);
    NewestKey(less, k);
    assert Select(s, k) == y;
    if x.None? || x.value.offset <= m.value.offset {
      SameAnswer(s.log, now, y, m, k);
    } else {
      SameAnswer(s.log, now, y, x, k);
      if !Live(x) {
        NotLiveLast(s.log, x, k);
      }
    }
  }

  lemma SealedVersion(sealed: seq<seq<Entry>>, i: nat, e: Entry)
    requires i < |sealed|
    ensures Find(sealed[i], e.key) == Some(e) ==> Version(sealed, e)
  {
  }

  lemma FlushFalls(s: State, s': State, now: nat, k: Key)
    requires KeyInv(s, now, k) && s'.log == s.log && Newest(s'.sealed, k).None?
    requires Find(s'.gc, k).None? && Find(s'.active.entries, k).None?
    requires Find(s.gc, k).None? && Find(s.active.entries, k).None?
    requires forall e: Entry | e.key == k :: Version(s'.tables, e) <==> Version(s.tables, e) || Version(s.sealed, e)
    ensures UpToDate(s', k)
  {
    hide Find, Newest, VersionOk, Version, OffsetOf, Covered, Unpunched, Answers;
    SelectIsTop(s, now, k);
    SelectOk(s, now, k);
    NewestIsLast(s.log, now, s'.tables, k);
    NewestKey(s'.tables, k);
    var x, y := Select(s, k), Newest(s'.tables, k);
    assert Select(s', k) == y;
    if x.Some? {
      assert Below(s, k, x.value) && Version(s'.tables, x.value);
      assert Below(s, k, y.value);
    }
    SameAnswer(s.log, now, x, y, k);
  }

  /** Where later memtables hold later versions, a flush of the oldest one with the key is in order. */
  lemma OldestFirst(s: State, i: nat, k: Key)
    requires i < |s.sealed| && forall j | 0 <= j < i :: Find(s.sealed[j], k).None?
    requires forall j | i < j < |s.sealed| && Find(s.sealed[i], k).Some? && Find(s.sealed[j], k).Some? ::
               Find(s.sealed[i], k).value.offset <= Find(s.sealed[j], k).value.offset
    ensures InOrder(s, i, k)
  {
    hide Find, Unsaved;
    FindNone(k);
    var less := s.sealed[i := []];
    NewestIsLatest(less, k);
    if Newest(less, k).Some? {
      var j :| 0 <= j < |less| && Find(less[j], k) == Newest(less, k);
      assert j != i && less[j] == s.sealed[j];
    }
  }

  /** Two sealed memtables with a version of the key each, the second flushed first: the read goes back
      to the older version. */
  lemma OutOfOrderReadsBack(s: State, x: Entry, y: Entry)
    requires s.sealed == [[x], [y]] && x.key == y.key && 0 < x.time < y.time
    requires Find(s.gc, x.key).None? && Find(s.active.entries, x.key).None? && SsTable.Fits([y])
    ensures Select(s, x.key) == Some(y) && Select(Flush(s, 1), x.key) == Some(x)
  {
    hide SsTable.StoredAll;
    var k := x.key;
    assert [x][1..] == [] && [y][1..] == [];
    assert s.sealed[..1] == [[x]] && [[x]][..0] == [];
    assert Newest([[x]], k) == Some(x);
    assert Newest(s.sealed, k) == Some(y);
    var s' := Flush(s, 1);
    assert s'.sealed == [[x], []] && s'.sealed[..1] == [[x]];
    assert Newest(s'.sealed, k) == Some(x);
  }

  /** A memtable can be flushed if and only if it holds something and no key longer than a block leaves
      room for, although the store accepts keys sixteen times as long. */
  lemma FlushSucceedsIff(s: State, i: nat)
    requires i < |s.sealed|
    ensures Flush(s, i) != s <==> s.sealed[i] != [] && forall e | e in s.sealed[i] :: |e.key| <= 4079
    ensures forall k: Key | 4079 < |k| <= 65536 :: Validate(k, None).Ok?
  {
    hide SsTable.StoredAll;
    var es := s.sealed[i];
    assert SsTable.Fits(es) <==> forall e | e in es :: |e.key| <= 4079;
    if es != [] && SsTable.Fits(es) {
      assert |Flush(s, i).tables| == |s.tables| + 1;
    }
  }
}
